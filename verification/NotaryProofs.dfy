/** Convergence of the remote notary, and refusal after a rollback. */
module NotaryProofs {
  import opened Text
  import opened Json
  import JsonProofs
  import opened Registry
  import opened Notary

  // ---------- Names carry their seq ----------

  function Pow10(k: nat): nat {
    if k == 0 then 1 else 10 * Pow10(k - 1)
  }

  lemma {:induction false} DecimalLength(n: nat, k: nat)
    requires k >= 1
    ensures |Decimal(n)| <= k <==> n < Pow10(k)
    decreases k
  {
    if n < 10 {
      assert Pow10(k - 1) >= 1 by { Pow10Positive(k - 1); }
    } else if k == 1 {
      assert Pow10(1) == 10;
    } else {
      DecimalLength(n / 10, k - 1);
    }
  }

  lemma {:induction false} Pow10Positive(k: nat)
    ensures Pow10(k) >= 1
  {
    if k > 0 {
      Pow10Positive(k - 1);
    }
  }

  lemma {:induction false} ZerosShape(n: int)
    ensures |Zeros(n)| == (if n > 0 then n else 0) && AllDigits(Zeros(n)) && DecimalValue(Zeros(n)) == 0
  {
    if n > 0 {
      ZerosShape(n - 1);
      assert Zeros(n)[..n - 1] == Zeros(n - 1);
    }
  }

  lemma {:induction false} LeadingZeros(n: int, d: string)
    requires AllDigits(d)
    ensures AllDigits(Zeros(n) + d) && DecimalValue(Zeros(n) + d) == DecimalValue(d)
  {
    ZerosShape(n);
    var s := Zeros(n) + d;
    if d == [] {
      assert s == Zeros(n);
    } else {
      LeadingZeros(n, d[..|d| - 1]);
      assert s[..|s| - 1] == Zeros(n) + d[..|d| - 1];
    }
  }

  lemma {:induction false} PadShape(n: nat)
    ensures |Pad6(n)| >= 6 && AllDigits(Pad6(n)) && DecimalValue(Pad6(n)) == n
    ensures |Pad6(n)| == 6 <==> n <= 999999
  {
    ZerosShape(6 - |Decimal(n)|);
    LeadingZeros(6 - |Decimal(n)|, Decimal(n));
    DecimalRoundTrip(n);
    DecimalLength(n, 6);
    assert Pow10(6) == 1000000 by {
      assert Pow10(3) == 1000;
    }
  }

  lemma {:induction false} NameParts(pad: string, stamp: string)
    requires |pad| >= 6
    ensures var name := pad + "-" + stamp + ".line";
      && name[..6] == pad[..6] && name[6] == (if |pad| == 6 then '-' else pad[6])
      && name[|name| - 5..] == ".line" && |name| == |pad| + |stamp| + 6
      && (|pad| == 6 ==> name[7..|name| - 5] == stamp)
  {
  }

  lemma {:induction false} ReplaceColons(s: string)
    ensures ':' !in Replace(s, ":", "")
  {
    if s != [] {
      ReplaceColons(s[1..]);
      assert s[..1] == [s[0]];
      if s[0] != ':' {
        assert s[..1] != ":";
      }
    }
  }

  lemma {:induction false} ReplaceAbsent(s: string, find: string, put: string, c: char)
    requires c in find && c !in s
    ensures Replace(s, find, put) == s
    decreases |s|
  {
    if |s| >= |find| {
      var i :| 0 <= i < |find| && find[i] == c;
      assert s[..|find|][i] == s[i] && s[i] in s;
      ReplaceAbsent(s[1..], find, put, c);
      assert s == [s[0]] + s[1..];
    }
  }

  /** The second replacement in a stamp never applies: what it looks for has a colon, and no colon is left. */
  lemma {:induction false} StampDropsColons(time: string)
    ensures Stamp(time) == Replace(time, ":", "") && ':' !in Stamp(time)
  {
    ReplaceColons(time);
    assert "+00:00"[3] == ':';
    ReplaceAbsent(Replace(time, ":", ""), "+00:00", "Z", ':');
  }

  predicate AllStampChars(s: string) {
    forall i | 0 <= i < |s| :: IsStampChar(s[i])
  }

  lemma {:induction false} StampKeepsChars(s: string, find: string, put: string)
    requires find != [] && AllStampChars(s) && AllStampChars(put)
    ensures AllStampChars(Replace(s, find, put))
    ensures s != [] && s[0] !in find ==> Replace(s, find, put) != []
    decreases |s|
  {
    if |s| >= |find| {
      if s[..|find|] == find {
        assert s[0] == find[0];
        StampKeepsChars(s[|find|..], find, put);
      } else {
        StampKeepsChars(s[1..], find, put);
      }
    }
  }

  /** The stamp of an ISO time is one that names may carry. */
  lemma {:induction false} IsoStampOk(time: string)
    requires AllStampChars(time) && time != [] && time[0] != ':'
    ensures StampOk(Stamp(time))
  {
    StampDropsColons(time);
    StampKeepsChars(time, ":", "");
  }

  /** A name gives its seq back exactly when the seq has at most six digits. */
  lemma {:induction false} NameRoundTrip(n: nat, time: string)
    requires StampOk(Stamp(time))
    ensures NAME_SEQ(ObjectName(n, time)) == if n <= 999999 then Some(n) else None
  {
    assert NAME_SEQ(ObjectName(n, time)) == ReadName(ObjectName(n, time));
    PadShape(n);
    NameParts(Pad6(n), Stamp(time));
    if n <= 999999 {
      assert Pad6(n)[..6] == Pad6(n);
    } else {
      assert IsDigit(Pad6(n)[6]);
    }
  }

  // ---------- Lines read back ----------

  /** A line that notarize writes: parsing and writing it again gives the same line, newline or not. */
  predicate HonestLine(line: string) {
    && Timed(line) && SIGNED_TEXT(ParseLine(line).value) == line
    && ParseLine(line + "\n") == ParseLine(line) && StampOk(Stamp(TimeOf(line)))
  }

  lemma {:induction false} EntryWellFormed(anchor: Value, now: string)
    requires WellFormed(anchor)
    ensures WellFormed(Entry(anchor, now))
  {
    assert |"notarized_at"| != |"anchor"|;
  }

  lemma {:induction false} LineReadsBack(v: Value)
    requires WellFormed(v)
    ensures ParseLine(SIGNED_TEXT(v)) == ParseLine(SIGNED_TEXT(v) + "\n") == Some(Norm(v))
    ensures SIGNED_TEXT(Norm(v)) == SIGNED_TEXT(v)
  {
    var text := SIGNED_TEXT(v);
    assert text == Canonical(COMPACT_ASCII, v);
    assert SIGNED_TEXT(Norm(v)) == Canonical(COMPACT_ASCII, Norm(v));
    JsonProofs.CanonicalRoundTrip(COMPACT_ASCII, v, false);
    JsonProofs.NormWellFormed(v);
    JsonProofs.LoadsPrintLine(COMPACT_ASCII, Norm(v), false);
    assert ParseLine(text) == Loads(false, text);
    assert ParseLine(text + "\n") == Loads(false, text + "\n");
  }

  lemma {:induction false} EntryLineHonest(anchor: Value, now: string)
    requires WellFormed(anchor) && StampOk(Stamp(now))
    ensures var line := SIGNED_TEXT(Entry(anchor, now)); HonestLine(line) && TimeOf(line) == now
  {
    var v := Entry(anchor, now);
    EntryWellFormed(anchor, now);
    LineReadsBack(v);
    assert v.fields[0] == Field("notarized_at", Str(now));
    JsonProofs.LookupSortedNorm(v.fields, "notarized_at");
  }

  // ---------- The remote against the log ----------

  predicate LogHonest(local: seq<string>) {
    forall i | 0 <= i < |local| :: HonestLine(local[i])
  }

  /** Each listed object is the one of its entry, and holds that entry's line. */
  predicate Honest(local: seq<string>, objects: map<string, string>) {
    LogHonest(local) && forall n | n in objects :: OwnObject(local, objects, n)
  }

  predicate OwnObject(local: seq<string>, objects: map<string, string>, n: string)
    requires n in objects && LogHonest(local)
  {
    NAME_SEQ(n).Some? ==>
      var s := NAME_SEQ(n).value;
      1 <= s <= |local| && n == ObjectName(s, TimeOf(local[s - 1])) && objects[n] == local[s - 1] + "\n"
  }

  /** Every entry of the log is listed. */
  predicate Complete(local: seq<string>, objects: map<string, string>) {
    forall s: nat | 1 <= s <= |local| :: s in ListedSeqs(objects)
  }

  lemma {:induction false} PushOwn(local: seq<string>, objects: map<string, string>, s: nat, pushes: string -> bool)
    requires Honest(local, objects) && 1 <= s <= |local|
    ensures Honest(local, Push(objects, ObjectName(s, TimeOf(local[s - 1])), local[s - 1], pushes))
  {
    var name := ObjectName(s, TimeOf(local[s - 1]));
    var after := Push(objects, name, local[s - 1], pushes);
    assert HonestLine(local[s - 1]);
    NameRoundTrip(s, TimeOf(local[s - 1]));
    forall n | n in after ensures OwnObject(local, after, n) {
      if n != name {
        assert OwnObject(local, objects, n);
      }
    }
  }

  lemma {:induction false} HonestTimed(local: seq<string>)
    requires LogHonest(local)
    ensures LogTimed(local)
  {
    forall i | 0 <= i < |local| ensures Timed(local[i]) {
      assert HonestLine(local[i]);
    }
  }

  /** The k-th entry's object is there. */
  predicate Pushed(local: seq<string>, objects: map<string, string>, k: nat)
    requires 1 <= k <= |local| && LogTimed(local)
  {
    ObjectName(k, TimeOf(local[k - 1])) in objects
  }

  lemma {:induction false} HonestLineText(local: seq<string>, i: nat)
    requires LogHonest(local) && i < |local|
    ensures Timed(local[i]) && SIGNED_TEXT(ParseLine(local[i]).value) == local[i]
  {
    assert HonestLine(local[i]);
  }

  lemma {:induction false} BackfillKeepsStep(objects: map<string, string>, local: seq<string>, all: seq<string>, had: set<nat>,
                                             s: nat, pushes: string -> bool)
    requires |local| <= |all| && all[..|local|] == local && 1 <= s <= |local| && LogTimed(local)
    requires Honest(all, Backfilled(objects, local, had, s - 1, pushes))
    ensures Honest(all, Backfilled(objects, local, had, s, pushes))
    ensures Backfilled(objects, local, had, s - 1, pushes).Keys <= Backfilled(objects, local, had, s, pushes).Keys
  {
    BackfillStep(objects, local, had, s, pushes);
    assert all[s - 1] == local[s - 1];
    HonestLineText(all, s - 1);
    PushOwn(all, Backfilled(objects, local, had, s - 1, pushes), s, pushes);
  }

  /** Backfilling adds own objects only and loses none. */
  lemma {:induction false} BackfillKeeps(objects: map<string, string>, local: seq<string>, all: seq<string>, had: set<nat>,
                                         s: nat, pushes: string -> bool)
    requires Honest(all, objects) && |local| <= |all| && all[..|local|] == local && s <= |local| && LogTimed(local)
    ensures var after := Backfilled(objects, local, had, s, pushes); Honest(all, after) && objects.Keys <= after.Keys
  {
    if s > 0 {
      BackfillKeeps(objects, local, all, had, s - 1, pushes);
      BackfillKeepsStep(objects, local, all, had, s, pushes);
    }
  }

  /** If all of it gets through, it covers what was missing. */
  lemma {:induction false} BackfillCovers(objects: map<string, string>, local: seq<string>, had: set<nat>, s: nat,
                                          pushes: string -> bool)
    requires s <= |local| && LogTimed(local) && BackfillOk(local, had, s, pushes)
    ensures forall k | 1 <= k <= s && k !in had :: Pushed(local, Backfilled(objects, local, had, s, pushes), k)
  {
    if s > 0 {
      BackfillStep(objects, local, had, s, pushes);
      BackfillCovers(objects, local, had, s - 1, pushes);
      var before, after := Backfilled(objects, local, had, s - 1, pushes), Backfilled(objects, local, had, s, pushes);
      forall k | 1 <= k <= s && k !in had ensures Pushed(local, after, k) {
        assert k < s ==> Pushed(local, before, k);
      }
    }
  }

  // ---------- Convergence ----------

  lemma {:induction false} ListedWithinLog(local: seq<string>, objects: map<string, string>)
    requires Honest(local, objects)
    ensures forall s | s in ListedSeqs(objects) :: 1 <= s <= |local|
  {
    forall s | s in ListedSeqs(objects) ensures 1 <= s <= |local| {
      var n :| n in objects && NAME_SEQ(n) == Some(s);
      assert OwnObject(local, objects, n);
    }
  }

  lemma {:induction false} LogGrows(local: seq<string>, objects: map<string, string>, line: string)
    requires Honest(local, objects) && HonestLine(line)
    ensures Honest(local + [line], objects)
  {
    var all := local + [line];
    forall i | 0 <= i < |all| ensures HonestLine(all[i]) {
      assert i < |local| ==> HonestLine(local[i]);
    }
    forall n | n in objects ensures OwnObject(all, objects, n) {
      assert OwnObject(local, objects, n);
    }
  }

  /** What one call does to an honest pair: it stays honest and is not refused. */
  lemma {:induction false} NotarizeKeepsHonest(local: seq<string>, objects: map<string, string>, anchor: Value, now: string,
                                               pushes: string -> bool)
    requires Honest(local, objects) && WellFormed(anchor) && StampOk(Stamp(now))
    ensures LogTimed(local)
    ensures
      var (all, after, r) := AfterNotarize(local, objects, anchor, now, pushes);
      && all == local + [SIGNED_TEXT(Entry(anchor, now))] && Honest(all, after) && objects.Keys <= after.Keys
      && r.Notarized? && r.seqNo == |all|
      && (r.ok ==> forall k | 1 <= k <= |all| && k !in ListedSeqs(objects) :: LogTimed(all) && Pushed(all, after, k))
  {
    HonestTimed(local);
    ListedWithinLog(local, objects);
    var had, line := ListedSeqs(objects), SIGNED_TEXT(Entry(anchor, now));
    var all := local + [line];
    EntryLineHonest(anchor, now);
    LogGrows(local, objects, line);
    assert all[..|local|] == local;
    assert all[|all| - 1] == line;
    var name := ObjectName(|all|, now);
    PushOwn(all, objects, |all|, pushes);
    var first := Push(objects, name, line, pushes);
    BackfillKeeps(first, local, all, had, |local|, pushes);
    HonestTimed(all);
    var after := Backfilled(first, local, had, |local|, pushes);
    if pushes(name) && BackfillOk(local, had, |local|, pushes) {
      BackfillCovers(first, local, had, |local|, pushes);
      forall k | 1 <= k <= |all| && k !in had ensures Pushed(all, after, k) {
        if k < |all| {
          assert Pushed(local, after, k) && all[k - 1] == local[k - 1];
        } else {
          assert name in first.Keys;
        }
      }
    }
  }

  lemma {:induction false} PushedIsListed(local: seq<string>, objects: map<string, string>, k: nat)
    requires LogHonest(local) && LogTimed(local) && 1 <= k <= |local| && k <= 999999 && Pushed(local, objects, k)
    ensures k in ListedSeqs(objects)
  {
    assert HonestLine(local[k - 1]);
    NameRoundTrip(k, TimeOf(local[k - 1]));
  }

  /** Convergence: whatever failed before, one call that reports success leaves on the remote exactly the entries
      of the log, as long as the seqs have six digits; and past that it never does, for all its report says. */
  lemma {:induction false} NotarizeConverges(local: seq<string>, objects: map<string, string>, anchor: Value, now: string,
                                             pushes: string -> bool)
    requires Honest(local, objects) && WellFormed(anchor) && StampOk(Stamp(now)) && LogTimed(local)
    requires AfterNotarize(local, objects, anchor, now, pushes).2 == Notarized(|local| + 1, true)
    ensures
      var (all, after, _) := AfterNotarize(local, objects, anchor, now, pushes);
      && Honest(all, after)
      && (Complete(all, after) <==> |all| <= 999999)
  {
    NotarizeKeepsHonest(local, objects, anchor, now, pushes);
    var (all, after, _) := AfterNotarize(local, objects, anchor, now, pushes);
    if |all| <= 999999 {
      forall s: nat | 1 <= s <= |all| ensures s in ListedSeqs(after) {
        if s in ListedSeqs(objects) {
          var n :| n in objects && NAME_SEQ(n) == Some(s);
          assert n in after.Keys;
        } else {
          PushedIsListed(all, after, s);
        }
      }
    } else {
      SixDigitsOnly(after);
      assert |all| !in ListedSeqs(after);
    }
  }

  lemma {:induction false} SixDigitsOnly(objects: map<string, string>)
    ensures forall s | s in ListedSeqs(objects) :: s <= 999999
  {
    forall s | s in ListedSeqs(objects) ensures s <= 999999 {
      var n :| n in objects && NAME_SEQ(n) == Some(s);
      assert NAME_SEQ(n) == ReadName(n);
      SixDigitValue(n[..6]);
    }
  }

  lemma {:induction false} SixDigitValue(d: string)
    requires AllDigits(d)
    ensures DecimalValue(d) < Pow10(|d|)
    ensures |d| == 6 ==> DecimalValue(d) <= 999999
  {
    if d != [] {
      SixDigitValue(d[..|d| - 1]);
    }
    assert Pow10(6) == 1000000 by {
      assert Pow10(3) == 1000;
    }
  }

  /** In a complete honest pair the remote is the log: the seqs listed are 1..n, and entry s is one object, which
      holds line s. */
  lemma {:induction false} CompleteIsCopy(local: seq<string>, objects: map<string, string>, s: nat)
    requires Honest(local, objects) && Complete(local, objects)
    ensures s in ListedSeqs(objects) <==> 1 <= s <= |local|
    ensures 1 <= s <= |local| ==>
      && Timed(local[s - 1])
      && var n := ObjectName(s, TimeOf(local[s - 1]));
         && n in objects && NAME_SEQ(n) == Some(s) && objects[n] == local[s - 1] + "\n"
         && forall m | m in objects && NAME_SEQ(m) == Some(s) :: m == n
  {
    ListedWithinLog(local, objects);
    if 1 <= s <= |local| {
      assert s in ListedSeqs(objects);
      var n :| n in objects && NAME_SEQ(n) == Some(s);
      HonestLineText(local, s - 1);
      assert OwnObject(local, objects, n);
      forall m | m in objects && NAME_SEQ(m) == Some(s) ensures m == n {
        assert OwnObject(local, objects, m);
      }
    }
  }

  // ---------- Runs ----------

  /** One call of notarize: the anchor it finds, the clock, and which writes get through. */
  datatype Attempt = Attempt(anchor: Value, now: string, pushes: string -> bool)

  predicate AttemptOk(a: Attempt) {
    WellFormed(a.anchor) && StampOk(Stamp(a.now))
  }

  function AfterAttempts(local: seq<string>, objects: map<string, string>, run: seq<Attempt>): (seq<string>, map<string, string>)
  {
    if run == [] then (local, objects)
    else
      var (l, o) := AfterAttempts(local, objects, run[..|run| - 1]);
      var a := run[|run| - 1];
      if LogTimed(l) then
        var (l', o', _) := AfterNotarize(l, o, a.anchor, a.now, a.pushes);
        (l', o')
      else (l, o)
  }

  /** However many pushes fail over a run, the remote never holds anything but copies of the log's lines under
      their own names, and the log has one line per call. */
  lemma {:induction false} RunStaysHonest(local: seq<string>, objects: map<string, string>, run: seq<Attempt>)
    requires Honest(local, objects) && forall i | 0 <= i < |run| :: AttemptOk(run[i])
    ensures var (l, o) := AfterAttempts(local, objects, run); Honest(l, o) && |l| == |local| + |run|
  {
    if run != [] {
      var front, a := run[..|run| - 1], run[|run| - 1];
      RunStaysHonest(local, objects, front);
      var (l, o) := AfterAttempts(local, objects, front);
      assert AttemptOk(a);
      NotarizeKeepsHonest(l, o, a.anchor, a.now, a.pushes);
    }
  }

  /** From nothing, through any failures, to one call that reports success: the remote is a copy of the log. */
  lemma {:induction false} RunConverges(run: seq<Attempt>)
    requires run != [] && |run| <= 999999 && forall i | 0 <= i < |run| :: AttemptOk(run[i])
    ensures
      var (l, o) := AfterAttempts([], map[], run[..|run| - 1]);
      var a := run[|run| - 1];
      LogTimed(l) && (AfterNotarize(l, o, a.anchor, a.now, a.pushes).2 == Notarized(|run|, true) ==>
        var (l', o') := AfterAttempts([], map[], run); Honest(l', o') && Complete(l', o') && |l'| == |run|)
  {
    var front, a := run[..|run| - 1], run[|run| - 1];
    RunStaysHonest([], map[], front);
    var (l, o) := AfterAttempts([], map[], front);
    assert AttemptOk(a);
    NotarizeKeepsHonest(l, o, a.anchor, a.now, a.pushes);
    if AfterNotarize(l, o, a.anchor, a.now, a.pushes).2 == Notarized(|run|, true) {
      NotarizeConverges(l, o, a.anchor, a.now, a.pushes);
    }
  }

  ghost predicate AllThrough(pushes: string -> bool) {
    forall name :: pushes(name)
  }

  lemma {:induction false} AllThroughReportsOk(local: seq<string>, objects: map<string, string>, anchor: Value, now: string,
                                               pushes: string -> bool)
    requires Honest(local, objects) && WellFormed(anchor) && StampOk(Stamp(now)) && AllThrough(pushes)
    ensures LogTimed(local) && AfterNotarize(local, objects, anchor, now, pushes).2 == Notarized(|local| + 1, true)
  {
    NotarizeKeepsHonest(local, objects, anchor, now, pushes);
    assert BackfillOk(local, ListedSeqs(objects), |local|, pushes);
  }

  /** From nothing, with every push getting through, every call reports success, however many there are; but the
      remote is complete only up to 999999 of them. */
  lemma {:induction false} SuccessWithoutCopy(run: seq<Attempt>)
    requires run != [] && forall i | 0 <= i < |run| :: AttemptOk(run[i]) && AllThrough(run[i].pushes)
    ensures
      var (l, o) := AfterAttempts([], map[], run[..|run| - 1]);
      var (l', o') := AfterAttempts([], map[], run);
      var a := run[|run| - 1];
      && LogTimed(l) && AfterNotarize(l, o, a.anchor, a.now, a.pushes).2 == Notarized(|run|, true)
      && |l'| == |run| && (Complete(l', o') <==> |run| <= 999999)
  {
    var front, a := run[..|run| - 1], run[|run| - 1];
    RunStaysHonest([], map[], front);
    var (l, o) := AfterAttempts([], map[], front);
    assert AttemptOk(a) && AllThrough(a.pushes);
    AllThroughReportsOk(l, o, a.anchor, a.now, a.pushes);
    NotarizeKeepsHonest(l, o, a.anchor, a.now, a.pushes);
    NotarizeConverges(l, o, a.anchor, a.now, a.pushes);
  }

  /** There are such runs of every length. */
  lemma {:induction false} SomeRunOfLength(n: nat) returns (run: seq<Attempt>)
    ensures |run| == n && forall i | 0 <= i < |run| :: AttemptOk(run[i]) && AllThrough(run[i].pushes)
  {
    if n == 0 {
      run := [];
    } else {
      var front := SomeRunOfLength(n - 1);
      var now := "2026-01-01T00:00:00+00:00";
      IsoStampOk(now);
      run := front + [Attempt(Null, now, (name: string) => true)];
    }
  }

  // ---------- Rollback ----------

  /** With an entry on the remote that the log lacks, notarize changes nothing and verify is never healthy. */
  lemma {:induction false} RemoteAheadRefused(ctx: Context, local: seq<string>, objects: map<string, string>, s: nat,
                                              anchor: Value, now: string, pushes: string -> bool, names: seq<string>)
    requires LogTimed(local) && s in ListedSeqs(objects) && s > |local| && Lists(names, objects)
    ensures AfterNotarize(local, objects, anchor, now, pushes) == (local, objects, RemoteAhead)
    ensures var v := RemoteVerdict(ctx, |local|, names, objects); v == Diverged || v == RemoteInvalid || v == VerifyRaised
  {
    var n :| n in objects && NAME_SEQ(n) == Some(s);
    assert n in names;
    assert s in NamesBySeq(names);
  }

  /** In particular after the log has been cut. */
  lemma {:induction false} CutLogRefused(ctx: Context, local: seq<string>, objects: map<string, string>, k: nat,
                                         anchor: Value, now: string, pushes: string -> bool, names: seq<string>)
    requires Honest(local, objects) && Complete(local, objects) && k < |local| && Lists(names, objects)
    ensures LogTimed(local[..k])
    ensures AfterNotarize(local[..k], objects, anchor, now, pushes) == (local[..k], objects, RemoteAhead)
    ensures RemoteVerdict(ctx, k, names, objects) != Healthy
  {
    HonestTimed(local);
    assert |local| in ListedSeqs(objects);
    RemoteAheadRefused(ctx, local[..k], objects, |local|, anchor, now, pushes, names);
  }
}
