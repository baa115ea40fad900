/** Names of notary objects character by character, and each verdict of verify with its exact condition. */
module NotaryVerdicts {
  import opened Text
  import opened Json
  import opened Registry
  import opened Signatures
  import opened Anchor
  import opened Notary
  import opened NotaryProofs
  import opened NotaryHealth

  // ---------- Names ----------

  /** The text without its colons. */
  function NoColons(s: string): string {
    if s == [] then [] else if s[0] == ':' then NoColons(s[1..]) else [s[0]] + NoColons(s[1..])
  }

  lemma {:induction false} ReplaceIsNoColons(s: string)
    ensures Replace(s, ":", "") == NoColons(s)
  {
    if s != [] {
      ReplaceIsNoColons(s[1..]);
      assert s[..1] == [s[0]];
      assert (s[..1] == ":") == (s[0] == ':');
    }
  }

  /** `find` begins at position i. */
  predicate OccursAt(s: string, find: string, i: nat) {
    i + |find| <= |s| && s[i..i + |find|] == find
  }

  lemma {:induction false} ReplaceStep(s: string, find: string, put: string)
    requires find != [] && s != [] && !OccursAt(s, find, 0)
    ensures Replace(s, find, put) == [s[0]] + Replace(s[1..], find, put)
  {
    if |s| >= |find| {
      assert s[..|find|] == s[0..0 + |find|];
    } else {
      assert s == [s[0]] + s[1..];
    }
  }

  lemma {:induction false} OccursLater(s: string, find: string, i: nat)
    requires s != []
    ensures OccursAt(s[1..], find, i) <==> OccursAt(s, find, i + 1)
  {
    if i + 1 + |find| <= |s| {
      assert s[1..][i..i + |find|] == s[i + 1..i + 1 + |find|];
    }
  }

  /** str.replace, from the left: the first occurrence is exchanged, and then those after it. */
  lemma {:induction false} ReplacesFirst(before: string, find: string, put: string, after: string)
    requires find != [] && forall i | 0 <= i < |before| :: !OccursAt(before + find + after, find, i)
    ensures Replace(before + find + after, find, put) == before + put + Replace(after, find, put)
    decreases |before|
  {
    var s := before + find + after;
    if before == [] {
      assert s == find + after && s[..|find|] == find && s[|find|..] == after;
    } else {
      var rest := before[1..];
      assert s[1..] == rest + find + after;
      forall i | 0 <= i < |rest| ensures !OccursAt(rest + find + after, find, i) {
        OccursLater(s, find, i);
      }
      ReplaceStep(s, find, put);
      ReplacesFirst(rest, find, put, after);
      assert before == [before[0]] + rest;
    }
  }

  /** A name: the seq in at least six digits, a dash, the time without its colons, and the ending. */
  lemma {:induction false} NameIs(seqNo: nat, time: string)
    ensures
      var pad := Zeros(6 - |Decimal(seqNo)|) + Decimal(seqNo);
      ObjectName(seqNo, time) == pad + "-" + NoColons(time) + ".line"
  {
    StampDropsColons(time);
    ReplaceIsNoColons(time);
  }

  /** What the pattern takes: six digits, a dash, at least one character of a stamp, and the ending. */
  lemma {:induction false} PatternExactly(name: string, n: nat)
    ensures NAME_SEQ(name) == Some(n) <==>
      exists pad: string, stamp: string ::
        && name == pad + "-" + stamp + ".line" && |pad| == 6 && AllDigits(pad) && DecimalValue(pad) == n
        && stamp != [] && forall c | c in stamp :: IsDigit(c) || c in "T:.+Z-"
  {
    assert NAME_SEQ(name) == ReadName(name);
    if ReadName(name) == Some(n) {
      var pad, stamp := name[..6], name[7..|name| - 5];
      assert name == pad + "-" + stamp + ".line";
      forall c | c in stamp ensures IsDigit(c) || c in "T:.+Z-" {
        var i :| 0 <= i < |stamp| && stamp[i] == c;
        assert IsStampChar(stamp[i]);
        StampChars(c);
      }
    }
    if pad: string, stamp: string :|
        && name == pad + "-" + stamp + ".line" && |pad| == 6 && AllDigits(pad) && DecimalValue(pad) == n
        && stamp != [] && forall c | c in stamp :: IsDigit(c) || c in "T:.+Z-" {
      NameParts(pad, stamp);
      forall i | 0 <= i < |stamp| ensures IsStampChar(stamp[i]) {
        assert stamp[i] in stamp;
        StampChars(stamp[i]);
      }
      assert name[..6] == pad && name[7..|name| - 5] == stamp;
    }
  }

  lemma {:induction false} StampChars(c: char)
    ensures IsStampChar(c) <==> IsDigit(c) || c in "T:.+Z-"
  {
    var s := "T:.+Z-";
    assert s[0] == 'T' && s[1] == ':' && s[2] == '.' && s[3] == '+' && s[4] == 'Z' && s[5] == '-';
  }

  // ---------- Entries ----------

  /** The text under a key, empty if there is none. */
  function TextOr(f: seq<Field>, key: string): string {
    match Lookup(f, key)
    case Some(Str(s)) => s
    case _ => ""
  }

  /** An entry whose "anchor" is a dict with a snapshot is read as that anchor, a missing signature or key as no bytes, and
      fails only on hexadecimal that does not read. */
  lemma {:induction false} EntryReads(fields: seq<Field>, f: seq<Field>, snapshot: Value)
    requires Lookup(fields, "anchor") == Some(Obj(f)) && Lookup(f, "snapshot") == Some(snapshot)
    ensures
      var sig, key := FromHex(TextOr(f, "signature")), FromHex(TextOr(f, "public_key"));
      DecodeEntry(Obj(fields)) ==
        if sig.None? || key.None? then Undecodable
        else Decoded(NotaryEntry(Some(AnchorRecord(snapshot, SIGNATURES.read(sig.value), key.value,
            match Lookup(f, "key_algorithm") case Some(Str(algorithm)) => Some(algorithm) case _ => None))))
  {
    HexOr(f, "signature");
    HexOr(f, "public_key");
  }

  lemma {:induction false} HexOr(f: seq<Field>, key: string)
    ensures HexAt(f, key) == FromHex(TextOr(f, key))
  {
  }

  /** Any other object is an entry without an anchor, and anything else is no entry. */
  lemma {:induction false} OtherEntries(v: Value)
    requires v.Obj? ==>
      match Lookup(v.fields, "anchor") case Some(Obj(f)) => Lookup(f, "snapshot") == None case _ => true
    ensures DecodeEntry(v) == if v.Obj? then Decoded(NotaryEntry(None)) else Undecodable
  {
  }

  // ---------- What notarize sends ----------

  /** The object of entry s: the entry as parsed, written again. */
  predicate Sent(local: seq<string>, s: nat, name: string, text: string)
    requires LogTimed(local)
  {
    && 1 <= s <= |local| && name == ObjectName(s, TimeOf(local[s - 1]))
    && text == SIGNED_TEXT(ParseLine(local[s - 1]).value) + "\n"
  }

  lemma {:induction false} BackfilledFrom(objects: map<string, string>, local: seq<string>, had: set<nat>, s: nat,
                                          pushes: string -> bool, n: string)
    requires LogTimed(local) && s <= |local| && n in Backfilled(objects, local, had, s, pushes)
    ensures
      var text := Backfilled(objects, local, had, s, pushes)[n];
      (n in objects && objects[n] == text) || (pushes(n) && exists k | 1 <= k <= s && k !in had :: Sent(local, k, n, text))
  {
    if s > 0 {
      var text := Backfilled(objects, local, had, s, pushes)[n];
      BackfillStep(objects, local, had, s, pushes);
      if s !in had && n == ObjectName(s, TimeOf(local[s - 1])) && pushes(n) {
        assert Sent(local, s, n, text);
      } else {
        BackfilledFrom(objects, local, had, s - 1, pushes, n);
      }
    }
  }

  lemma {:induction false} BackfilledGrows(objects: map<string, string>, local: seq<string>, had: set<nat>, s: nat,
                                           pushes: string -> bool)
    requires LogTimed(local) && s <= |local|
    ensures objects.Keys <= Backfilled(objects, local, had, s, pushes).Keys
  {
    if s > 0 {
      BackfilledGrows(objects, local, had, s - 1, pushes);
    }
  }

  lemma {:induction false} StepHas(objects: map<string, string>, local: seq<string>, had: set<nat>, s: nat,
                                   pushes: string -> bool, n: string)
    requires LogTimed(local) && 1 <= s <= |local|
    ensures n in Backfilled(objects, local, had, s - 1, pushes) ==> n in Backfilled(objects, local, had, s, pushes)
    ensures s !in had && n == ObjectName(s, TimeOf(local[s - 1])) && pushes(n) ==> n in Backfilled(objects, local, had, s, pushes)
  {
    BackfillStep(objects, local, had, s, pushes);
  }

  lemma {:induction false} BackfilledHas(objects: map<string, string>, local: seq<string>, had: set<nat>, s: nat,
                                         pushes: string -> bool, k: nat, n: string)
    requires LogTimed(local) && 1 <= k <= s <= |local| && k !in had && n == ObjectName(k, TimeOf(local[k - 1])) && pushes(n)
    ensures n in Backfilled(objects, local, had, s, pushes)
  {
    if k < s {
      BackfilledHas(objects, local, had, s - 1, pushes, k, n);
    }
    StepHas(objects, local, had, s, pushes, n);
  }

  /** What a call on any log with times and any remote that is not ahead adds to the log, and when it reports success: when
      the new object and that of every entry whose seq was not listed get through. */
  lemma {:induction false} NotarizeReports(local: seq<string>, objects: map<string, string>, anchor: Value, now: string,
                                           pushes: string -> bool)
    requires LogTimed(local) && forall s | s in ListedSeqs(objects) :: s <= |local|
    ensures
      var (all, after, r) := AfterNotarize(local, objects, anchor, now, pushes);
      && all == local + [SIGNED_TEXT(Entry(anchor, now))] && r.Notarized? && r.seqNo == |local| + 1
      && (r.ok <==>
            && pushes(ObjectName(|local| + 1, now))
            && forall k | 1 <= k <= |local| && k !in ListedSeqs(objects) :: pushes(ObjectName(k, TimeOf(local[k - 1]))))
  {
  }

  /** What gets through is there afterwards, and so is what was there: the new object, and that of entry k if its seq was
      not listed. */
  lemma {:induction false} NotarizeSends(local: seq<string>, objects: map<string, string>, anchor: Value, now: string,
                                         pushes: string -> bool, k: nat, n: string)
    requires LogTimed(local) && forall s | s in ListedSeqs(objects) :: s <= |local|
    ensures
      var after := AfterNotarize(local, objects, anchor, now, pushes).1;
      && (n in objects ==> n in after)
      && (n == ObjectName(|local| + 1, now) && pushes(n) ==> n in after)
      && (1 <= k <= |local| && k !in ListedSeqs(objects) && n == ObjectName(k, TimeOf(local[k - 1])) && pushes(n) ==> n in after)
  {
    var had, line, name := ListedSeqs(objects), SIGNED_TEXT(Entry(anchor, now)), ObjectName(|local| + 1, now);
    BackfilledGrows(Push(objects, name, line, pushes), local, had, |local|, pushes);
    if 1 <= k <= |local| && k !in had && n == ObjectName(k, TimeOf(local[k - 1])) && pushes(n) {
      BackfilledHas(Push(objects, name, line, pushes), local, had, |local|, pushes, k, n);
    }
  }

  /** And nothing else: each object was there before, or is the new line, or an entry that was missing. */
  lemma {:induction false} NotarizeStores(local: seq<string>, objects: map<string, string>, anchor: Value, now: string,
                                          pushes: string -> bool, n: string)
    requires LogTimed(local) && forall s | s in ListedSeqs(objects) :: s <= |local|
    requires n in AfterNotarize(local, objects, anchor, now, pushes).1
    ensures
      var text := AfterNotarize(local, objects, anchor, now, pushes).1[n];
      || (n in objects && text == objects[n])
      || (n == ObjectName(|local| + 1, now) && text == SIGNED_TEXT(Entry(anchor, now)) + "\n")
      || exists k | 1 <= k <= |local| && k !in ListedSeqs(objects) :: Sent(local, k, n, text)
  {
    var line, name := SIGNED_TEXT(Entry(anchor, now)), ObjectName(|local| + 1, now);
    BackfilledFrom(Push(objects, name, line, pushes), local, ListedSeqs(objects), |local|, pushes, n);
  }

  // ---------- Verdicts ----------

  /** What the object of a seq turns out to be. */
  predicate Raises(ctx: Context, objects: map<string, string>, n: string) {
    n in objects && ParseLine(objects[n]).Some? && CHECK_ENTRY(ctx, ParseLine(objects[n]).value) == EntryRaised
  }

  lemma {:induction false} ObjectIs(ctx: Context, objects: map<string, string>, n: string)
    ensures ObjectOk(ctx, objects, n) == None <==> Raises(ctx, objects, n)
    ensures ObjectOk(ctx, objects, n) == Some(true) <==> ObjectAccepted(ctx, objects, n)
  {
  }

  predicate SomeRaise(ctx: Context, m: map<nat, string>, objects: map<string, string>) {
    exists s | s in m :: Raises(ctx, objects, m[s])
  }

  lemma {:induction false} RaisesSomewhere(ctx: Context, m: map<nat, string>, objects: map<string, string>)
    ensures SomeRaises(ctx, m, objects) <==> SomeRaise(ctx, m, objects)
    ensures !SomeRaises(ctx, m, objects) ==> (SomeInvalid(ctx, m, objects) <==> !ObjectsAccepted(ctx, m, objects))
  {
    forall s | s in m
      ensures ObjectOk(ctx, objects, m[s]) == None <==> Raises(ctx, objects, m[s])
      ensures ObjectOk(ctx, objects, m[s]) == Some(true) <==> ObjectAccepted(ctx, objects, m[s])
    {
      ObjectIs(ctx, objects, m[s]);
    }
  }

  predicate Within(m: map<nat, string>, count: nat) {
    forall s | s in m :: 1 <= s <= count
  }

  /** The remote part of verify: unreachable without an entry, raised by an object that raises, invalid with one that is
      not accepted, diverged with a seq that the log lacks, behind without one that it has, and healthy otherwise. */
  lemma {:induction false} RemoteExactly(ctx: Context, count: nat, names: seq<string>, objects: map<string, string>)
    ensures
      var m, v := NamesBySeq(names), RemoteVerdict(ctx, count, names, objects);
      var listed, raises := m != map[], SomeRaise(ctx, m, objects);
      var accepted := listed && !raises && ObjectsAccepted(ctx, m, objects);
      && (v == RemoteUnreachable <==> !listed)
      && (v == VerifyRaised <==> listed && raises)
      && (v == RemoteInvalid <==> listed && !raises && !ObjectsAccepted(ctx, m, objects))
      && (v == Diverged <==> accepted && !Within(m, count))
      && (v == RemoteBehind <==> accepted && Within(m, count) && !ListsExactly(m, count))
      && (v == Healthy <==> accepted && ListsExactly(m, count))
  {
    var m := NamesBySeq(names);
    RaisesSomewhere(ctx, m, objects);
    ExactlyListed(m, count);
    assert m.Keys == {} <==> m == map[];
  }

  /** The local part: the remote decides exactly when every line parses and the last one is accepted. */
  lemma {:induction false} LocalExactly(ctx: Context, local: seq<string>)
    ensures
      var v := LocalVerdict(ctx, local);
      && (v == None <==> local != [] && LogParses(local) && EntryAccepted(ctx, local, |local| - 1))
      && (v == Some(VerifyRaised) <==>
            local != [] && LogParses(local) && CHECK_ENTRY(ctx, ParseLine(local[|local| - 1]).value) == EntryRaised)
      && (v == Some(LocalInvalid) <==> v != None && v != Some(VerifyRaised))
  {
  }

  /** Of several objects with one seq the one listed last is taken. */
  lemma {:induction false} LastListed(names: seq<string>, i: nat)
    requires i < |names| && NAME_SEQ(names[i]).Some?
    requires forall j | i < j < |names| :: NAME_SEQ(names[j]) != NAME_SEQ(names[i])
    ensures var s := NAME_SEQ(names[i]).value; s in NamesBySeq(names) && NamesBySeq(names)[s] == names[i]
  {
    var front := names[..|names| - 1];
    if i < |names| - 1 {
      LastListed(front, i);
      assert NAME_SEQ(names[|names| - 1]) != NAME_SEQ(names[i]);
    }
  }

  /** An honest remote that lacks an entry is behind, whatever else: unless it lists nothing, or an entry is not accepted. */
  lemma {:induction false} MissingIsBehind(ctx: Context, local: seq<string>, objects: map<string, string>, names: seq<string>)
    requires Honest(local, objects) && Lists(names, objects) && !Complete(local, objects) && AllAccepted(ctx, local)
    ensures RemoteVerdict(ctx, |local|, names, objects) == if ListedSeqs(objects) == {} then RemoteUnreachable else RemoteBehind
  {
    var m := NamesBySeq(names);
    RemoteExactly(ctx, |local|, names, objects);
    ListedAre(names, objects);
    ListedWithinLog(local, objects);
    forall s | s in m ensures ObjectAccepted(ctx, objects, m[s]) {
      NamesAgree(ctx, local, objects, names, s);
      assert Fares(ctx, local, objects, m[s], s) && EntryAccepted(ctx, local, s - 1);
      ObjectIs(ctx, objects, m[s]);
    }
    assert m == map[] <==> ListedSeqs(objects) == {} by {
      if m != map[] {
        var s :| s in m;
        assert s in ListedSeqs(objects);
      }
      if s :| s in ListedSeqs(objects) {
        assert s in m;
      }
    }
  }
}
