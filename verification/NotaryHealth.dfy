/** When the notary's verify is healthy, between whatever log and remote, and what that says about the live chain. */
module NotaryHealth {
  import opened Text
  import opened Sha
  import opened Json
  import JsonProofs
  import opened Chain
  import opened Store
  import opened Registry
  import opened Signatures
  import opened Anchor
  import opened AnchorProofs
  import opened Notary
  import opened NotaryProofs

  // ---------- Healthy ----------

  lemma {:induction false} ListedAre(names: seq<string>, objects: map<string, string>)
    requires Lists(names, objects)
    ensures forall s :: s in NamesBySeq(names) <==> s in ListedSeqs(objects)
    ensures forall s | s in NamesBySeq(names) :: NamesBySeq(names)[s] in objects
  {
    var m := NamesBySeq(names);
    forall s ensures s in m <==> s in ListedSeqs(objects) {
      if s in m {
        assert m[s] in objects;
      }
      if s in ListedSeqs(objects) {
        var n :| n in objects && NAME_SEQ(n) == Some(s);
        assert n in names;
      }
    }
  }

  predicate EntryAccepted(ctx: Context, local: seq<string>, i: nat)
    requires i < |local|
  {
    ParseLine(local[i]).Some? && CHECK_ENTRY(ctx, ParseLine(local[i]).value) == EntryValid
  }

  /** Object n fares as line s does. */
  predicate Fares(ctx: Context, local: seq<string>, objects: map<string, string>, n: string, s: nat) {
    1 <= s <= |local| && (ObjectOk(ctx, objects, n) == Some(true) <==> EntryAccepted(ctx, local, s - 1))
  }

  lemma {:induction false} ObjectFaresAsLine(ctx: Context, local: seq<string>, objects: map<string, string>, n: string, s: nat)
    requires Honest(local, objects) && n in objects && NAME_SEQ(n) == Some(s)
    ensures Fares(ctx, local, objects, n, s)
  {
    assert OwnObject(local, objects, n);
    assert HonestLine(local[s - 1]);
  }

  predicate AllAccepted(ctx: Context, local: seq<string>) {
    forall i | 0 <= i < |local| :: EntryAccepted(ctx, local, i)
  }

  predicate ObjectsGood(ctx: Context, m: map<nat, string>, objects: map<string, string>) {
    forall s | s in m :: ObjectOk(ctx, objects, m[s]) == Some(true)
  }

  lemma {:induction false} GoodWhen(ctx: Context, m: map<nat, string>, objects: map<string, string>)
    ensures ObjectsGood(ctx, m, objects) <==> !SomeRaises(ctx, m, objects) && !SomeInvalid(ctx, m, objects)
  {
  }

  predicate Agrees(ctx: Context, local: seq<string>, objects: map<string, string>, m: map<nat, string>, s: nat)
    requires s in m
  {
    Fares(ctx, local, objects, m[s], s)
  }

  lemma {:induction false} GoodIffAccepted(ctx: Context, local: seq<string>, objects: map<string, string>, m: map<nat, string>)
    requires forall s | s in m :: Agrees(ctx, local, objects, m, s)
    requires forall s: nat | 1 <= s <= |local| :: s in m
    ensures ObjectsGood(ctx, m, objects) <==> AllAccepted(ctx, local)
  {
    if ObjectsGood(ctx, m, objects) {
      forall i | 0 <= i < |local| ensures EntryAccepted(ctx, local, i) {
        assert Agrees(ctx, local, objects, m, i + 1);
      }
    }
    if AllAccepted(ctx, local) {
      forall s | s in m ensures ObjectOk(ctx, objects, m[s]) == Some(true) {
        assert Agrees(ctx, local, objects, m, s) && EntryAccepted(ctx, local, s - 1);
      }
    }
  }

  lemma {:induction false} NamesAgree(ctx: Context, local: seq<string>, objects: map<string, string>, names: seq<string>, s: nat)
    requires Honest(local, objects) && Lists(names, objects) && s in NamesBySeq(names)
    ensures Agrees(ctx, local, objects, NamesBySeq(names), s)
  {
    var n := NamesBySeq(names)[s];
    assert n in names && n in objects && NAME_SEQ(n) == Some(s);
    ObjectFaresAsLine(ctx, local, objects, n, s);
  }

  lemma {:induction false} CompleteGood(ctx: Context, local: seq<string>, objects: map<string, string>, names: seq<string>)
    requires Honest(local, objects) && Lists(names, objects) && Complete(local, objects)
    ensures ObjectsGood(ctx, NamesBySeq(names), objects) <==> AllAccepted(ctx, local)
  {
    ListedAre(names, objects);
    forall s | s in NamesBySeq(names) ensures Agrees(ctx, local, objects, NamesBySeq(names), s) {
      NamesAgree(ctx, local, objects, names, s);
    }
    GoodIffAccepted(ctx, local, objects, NamesBySeq(names));
  }

  lemma {:induction false} Coverage(m: map<nat, string>, listed: set<nat>, count: nat)
    requires (forall s :: s in m <==> s in listed) && forall s | s in listed :: 1 <= s <= count
    ensures !Extra(m, count)
    ensures Missing(m, count) <==> !forall s: nat | 1 <= s <= count :: s in listed
  {
  }

  lemma {:induction false} HonestCoverage(local: seq<string>, objects: map<string, string>, names: seq<string>)
    requires Honest(local, objects) && Lists(names, objects)
    ensures !Extra(NamesBySeq(names), |local|)
    ensures Missing(NamesBySeq(names), |local|) <==> !Complete(local, objects)
    ensures Complete(local, objects) && local != [] ==> NamesBySeq(names).Keys != {}
  {
    ListedAre(names, objects);
    ListedWithinLog(local, objects);
    Coverage(NamesBySeq(names), ListedSeqs(objects), |local|);
    if Complete(local, objects) && local != [] {
      assert 1 in NamesBySeq(names);
    }
  }

  /** Between an honest log and remote, healthy means exactly: the remote is complete and every entry of the log
      verifies against the live chain. */
  lemma {:induction false} HealthyExactly(ctx: Context, local: seq<string>, objects: map<string, string>, names: seq<string>)
    requires Honest(local, objects) && Lists(names, objects) && local != []
    ensures RemoteVerdict(ctx, |local|, names, objects) == Healthy <==>
      Complete(local, objects) && AllAccepted(ctx, local)
  {
    HonestCoverage(local, objects, names);
    GoodWhen(ctx, NamesBySeq(names), objects);
    if Complete(local, objects) {
      CompleteGood(ctx, local, objects, names);
    }
  }

  // ---------- What a healthy notary says about history ----------

  /** The chain an entry was made over. */
  datatype Origin = Origin(dbPath: string, signed: seq<Row>, now: string)

  /** The line holds a signed entry over the snapshot of a valid chain. */
  ghost predicate LineOver(known: iset<Bytes>, ctx: Context, line: string, o: Origin) {
    && RowsKnown(known, o.signed) && ChainOk(o.signed) && ParseLine(line).Some?
    && var d := DecodeEntry(ParseLine(line).value);
       d.Decoded? && d.entry.anchor.Some? && EntryOver(ctx.who, ctx.reg, d.entry.anchor.value, o.dbPath, o.signed, o.now)
  }

  lemma {:induction false} FieldWellFormed(fields: seq<Field>, key: string)
    requires WellFormed(Obj(fields)) && Lookup(fields, key).Some?
    ensures WellFormed(Lookup(fields, key).value)
  {
    var i :| 0 <= i < |fields| && fields[i] == Field(key, Lookup(fields, key).value);
    assert WellFormed(fields[i].value);
  }

  lemma {:induction false} DecodedWellFormed(v: Value)
    requires WellFormed(v) && DecodeEntry(v).Decoded? && DecodeEntry(v).entry.anchor.Some?
    ensures WellFormed(DecodeEntry(v).entry.anchor.value.snapshot)
  {
    FieldWellFormed(v.fields, "anchor");
    FieldWellFormed(Lookup(v.fields, "anchor").value.fields, "snapshot");
  }

  lemma {:induction false} LineExactly(known: iset<Bytes>, ctx: Context, line: string, o: Origin)
    requires Ideal(known) && RowsKnown(known, ctx.rows) && ChainOk(ctx.rows) && LineOver(known, ctx, line, o)
    ensures CHECK_ENTRY(ctx, ParseLine(line).value) == EntryValid <==> o.signed != [] && PrefixHistory(o.signed, ctx.rows)
  {
    var v := ParseLine(line).value;
    assert ParseLine(line) == Loads(false, line);
    JsonProofs.LoadsWellFormed(false, line);
    DecodedWellFormed(v);
    assert CHECK_ENTRY(ctx, v) == EntryOutcome(ctx, v);
    EntryExactly(known, ctx.who, ctx.reg, DecodeEntry(v).entry.anchor.value, o.dbPath, o.signed, o.now, ctx.rows);
  }

  predicate AllBegin(origins: seq<Origin>, live: seq<Row>) {
    forall i | 0 <= i < |origins| :: origins[i].signed != [] && PrefixHistory(origins[i].signed, live)
  }

  /** The notary's claim: when its entries were made over valid chains, it is healthy on a valid live chain exactly
      when the remote is complete and every notarized history is the beginning of the live one. */
  lemma {:induction false} HealthyHistories(known: iset<Bytes>, ctx: Context, local: seq<string>, objects: map<string, string>,
                                            names: seq<string>, origins: seq<Origin>)
    requires Ideal(known) && RowsKnown(known, ctx.rows) && ChainOk(ctx.rows)
    requires Honest(local, objects) && Lists(names, objects) && local != []
    requires |origins| == |local| && forall i | 0 <= i < |local| :: LineOver(known, ctx, local[i], origins[i])
    ensures RemoteVerdict(ctx, |local|, names, objects) == Healthy
       <==> Complete(local, objects) && AllBegin(origins, ctx.rows)
  {
    HealthyExactly(ctx, local, objects, names);
    AcceptedBegin(known, ctx, local, origins);
  }

  lemma {:induction false} AcceptedBegin(known: iset<Bytes>, ctx: Context, local: seq<string>, origins: seq<Origin>)
    requires Ideal(known) && RowsKnown(known, ctx.rows) && ChainOk(ctx.rows)
    requires |origins| == |local| && forall i | 0 <= i < |local| :: LineOver(known, ctx, local[i], origins[i])
    ensures AllAccepted(ctx, local) <==> AllBegin(origins, ctx.rows)
  {
    forall i | 0 <= i < |local|
      ensures EntryAccepted(ctx, local, i) <==> origins[i].signed != [] && PrefixHistory(origins[i].signed, ctx.rows)
    {
      assert LineOver(known, ctx, local[i], origins[i]);
      LineExactly(known, ctx, local[i], origins[i]);
    }
  }

  // ---------- Any log, any remote ----------

  /** Object n is there and holds an accepted entry. */
  predicate ObjectAccepted(ctx: Context, objects: map<string, string>, n: string) {
    n in objects && ParseLine(objects[n]).Some? && CHECK_ENTRY(ctx, ParseLine(objects[n]).value) == EntryValid
  }

  predicate ListsExactly(m: map<nat, string>, count: nat) {
    (forall s | s in m :: 1 <= s <= count) && forall s: nat | 1 <= s <= count :: s in m
  }

  predicate ObjectsAccepted(ctx: Context, m: map<nat, string>, objects: map<string, string>) {
    forall s | s in m :: ObjectAccepted(ctx, objects, m[s])
  }

  lemma {:induction false} AcceptedAreGood(ctx: Context, m: map<nat, string>, objects: map<string, string>)
    ensures ObjectsGood(ctx, m, objects) <==> ObjectsAccepted(ctx, m, objects)
  {
    forall s | s in m ensures ObjectOk(ctx, objects, m[s]) == Some(true) <==> ObjectAccepted(ctx, objects, m[s]) {
    }
  }

  lemma {:induction false} ExactlyListed(m: map<nat, string>, count: nat)
    ensures ListsExactly(m, count) <==> !Extra(m, count) && !Missing(m, count)
  {
  }

  /** Between any log and any remote, healthy says exactly this: the log parses, its last entry is accepted, the seqs
      listed are 1..n, and the one object taken for each seq holds an accepted entry, which need not be that seq's. */
  lemma {:induction false} VerifyExactly(ctx: Context, local: seq<string>, names: seq<string>, objects: map<string, string>)
    ensures VerifyVerdict(ctx, local, names, objects) == Healthy <==>
      && LogParses(local) && local != [] && EntryAccepted(ctx, local, |local| - 1)
      && ListsExactly(NamesBySeq(names), |local|) && ObjectsAccepted(ctx, NamesBySeq(names), objects)
  {
    var m := NamesBySeq(names);
    AcceptedAreGood(ctx, m, objects);
    GoodWhen(ctx, m, objects);
    ExactlyListed(m, |local|);
    if ListsExactly(m, |local|) && local != [] {
      assert 1 in m;
    }
  }

  /** So verify reads of the log only its length and its last line, beyond that all of it parses. */
  lemma {:induction false} VerifyIgnoresHistory(ctx: Context, local: seq<string>, other: seq<string>, names: seq<string>,
                                                objects: map<string, string>)
    requires LogParses(local) && LogParses(other) && |other| == |local| > 0 && other[|other| - 1] == local[|local| - 1]
    ensures VerifyVerdict(ctx, other, names, objects) == VerifyVerdict(ctx, local, names, objects)
  {
  }

  /** A remote that holds one line n times. */
  function Copies(line: string, time: string, n: nat): map<string, string> {
    map s | 1 <= s <= n :: ObjectName(s, time) := line
  }

  lemma {:induction false} CopiesListed(line: string, time: string, n: nat, names: seq<string>)
    requires StampOk(Stamp(time)) && n <= 999999 && Lists(names, Copies(line, time, n))
    ensures ListsExactly(NamesBySeq(names), n)
  {
    var objects, m := Copies(line, time, n), NamesBySeq(names);
    forall s: nat ensures s in m <==> 1 <= s <= n {
      if 1 <= s <= n {
        NameRoundTrip(s, time);
        assert ObjectName(s, time) in objects;
      }
      if s in m {
        var k :| 1 <= k <= n && m[s] == ObjectName(k, time);
        NameRoundTrip(k, time);
      }
    }
  }

  /** "local and remote notary histories agree" need not be so: once the last entry of a log is accepted, a remote that
      holds this one entry n times is healthy, though it is no copy of the log as soon as its first line is another. */
  lemma {:induction false} CopiesHealthy(ctx: Context, local: seq<string>, names: seq<string>)
    requires LocalVerdict(ctx, local) == None && |local| <= 999999 && HonestLine(local[|local| - 1])
    ensures
      var last := local[|local| - 1];
      var objects := Copies(last + "\n", TimeOf(last), |local|);
      Lists(names, objects) ==>
        && VerifyVerdict(ctx, local, names, objects) == Healthy
        && (local[0] != last ==> !Honest(local, objects))
  {
    var last := local[|local| - 1];
    var objects := Copies(last + "\n", TimeOf(last), |local|);
    if Lists(names, objects) {
      CopiesListed(last + "\n", TimeOf(last), |local|, names);
      VerifyExactly(ctx, local, names, objects);
      var n := ObjectName(1, TimeOf(last));
      NameRoundTrip(1, TimeOf(last));
      assert n in objects && objects[n] == last + "\n";
      if Honest(local, objects) {
        assert OwnObject(local, objects, n);
        assert objects[n][..|last|] == last && (local[0] + "\n")[..|local[0]|] == local[0];
      }
    }
  }

  // ---------- What it says about histories, whatever the log and the remote ----------

  /** What is signed under a registered key in this line, if anything, was signed over the snapshot of a valid chain. */
  ghost predicate HonestlySigned(known: iset<Bytes>, ctx: Context, line: string) {
    ParseLine(line).Some? && EntrySigned(ctx, DecodeEntry(ParseLine(line).value)) ==>
      exists o :: LineOver(known, ctx, line, o)
  }

  predicate EntrySigned(ctx: Context, d: Decoded) {
    && d.Decoded? && d.entry.anchor.Some?
    && var record := d.entry.anchor.value;
       && IsRegistered(Bootstrapped(ctx.reg, ctx.who), record.publicKey)
       && VerifySignature(SIGNED_TEXT(record.snapshot), record.signature, record.publicKey, RecordedAlgorithm(record))
  }

  /** The line holds a signed history, which the live chain begins with. */
  ghost predicate HoldsBeginning(known: iset<Bytes>, ctx: Context, line: string) {
    exists o :: LineOver(known, ctx, line, o) && o.signed != [] && PrefixHistory(o.signed, ctx.rows)
  }

  lemma {:induction false} AcceptedHoldsBeginning(known: iset<Bytes>, ctx: Context, line: string)
    requires Ideal(known) && RowsKnown(known, ctx.rows) && ChainOk(ctx.rows) && HonestlySigned(known, ctx, line)
    ensures ParseLine(line).Some? && CHECK_ENTRY(ctx, ParseLine(line).value) == EntryValid
       <==> HoldsBeginning(known, ctx, line)
  {
    if ParseLine(line).Some? && CHECK_ENTRY(ctx, ParseLine(line).value) == EntryValid {
      assert CHECK_ENTRY(ctx, ParseLine(line).value) == EntryOutcome(ctx, ParseLine(line).value);
      var o :| LineOver(known, ctx, line, o);
      LineExactly(known, ctx, line, o);
    }
    if o :| LineOver(known, ctx, line, o) && o.signed != [] && PrefixHistory(o.signed, ctx.rows) {
      LineExactly(known, ctx, line, o);
    }
  }

  /** Whoever wrote the log and the remote: if no registered key ever signed anything but snapshots of valid chains,
      verify is healthy on a valid live chain exactly when the log parses and ends in a signed beginning of the live
      chain, the seqs listed are 1..n, and each object taken holds such a beginning. */
  lemma {:induction false} VerifyHistories(known: iset<Bytes>, ctx: Context, local: seq<string>, names: seq<string>,
                                           objects: map<string, string>)
    requires Ideal(known) && RowsKnown(known, ctx.rows) && ChainOk(ctx.rows)
    requires local != [] ==> HonestlySigned(known, ctx, local[|local| - 1])
    requires forall n | n in objects :: HonestlySigned(known, ctx, objects[n])
    ensures
      var m := NamesBySeq(names);
      VerifyVerdict(ctx, local, names, objects) == Healthy <==>
        && LogParses(local) && local != [] && HoldsBeginning(known, ctx, local[|local| - 1])
        && ListsExactly(m, |local|)
        && forall s | s in m :: m[s] in objects && HoldsBeginning(known, ctx, objects[m[s]])
  {
    var m := NamesBySeq(names);
    VerifyExactly(ctx, local, names, objects);
    if local != [] {
      AcceptedHoldsBeginning(known, ctx, local[|local| - 1]);
    }
    forall s | s in m && m[s] in objects
      ensures ObjectAccepted(ctx, objects, m[s]) <==> HoldsBeginning(known, ctx, objects[m[s]])
    {
      AcceptedHoldsBeginning(known, ctx, objects[m[s]]);
    }
  }

  // ---------- Honest runs end healthy ----------

  lemma {:induction false} WrittenKeys(record: AnchorRecord, now: string)
    requires WellFormed(record.snapshot)
    ensures WellFormed(WrittenAnchor(record)) && WellFormed(AnchorValue(record)) && WellFormed(Entry(AnchorValue(record), now))
    ensures Norm(AnchorValue(record)) == AnchorValue(record)
  {
    assert |"snapshot"| == 8 && |"signature"| == 9 && |"public_key"| == 10 && |"key_algorithm"| == 13;
    JsonProofs.NormWellFormed(WrittenAnchor(record));
    EntryWellFormed(AnchorValue(record), now);
  }

  lemma {:induction false} WrittenField(record: AnchorRecord, i: nat)
    requires WellFormed(record.snapshot) && i < 4
    ensures var f := WrittenAnchor(record).fields[i]; Lookup(AnchorValue(record).fields, f.key) == Some(Norm(f.value))
  {
    WrittenKeys(record, "");
    JsonProofs.LookupDistinct(WrittenAnchor(record).fields, i);
    JsonProofs.LookupSortedNorm(WrittenAnchor(record).fields, WrittenAnchor(record).fields[i].key);
  }

  lemma {:induction false} WrittenLookups(record: AnchorRecord)
    requires WellFormed(record.snapshot)
    ensures
      var f := AnchorValue(record).fields;
      && Lookup(f, "snapshot") == Some(Norm(record.snapshot))
      && HexAt(f, "signature") == Some(SIGNATURES.write(record.signature)) && HexAt(f, "public_key") == Some(record.publicKey)
      && TextAt(f, "key_algorithm") == Some(RecordedAlgorithm(record))
  {
    WrittenField(record, 0);
    WrittenField(record, 1);
    WrittenField(record, 2);
    WrittenField(record, 3);
    FromHexHex(SIGNATURES.write(record.signature));
    FromHexHex(record.publicKey);
  }

  /** The entry of an anchor that was written, in a line that was written, is read back as that anchor. */
  lemma {:induction false} WrittenEntryDecodes(record: AnchorRecord, now: string)
    requires WellFormed(record.snapshot) && record.algorithm.Some?
    ensures var line := SIGNED_TEXT(Entry(AnchorValue(record), now));
      && ParseLine(line).Some?
      && DecodeEntry(ParseLine(line).value) == Decoded(NotaryEntry(Some(record.(snapshot := Norm(record.snapshot)))))
  {
    var v := Entry(AnchorValue(record), now);
    WrittenKeys(record, now);
    LineReadsBack(v);
    assert v.fields[1] == Field("anchor", AnchorValue(record));
    JsonProofs.LookupDistinct(v.fields, 1);
    JsonProofs.LookupSortedNorm(v.fields, "anchor");
    WrittenLookups(record);
    assert ReadsBack(SIGNATURES, record.signature);
  }

  /** So the line of an honest anchor over a valid chain, under a registered key, is an entry over that chain. */
  lemma {:induction false} WrittenLineOver(known: iset<Bytes>, ctx: Context, backend: Backend, dbPath: string, rows: seq<Row>,
                                           anchoredAt: string, now: string)
    requires RowsKnown(known, rows) && ChainOk(rows) && IsRegistered(Bootstrapped(ctx.reg, ctx.who), backend.key)
    ensures LineOver(known, ctx, SIGNED_TEXT(Entry(AnchorValue(HonestRecord(backend, dbPath, rows, anchoredAt)), now)),
                     Origin(dbPath, rows, anchoredAt))
  {
    WrittenRecordOver(ctx, backend, dbPath, rows, anchoredAt, now);
  }

  lemma {:induction false} WrittenRecordOver(ctx: Context, backend: Backend, dbPath: string, rows: seq<Row>, anchoredAt: string,
                                             now: string)
    requires IsRegistered(Bootstrapped(ctx.reg, ctx.who), backend.key)
    ensures
      var line := SIGNED_TEXT(Entry(AnchorValue(HonestRecord(backend, dbPath, rows, anchoredAt)), now));
      && ParseLine(line).Some?
      && var d := DecodeEntry(ParseLine(line).value);
         && d.Decoded? && d.entry.anchor.Some? && WellFormed(d.entry.anchor.value.snapshot)
         && EntryOver(ctx.who, ctx.reg, d.entry.anchor.value, dbPath, rows, anchoredAt)
  {
    var snapshot := SnapshotValue(dbPath, rows, anchoredAt);
    SnapshotKeys(dbPath, rows, anchoredAt);
    JsonProofs.NormWellFormed(snapshot);
    LineReadsBack(snapshot);
    WrittenEntryDecodes(HonestRecord(backend, dbPath, rows, anchoredAt), now);
  }

  /** It is accepted on a live table, valid or not, exactly while its tip is among the live hashes. */
  lemma {:induction false} WrittenLineAccepted(ctx: Context, backend: Backend, dbPath: string, rows: seq<Row>, anchoredAt: string,
                                               now: string)
    requires IsRegistered(Bootstrapped(ctx.reg, ctx.who), backend.key) && AllParse(ctx.rows)
    ensures
      var line := SIGNED_TEXT(Entry(AnchorValue(HonestRecord(backend, dbPath, rows, anchoredAt)), now));
      && ParseLine(line).Some?
      && (CHECK_ENTRY(ctx, ParseLine(line).value) == EntryValid <==> LastHash(rows) in Hashes(ctx.rows))
  {
    WrittenRecordOver(ctx, backend, dbPath, rows, anchoredAt, now);
    var v := ParseLine(SIGNED_TEXT(Entry(AnchorValue(HonestRecord(backend, dbPath, rows, anchoredAt)), now))).value;
    assert CHECK_ENTRY(ctx, v) == EntryOutcome(ctx, v);
    EntryTipExactly(ctx.who, ctx.reg, DecodeEntry(v).entry.anchor.value, dbPath, rows, anchoredAt, ctx.rows);
  }

  /** A call of notarize on an anchor that was made over `rows`. */
  datatype Signing = Signing(backend: Backend, dbPath: string, rows: seq<Row>, anchoredAt: string, now: string,
                             pushes: string -> bool)

  function AttemptOf(s: Signing): Attempt {
    Attempt(AnchorValue(HonestRecord(s.backend, s.dbPath, s.rows, s.anchoredAt)), s.now, s.pushes)
  }

  function Attempts(run: seq<Signing>): (attempts: seq<Attempt>)
    ensures |attempts| == |run| && forall i | 0 <= i < |run| :: attempts[i] == AttemptOf(run[i])
  {
    seq(|run|, i requires 0 <= i < |run| => AttemptOf(run[i]))
  }

  predicate SigningOk(ctx: Context, s: Signing) {
    StampOk(Stamp(s.now)) && IsRegistered(Bootstrapped(ctx.reg, ctx.who), s.backend.key)
  }

  lemma {:induction false} SigningIsAttempt(s: Signing)
    requires StampOk(Stamp(s.now))
    ensures AttemptOk(AttemptOf(s))
  {
    SnapshotKeys(s.dbPath, s.rows, s.anchoredAt);
    WrittenKeys(HonestRecord(s.backend, s.dbPath, s.rows, s.anchoredAt), s.now);
  }

  function LineOf(a: Attempt): string {
    SIGNED_TEXT(Entry(a.anchor, a.now))
  }

  lemma {:induction false} LogOfLast(run: seq<Attempt>)
    requires run != [] && forall i | 0 <= i < |run| :: AttemptOk(run[i])
    ensures AfterAttempts([], map[], run).0 == AfterAttempts([], map[], run[..|run| - 1]).0 + [LineOf(run[|run| - 1])]
  {
    var front, a := run[..|run| - 1], run[|run| - 1];
    RunStaysHonest([], map[], front);
    var (l, o) := AfterAttempts([], map[], front);
    assert AttemptOk(a);
    NotarizeKeepsHonest(l, o, a.anchor, a.now, a.pushes);
  }

  predicate IsLogOf(local: seq<string>, run: seq<Attempt>) {
    |local| == |run| && forall i | 0 <= i < |run| :: local[i] == LineOf(run[i])
  }

  lemma {:induction false} LogExtends(local: seq<string>, run: seq<Attempt>)
    requires run != [] && IsLogOf(local, run[..|run| - 1])
    ensures IsLogOf(local + [LineOf(run[|run| - 1])], run)
  {
    var all := local + [LineOf(run[|run| - 1])];
    forall i | 0 <= i < |run| ensures all[i] == LineOf(run[i]) {
      assert i < |run| - 1 ==> run[..|run| - 1][i] == run[i];
    }
  }

  /** The log of a run holds the line of each call, in order. */
  lemma {:induction false} LogOfRun(run: seq<Attempt>)
    requires forall i | 0 <= i < |run| :: AttemptOk(run[i])
    ensures IsLogOf(AfterAttempts([], map[], run).0, run)
  {
    if run != [] {
      var front := run[..|run| - 1];
      LogOfRun(front);
      LogOfLast(run);
      LogExtends(AfterAttempts([], map[], front).0, run);
    }
  }

  predicate TipLive(ctx: Context, s: Signing) {
    LastHash(s.rows) in Hashes(ctx.rows)
  }

  lemma {:induction false} RunAccepted(ctx: Context, run: seq<Signing>, local: seq<string>)
    requires AllParse(ctx.rows) && IsLogOf(local, Attempts(run)) && forall i | 0 <= i < |run| :: SigningOk(ctx, run[i])
    ensures AllAccepted(ctx, local) <==> forall i | 0 <= i < |run| :: TipLive(ctx, run[i])
    ensures LogParses(local)
  {
    forall i | 0 <= i < |run| ensures ParseLine(local[i]).Some? && (EntryAccepted(ctx, local, i) <==> TipLive(ctx, run[i])) {
      var s := run[i];
      assert SigningOk(ctx, s);
      WrittenLineAccepted(ctx, s.backend, s.dbPath, s.rows, s.anchoredAt, s.now);
    }
  }

  /** The last call of the run reports success. */
  predicate EndsInSuccess(run: seq<Attempt>)
    requires run != []
  {
    var (l, o) := AfterAttempts([], map[], run[..|run| - 1]);
    var a := run[|run| - 1];
    LogTimed(l) && AfterNotarize(l, o, a.anchor, a.now, a.pushes).2 == Notarized(|run|, true)
  }

  /** Honest calls from nothing, whatever pushes failed, up to one that reports success: from then on verify is
      healthy, on any live table, exactly while the tip of every notarized chain is among the live hashes. */
  lemma {:induction false} HonestRunHealthy(ctx: Context, run: seq<Signing>, names: seq<string>)
    requires AllParse(ctx.rows) && 0 < |run| <= 999999 && forall i | 0 <= i < |run| :: SigningOk(ctx, run[i])
    ensures
      var (l, o) := AfterAttempts([], map[], Attempts(run));
      EndsInSuccess(Attempts(run)) && Lists(names, o) ==>
        (VerifyVerdict(ctx, l, names, o) == Healthy <==> forall i | 0 <= i < |run| :: TipLive(ctx, run[i]))
  {
    var attempts := Attempts(run);
    forall i | 0 <= i < |run| ensures AttemptOk(attempts[i]) {
      assert SigningOk(ctx, run[i]);
      SigningIsAttempt(run[i]);
    }
    LogOfRun(attempts);
    RunConverges(attempts);
    var (l, o) := AfterAttempts([], map[], attempts);
    RunAccepted(ctx, run, l);
    if EndsInSuccess(attempts) && Lists(names, o) {
      HealthyExactly(ctx, l, o, names);
      LocalWhenAccepted(ctx, l);
    }
  }

  lemma {:induction false} LocalWhenAccepted(ctx: Context, local: seq<string>)
    requires LogParses(local) && local != []
    ensures LocalVerdict(ctx, local) == None <==> EntryAccepted(ctx, local, |local| - 1)
    ensures LocalVerdict(ctx, local) != Some(Healthy)
    ensures AllAccepted(ctx, local) ==> LocalVerdict(ctx, local) == None
  {
    assert AllAccepted(ctx, local) ==> EntryAccepted(ctx, local, |local| - 1);
  }

  /** In particular over a growing chain: each anchor was made over a beginning of the live one. */
  lemma {:induction false} GrowingRunHealthy(ctx: Context, run: seq<Signing>, names: seq<string>)
    requires AllParse(ctx.rows) && 0 < |run| <= 999999
    requires forall i | 0 <= i < |run| :: SigningOk(ctx, run[i]) && run[i].rows != [] && run[i].rows <= ctx.rows
    ensures
      var (l, o) := AfterAttempts([], map[], Attempts(run));
      EndsInSuccess(Attempts(run)) && Lists(names, o) ==> VerifyVerdict(ctx, l, names, o) == Healthy
  {
    HonestRunHealthy(ctx, run, names);
    forall i | 0 <= i < |run| ensures TipLive(ctx, run[i]) {
      var rows := run[i].rows;
      assert Hashes(ctx.rows)[|rows| - 1] == LastHash(rows);
    }
  }

  /** And later, against any valid live chain: exactly while every chain that was notarized is a beginning of it. */
  lemma {:induction false} HonestRunHistories(known: iset<Bytes>, ctx: Context, run: seq<Signing>, names: seq<string>)
    requires Ideal(known) && RowsKnown(known, ctx.rows) && ChainOk(ctx.rows)
    requires 0 < |run| <= 999999
    requires forall i | 0 <= i < |run| :: SigningOk(ctx, run[i]) && RowsKnown(known, run[i].rows) && ChainOk(run[i].rows)
    ensures
      var (l, o) := AfterAttempts([], map[], Attempts(run));
      EndsInSuccess(Attempts(run)) && Lists(names, o) ==>
        (VerifyVerdict(ctx, l, names, o) == Healthy
         <==> forall i | 0 <= i < |run| :: run[i].rows != [] && PrefixHistory(run[i].rows, ctx.rows))
  {
    ValidRowsParse(ctx.rows);
    HonestRunHealthy(ctx, run, names);
    forall i | 0 <= i < |run| ensures TipLive(ctx, run[i]) <==> run[i].rows != [] && PrefixHistory(run[i].rows, ctx.rows) {
      TipInside(known, run[i].rows, ctx.rows);
    }
  }
}
