/** The off-box notary: a local log of signed entries, and a directory that holds one object per entry. */
module Notary {
  import opened Text
  import opened Json
  import opened Chain
  import opened Registry
  import opened Signatures
  import opened Anchor

  // ---------- Object names ----------

  function Zeros(n: int): string {
    if n <= 0 then "" else Zeros(n - 1) + "0"
  }

  /** f"{seq:06d}" */
  function Pad6(n: nat): string {
    Zeros(6 - |Decimal(n)|) + Decimal(n)
  }

  /** s.replace(find, put) */
  function Replace(s: string, find: string, put: string): string
    requires find != []
    decreases |s|
  {
    if |s| < |find| then s
    else if s[..|find|] == find then put + Replace(s[|find|..], find, put)
    else [s[0]] + Replace(s[1..], find, put)
  }

  function Stamp(time: string): string {
    Replace(Replace(time, ":", ""), "+00:00", "Z")
  }

  predicate IsStampChar(c: char) {
    IsDigit(c) || c in {'T', ':', '.', '+', 'Z', '-'}
  }

  predicate StampOk(stamp: string) {
    stamp != [] && forall i | 0 <= i < |stamp| :: IsStampChar(stamp[i])
  }

  function ObjectName(seqNo: nat, time: string): string {
    Pad6(seqNo) + "-" + Stamp(time) + ".line"
  }

  /** ENTRY_NAME_RE: six digits, a dash, a stamp and ".line". */
  function ReadName(name: string): Option<nat> {
    if |name| > 12 && AllDigits(name[..6]) && name[6] == '-' && name[|name| - 5..] == ".line" && StampOk(name[7..|name| - 5])
    then Some(DecimalValue(name[..6])) else None
  }

  /** The same as a value, so that the pattern is opened only where names are taken apart. */
  type NameReader = f: string -> Option<nat> | forall n {:trigger ReadName(n)} :: f(n) == ReadName(n)
    witness (n: string) => ReadName(n)

  const NAME_SEQ: NameReader

  // ---------- Entries ----------

  /** The record that anchor() writes. */
  function WrittenAnchor(record: AnchorRecord): Value {
    Obj([Field("snapshot", record.snapshot), Field("signature", Str(Hex(SIGNATURES.write(record.signature)))),
              Field("public_key", Str(Hex(record.publicKey))), Field("key_algorithm", Str(RecordedAlgorithm(record)))])
  }

  /** The same as parsed from its file, which has the keys in order. */
  function AnchorValue(record: AnchorRecord): Value {
    Norm(WrittenAnchor(record))
  }

  /** build_notary_entry, for the anchor file as parsed. */
  function Entry(anchor: Value, now: string): Value {
    Obj([Field("notarized_at", Str(now)), Field("anchor", anchor)])
  }

  function EntryTime(entry: Value): Option<string> {
    if !entry.Obj? then None
    else match Lookup(entry.fields, "notarized_at")
      case Some(Str(time)) => Some(time)
      case _ => None
  }

  datatype Decoded = Decoded(entry: NotaryEntry) | Undecodable

  function TextAt(fields: seq<Field>, key: string): Option<string> {
    match Lookup(fields, key)
    case Some(Str(s)) => Some(s)
    case _ => None
  }

  /** The bytes under a key, none if no text is there; None is the exception of a text that is no hexadecimal. */
  function HexAt(fields: seq<Field>, key: string): Option<Bytes> {
    match TextAt(fields, key)
    case Some(s) => FromHex(s)
    case None => Some([])
  }

  /** The reading part of verify_notary_entry; Undecodable stands for the exceptions it may raise. */
  function DecodeEntry(v: Value): Decoded {
    if !v.Obj? then Undecodable
    else match Lookup(v.fields, "anchor")
      case Some(Obj(f)) =>
        if Lookup(f, "snapshot").None? then Decoded(NotaryEntry(None))
        else
          var sig, key := HexAt(f, "signature"), HexAt(f, "public_key");
          if sig.None? || key.None? then Undecodable
          else Decoded(NotaryEntry(Some(AnchorRecord(
            Lookup(f, "snapshot").value, SIGNATURES.read(sig.value), key.value, TextAt(f, "key_algorithm")))))
      case _ => Decoded(NotaryEntry(None))
  }

  /** Whose registry, and which live chain, entries are verified against. */
  datatype Context = Context(who: Keyholder, reg: Registry, rows: seq<Row>)

  function EntryOutcome(ctx: Context, v: Value): EntryVerdict {
    match DecodeEntry(v)
    case Undecodable => EntryRaised
    case Decoded(entry) => VerifyEntry(ctx.who, ctx.reg, entry, ctx.rows)
  }

  /** verify_notary_entry on a parsed entry, as a value too. */
  type EntryVerifier = f: (Context, Value) -> EntryVerdict
    | forall c, v {:trigger EntryOutcome(c, v)} :: f(c, v) == EntryOutcome(c, v)
    witness (c: Context, v: Value) => EntryOutcome(c, v)

  const CHECK_ENTRY: EntryVerifier

  function ParseLine(line: string): Option<Value> {
    PARSE_PAYLOAD(line)
  }

  // ---------- Notarizing ----------

  function ListedSeqs(objects: map<string, string>): set<nat> {
    set name | name in objects && NAME_SEQ(name).Some? :: NAME_SEQ(name).value
  }

  predicate LogParses(local: seq<string>) {
    forall i | 0 <= i < |local| :: ParseLine(local[i]).Some?
  }

  predicate LogTimed(local: seq<string>) {
    forall i | 0 <= i < |local| :: Timed(local[i])
  }

  predicate Timed(line: string) {
    ParseLine(line).Some? && EntryTime(ParseLine(line).value).Some?
  }

  function TimeOf(line: string): string
    requires Timed(line)
  {
    EntryTime(ParseLine(line).value).value
  }

  /** The outcomes of notarize; the first four are exceptions. */
  datatype NotarizeResult = LogCorrupt | RemoteUnlisted | RemoteAhead | EntryUntimed | Notarized(seqNo: nat, ok: bool)

  /** A push either stores the whole object or nothing. */
  function Push(objects: map<string, string>, name: string, line: string, pushes: string -> bool): map<string, string> {
    if pushes(name) then objects[name := line + "\n"] else objects
  }

  /** The remote after the entries 1..s that it lacked at first have been pushed again, from their parsed form. */
  function Backfilled(objects: map<string, string>, local: seq<string>, had: set<nat>, s: nat, pushes: string -> bool):
      map<string, string>
    requires s <= |local| && LogTimed(local)
  {
    if s == 0 then objects
    else
      var before := Backfilled(objects, local, had, s - 1, pushes);
      if s in had then before
      else Push(before, ObjectName(s, TimeOf(local[s - 1])), SIGNED_TEXT(ParseLine(local[s - 1]).value), pushes)
  }

  predicate BackfillOk(local: seq<string>, had: set<nat>, s: nat, pushes: string -> bool)
    requires s <= |local| && LogTimed(local)
  {
    forall k | 1 <= k <= s && k !in had :: pushes(ObjectName(k, TimeOf(local[k - 1])))
  }

  lemma {:induction false} BackfillStep(objects: map<string, string>, local: seq<string>, had: set<nat>, s: nat,
                                        pushes: string -> bool)
    requires 1 <= s <= |local| && LogTimed(local)
    ensures
      var name, text := ObjectName(s, TimeOf(local[s - 1])), SIGNED_TEXT(ParseLine(local[s - 1]).value);
      var before := Backfilled(objects, local, had, s - 1, pushes);
      && Backfilled(objects, local, had, s, pushes) == (if s in had then before else Push(before, name, text, pushes))
      && (BackfillOk(local, had, s, pushes) <==> BackfillOk(local, had, s - 1, pushes) && (s in had || pushes(name)))
  {
  }

  /** The backfilling loop before entry s + 1, of a log whose entries all carry times. */
  predicate FilledTo(first: map<string, string>, objects: map<string, string>, local: seq<string>, had: set<nat>, s: nat,
                     pushes: string -> bool, ok: bool)
    requires s <= |local|
  {
    LogTimed(local) ==>
      && objects == Backfilled(first, local, had, s, pushes)
      && (ok <==> BackfillOk(local, had, s, pushes))
  }

  lemma {:induction false} FillSkipped(first: map<string, string>, objects: map<string, string>, local: seq<string>,
                                       had: set<nat>,
                                       s: nat, pushes: string -> bool, ok: bool)
    requires 1 <= s <= |local| && s in had && FilledTo(first, objects, local, had, s - 1, pushes, ok)
    ensures FilledTo(first, objects, local, had, s, pushes, ok)
  {
    if LogTimed(local) {
      BackfillStep(first, local, had, s, pushes);
    }
  }

  lemma {:induction false} FillPushed(first: map<string, string>, objects: map<string, string>, local: seq<string>, had: set<nat>,
                                      s: nat, pushes: string -> bool, ok: bool)
    requires 1 <= s <= |local| && s !in had && FilledTo(first, objects, local, had, s - 1, pushes, ok) && Timed(local[s - 1])
    ensures
      var name, text := ObjectName(s, TimeOf(local[s - 1])), SIGNED_TEXT(ParseLine(local[s - 1]).value);
      FilledTo(first, Push(objects, name, text, pushes), local, had, s, pushes, ok && pushes(name))
  {
    if LogTimed(local) {
      BackfillStep(first, local, had, s, pushes);
    }
  }

  /** notarize against a remote that can be listed: the log, the remote and the report afterwards. */
  function AfterNotarize(local: seq<string>, objects: map<string, string>, anchor: Value, now: string, pushes: string -> bool):
      (seq<string>, map<string, string>, NotarizeResult)
    requires LogTimed(local)
  {
    var had, seqNo := ListedSeqs(objects), |local| + 1;
    if exists s | s in had :: s > |local| then (local, objects, RemoteAhead)
    else
      var line, name := SIGNED_TEXT(Entry(anchor, now)), ObjectName(seqNo, now);
      (local + [line],
       Backfilled(Push(objects, name, line, pushes), local, had, |local|, pushes),
       Notarized(seqNo, pushes(name) && BackfillOk(local, had, |local|, pushes)))
  }

  // ---------- Verifying ----------

  datatype NotaryVerdict =
    | LocalInvalid | LocalOnly | RemoteUnreachable | RemoteInvalid | Diverged | RemoteBehind | Healthy | VerifyRaised

  /** The dict from seqs to names that the listing is folded into. */
  function NamesBySeq(names: seq<string>): (m: map<nat, string>)
    ensures forall s | s in m :: m[s] in names && NAME_SEQ(m[s]) == Some(s)
    ensures forall n | n in names && NAME_SEQ(n).Some? :: NAME_SEQ(n).value in m
  {
    if names == [] then map[]
    else
      var m, name := NamesBySeq(names[..|names| - 1]), names[|names| - 1];
      if NAME_SEQ(name).Some? then m[NAME_SEQ(name).value := name] else m
  }

  /** How one remote object fares, once read; None is an exception. */
  function TextOutcome(ctx: Context, data: Option<string>): Option<bool> {
    if data.None? then Some(false)
    else match ParseLine(data.value)
      case None => Some(false)
      case Some(v) => if CHECK_ENTRY(ctx, v).EntryRaised? then None else Some(CHECK_ENTRY(ctx, v).EntryValid?)
  }

  function ObjectOk(ctx: Context, objects: map<string, string>, name: string): Option<bool> {
    TextOutcome(ctx, if name in objects then Some(objects[name]) else None)
  }

  /** The remote knows an entry that the log lacks. */
  predicate Extra(m: map<nat, string>, count: nat) {
    exists s | s in m :: !(1 <= s <= count)
  }

  predicate Missing(m: map<nat, string>, count: nat) {
    exists s: nat | 1 <= s <= count :: s !in m
  }

  predicate SomeRaises(ctx: Context, m: map<nat, string>, objects: map<string, string>) {
    exists s | s in m :: ObjectOk(ctx, objects, m[s]) == None
  }

  predicate SomeInvalid(ctx: Context, m: map<nat, string>, objects: map<string, string>) {
    exists s | s in m :: ObjectOk(ctx, objects, m[s]) == Some(false)
  }

  /** What listing gives: every object whose name is an entry's, in some order. */
  ghost predicate Lists(names: seq<string>, objects: map<string, string>) {
    forall n :: n in names <==> n in objects && NAME_SEQ(n).Some?
  }

  function RemoteVerdict(ctx: Context, count: nat, names: seq<string>, objects: map<string, string>): NotaryVerdict {
    var m := NamesBySeq(names);
    if m.Keys == {} then RemoteUnreachable
    else if SomeRaises(ctx, m, objects) then VerifyRaised
    else if SomeInvalid(ctx, m, objects) then RemoteInvalid
    else if Extra(m, count) then Diverged
    else if Missing(m, count) then RemoteBehind
    else Healthy
  }

  /** The local part of verify; None lets the remote decide. */
  function LocalVerdict(ctx: Context, local: seq<string>): Option<NotaryVerdict> {
    if !LogParses(local) || local == [] then Some(LocalInvalid)
    else
      var head := CHECK_ENTRY(ctx, ParseLine(local[|local| - 1]).value);
      if head.EntryRaised? then Some(VerifyRaised)
      else if !head.EntryValid? then Some(LocalInvalid)
      else None
  }

  /** The whole of verify, when the remote can be listed and gives `names`. */
  function VerifyVerdict(ctx: Context, local: seq<string>, names: seq<string>, objects: map<string, string>): NotaryVerdict {
    match LocalVerdict(ctx, local)
    case Some(v) => v
    case None => RemoteVerdict(ctx, |local|, names, objects)
  }

  // ---------- The objects ----------

  class LocalDirSink {
    var objects: map<string, string>

    constructor ()
      ensures objects == map[]
    {
      objects := map[];
    }

    /** All or nothing; `reaches` says whether the write gets through. */
    method Append(name: string, data: string, reaches: bool) returns (ok: bool)
      modifies this
      ensures ok == reaches
      ensures objects == if reaches then old(objects)[name := data] else old(objects)
    {
      if reaches {
        objects := objects[name := data];
      }
      return reaches;
    }

    method Read(name: string) returns (data: Option<string>)
      ensures data == if name in objects then Some(objects[name]) else None
    {
      data := if name in objects then Some(objects[name]) else None;
    }

    method List() returns (names: seq<string>)
      ensures Lists(names, objects)
    {
      names := [];
      var rest := objects.Keys;
      while rest != {}
        invariant rest <= objects.Keys
        invariant forall n :: n in names <==> n in objects && n !in rest && NAME_SEQ(n).Some?
        decreases |rest|
      {
        var n :| n in rest;
        if NAME_SEQ(n).Some? {
          names := names + [n];
        }
        rest := rest - {n};
      }
    }
  }

  class NotaryService {
    var local: seq<string>
    const remote: LocalDirSink?

    constructor (remote: LocalDirSink?)
      ensures this.remote == remote && local == []
    {
      local, this.remote := [], remote;
    }

    method RemoteSeqs(sink: LocalDirSink) returns (seqs: set<nat>)
      ensures seqs == ListedSeqs(sink.objects)
    {
      var names := sink.List();
      seqs := {};
      var i := 0;
      while i < |names|
        invariant 0 <= i <= |names|
        invariant seqs == set k | 0 <= k < i && NAME_SEQ(names[k]).Some? :: NAME_SEQ(names[k]).value
      {
        if NAME_SEQ(names[i]).Some? {
          seqs := seqs + {NAME_SEQ(names[i]).value};
        }
        i := i + 1;
      }
      forall s: nat ensures s in seqs <==> s in ListedSeqs(sink.objects) {
        if s in ListedSeqs(sink.objects) {
          var n :| n in sink.objects && NAME_SEQ(n) == Some(s);
          assert n in names;
        }
      }
    }

    /** The backfilling loop of notarize, over the parsed entries. */
    method Backfill(sink: LocalDirSink, entries: seq<string>, had: set<nat>, pushes: string -> bool)
        returns (done: bool, ok: bool)
      requires LogParses(entries)
      modifies sink
      ensures old(sink.objects).Keys <= sink.objects.Keys && (!done ==> !LogTimed(entries))
      ensures LogTimed(entries) ==>
        && done && sink.objects == Backfilled(old(sink.objects), entries, had, |entries|, pushes)
        && (ok <==> BackfillOk(entries, had, |entries|, pushes))
    {
      ghost var first := sink.objects;
      var s := 1;
      done, ok := true, true;
      while s <= |entries|
        invariant 1 <= s <= |entries| + 1 && done && first.Keys <= sink.objects.Keys
        invariant FilledTo(first, sink.objects, entries, had, s - 1, pushes, ok)
      {
        if s in had {
          FillSkipped(first, sink.objects, entries, had, s, pushes, ok);
        } else {
          var line := entries[s - 1];
          var entry := ParseLine(line).value;
          if EntryTime(entry).None? {
            assert !Timed(line);
            return false, false;
          }
          FillPushed(first, sink.objects, entries, had, s, pushes, ok);
          var name := ObjectName(s, EntryTime(entry).value);
          var pushed := sink.Append(name, SIGNED_TEXT(entry) + "\n", pushes(name));
          ok := ok && pushed;
        }
        s := s + 1;
      }
    }

    /** Append a signed snapshot to the log, push it, and push again what the remote lacks.  `anchor` is the
        anchor file as parsed, `listed` whether the remote can be listed, and `pushes` which writes get through. */
    method Notarize(anchor: Value, now: string, listed: bool, pushes: string -> bool) returns (r: NotarizeResult)
      modifies this, remote
      ensures r.LogCorrupt? <==> !LogParses(old(local))
      ensures r.RemoteUnlisted? <==> LogParses(old(local)) && remote != null && !listed
      ensures r.RemoteAhead? <==>
        LogParses(old(local)) && remote != null && listed && exists s | s in ListedSeqs(old(remote.objects)) :: s > |old(local)|
      ensures r.LogCorrupt? || r.RemoteUnlisted? || r.RemoteAhead? ==>
        local == old(local) && (remote != null ==> remote.objects == old(remote.objects))
      ensures remote == null && LogParses(old(local)) ==>
        local == old(local) + [SIGNED_TEXT(Entry(anchor, now))] && r == Notarized(|local|, true)
      ensures remote != null && listed && LogTimed(old(local)) ==>
        (local, remote.objects, r) == AfterNotarize(old(local), old(remote.objects), anchor, now, pushes)
      ensures r.EntryUntimed? ==>
        && !LogTimed(old(local)) && local == old(local) + [SIGNED_TEXT(Entry(anchor, now))]
        && remote != null && old(remote.objects).Keys <= remote.objects.Keys
    {
      if !LogParses(local) {
        return LogCorrupt;
      }
      var seqNo := |local| + 1;
      var had: set<nat> := {};
      if remote != null {
        if !listed {
          return RemoteUnlisted;
        }
        had := RemoteSeqs(remote);
        if exists s | s in had :: s > |local| {
          return RemoteAhead;
        }
      }
      var line := SIGNED_TEXT(Entry(anchor, now));
      var entries := local;
      local := local + [line];
      if remote == null {
        return Notarized(seqNo, true);
      }

      var name := ObjectName(seqNo, now);
      var ok := remote.Append(name, line + "\n", pushes(name));
      var done, filled := Backfill(remote, entries, had, pushes);
      if !done {
        return EntryUntimed;
      }
      return Notarized(seqNo, ok && filled);
    }

    /** The loop of verify over the remote's objects. */
    method CheckObjects(ctx: Context, m: map<nat, string>) returns (raised: bool, invalid: bool)
      requires remote != null
      ensures raised <==> SomeRaises(ctx, m, remote.objects)
      ensures invalid <==> SomeInvalid(ctx, m, remote.objects)
    {
      raised, invalid := false, false;
      var rest := m.Keys;
      while rest != {}
        invariant rest <= m.Keys
        invariant raised <==> exists s | s in m && s !in rest :: ObjectOk(ctx, remote.objects, m[s]) == None
        invariant invalid <==> exists s | s in m && s !in rest :: ObjectOk(ctx, remote.objects, m[s]) == Some(false)
        decreases |rest|
      {
        var s :| s in rest;
        var data := remote.Read(m[s]);
        var check := TextOutcome(ctx, data);
        raised := raised || check.None?;
        invalid := invalid || check == Some(false);
        rest := rest - {s};
      }
    }

    /** `listed` says whether the remote can be listed. */
    method Verify(ctx: Context, listed: bool) returns (v: NotaryVerdict)
      ensures LocalVerdict(ctx, local).Some? ==> v == LocalVerdict(ctx, local).value
      ensures LocalVerdict(ctx, local).None? && remote == null ==> v == LocalOnly
      ensures LocalVerdict(ctx, local).None? && remote != null && !listed ==> v == RemoteUnreachable
      ensures LocalVerdict(ctx, local).None? && remote != null && listed ==>
        exists names :: Lists(names, remote.objects) && v == VerifyVerdict(ctx, local, names, remote.objects)
    {
      if !LogParses(local) || local == [] {
        return LocalInvalid;
      }
      var head := CHECK_ENTRY(ctx, ParseLine(local[|local| - 1]).value);
      if head.EntryRaised? {
        return VerifyRaised;
      }
      if !head.EntryValid? {
        return LocalInvalid;
      }
      if remote == null {
        return LocalOnly;
      }
      if !listed {
        return RemoteUnreachable;
      }
      var names := remote.List();
      var m := NamesBySeq(names);
      if m.Keys == {} {
        return RemoteUnreachable;
      }
      var raised, invalid := CheckObjects(ctx, m);
      v := if raised then VerifyRaised else if invalid then RemoteInvalid
           else if Extra(m, |local|) then Diverged else if Missing(m, |local|) then RemoteBehind
           else Healthy;
    }
  }
}
