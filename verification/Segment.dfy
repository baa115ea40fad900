/** The v2 records: the strict reader, the record hash, the standalone verifier and the append-only segment. */
module Segment {
  import opened Text
  import opened Sha
  import opened Json
  import opened Store

  const SCHEMA_VERSION := "msb.audit.v2"

  const REQUIRED: seq<string> := [
    "schema_version", "record_type", "seq", "recorded_at", "component", "actor", "action", "authority", "execution",
    "verification", "payload", "environment_ref", "prev_hash", "record_hash"]

  const TEXT_FIELDS: seq<string> := ["record_type", "recorded_at", "component", "actor", "action", "environment_ref"]

  const DICT_FIELDS: seq<string> := ["authority", "execution", "verification", "payload"]

  // ---------- The record hash ----------

  /** What canonicalize returns for a finite value; as a value, like the other writers. */
  type CompactWriter = f: Value -> string
    | forall v {:trigger Canonical(COMPACT, v)} :: f(v) == Canonical(COMPACT, v)
    witness (v: Value) => Canonical(COMPACT, v)

  const CANONICALIZE: CompactWriter

  function Without(fields: seq<Field>, key: string): seq<Field> {
    if fields == [] then []
    else if fields[0].key == key then Without(fields[1..], key)
    else [fields[0]] + Without(fields[1..], key)
  }

  predicate KeysExact(fields: seq<Field>) {
    && (forall i | 0 <= i < |REQUIRED| :: Lookup(fields, REQUIRED[i]).Some?)
    && (forall i | 0 <= i < |fields| :: fields[i].key in REQUIRED)
  }

  predicate TextOk(fields: seq<Field>, key: string) {
    match Lookup(fields, key)
    case Some(Str(s)) => !IsBlank(s)
    case _ => false
  }

  predicate DictOk(fields: seq<Field>, key: string) {
    match Lookup(fields, key)
    case Some(Obj(_)) => true
    case _ => false
  }

  predicate TextFieldsOk(fields: seq<Field>) {
    forall i | 0 <= i < |TEXT_FIELDS| :: TextOk(fields, TEXT_FIELDS[i])
  }

  predicate DictFieldsOk(fields: seq<Field>) {
    forall i | 0 <= i < |DICT_FIELDS| :: DictOk(fields, DICT_FIELDS[i])
  }

  function HashAt(fields: seq<Field>, key: string): (h: Option<string>)
    ensures h.Some? ==> IsHash(h.value)
  {
    match Lookup(fields, key)
    case Some(Str(s)) => if IsHash(s) then Some(s) else None
    case _ => None
  }

  function SeqOf(fields: seq<Field>): Option<int> {
    match Lookup(fields, "seq")
    case Some(Int(n)) => Some(n)
    case _ => None
  }

  /** The checks of record_preimage. */
  predicate ShapeOk(fields: seq<Field>) {
    && KeysExact(fields)
    && Lookup(fields, "schema_version") == Some(Str(SCHEMA_VERSION))
    && SeqOf(fields).Some? && SeqOf(fields).value >= 1
    && HashAt(fields, "prev_hash").Some? && HashAt(fields, "record_hash").Some?
    && TextFieldsOk(fields) && DictFieldsOk(fields)
  }

  /** The same as a value. */
  type ShapeCheck = f: seq<Field> -> bool | forall s {:trigger ShapeOk(s)} :: f(s) == ShapeOk(s)
    witness (s: seq<Field>) => ShapeOk(s)

  const PREIMAGE_OK: ShapeCheck

  function Preimage(fields: seq<Field>): Value {
    Obj(Without(fields, "record_hash"))
  }

  /** compute_record_hash; None is the exception of a failed check. */
  function RecordHash(fields: seq<Field>): (h: Option<string>)
    ensures h.Some? ==> IsHash(h.value)
  {
    if PREIMAGE_OK(fields) && Finite(Preimage(fields)) then Some(HashText(CANONICALIZE(Preimage(fields)))) else None
  }

  // ---------- Lines ----------

  /** loads_strict, as a value. */
  type StrictParser = f: string -> Option<Value> | forall s {:trigger Loads(true, s)} :: f(s) == Loads(true, s)
    witness (s: string) => Loads(true, s)

  const LOADS_STRICT: StrictParser

  /** One line of a segment; None is the exception of a blank line, of bad JSON and of anything but an object. */
  function ReadRecord(line: string): Option<seq<Field>> {
    match LOADS_STRICT(line)
    case Some(Obj(fields)) => Some(fields)
    case _ => None
  }

  function LineHash(line: string): string {
    if ReadRecord(line).Some? && HashAt(ReadRecord(line).value, "record_hash").Some?
    then HashAt(ReadRecord(line).value, "record_hash").value else ""
  }

  function PrevHash(lines: seq<string>, initial: string, i: nat): string
    requires i <= |lines|
  {
    if i == 0 then initial else LineHash(lines[i - 1])
  }

  /** A record with the seq and predecessor asked for, and the hash of its own content. */
  predicate RecordOk(fields: seq<Field>, seqNo: int, prev: string) {
    && SeqOf(fields) == Some(seqNo) && HashAt(fields, "prev_hash") == Some(prev)
    && RecordHash(fields).Some? && RecordHash(fields) == HashAt(fields, "record_hash")
  }

  predicate LineOk(lines: seq<string>, initial: string, i: nat)
    requires i < |lines|
  {
    ReadRecord(lines[i]).Some? && RecordOk(ReadRecord(lines[i]).value, i + 1, PrevHash(lines, initial, i))
  }

  /** A segment that links to `initial`: seqs 1, 2, 3, ..., each record on top of the one before. */
  predicate SegmentOk(lines: seq<string>, initial: string) {
    IsHash(initial) && forall i | 0 <= i < |lines| :: LineOk(lines, initial, i)
  }

  function Head(lines: seq<string>, initial: string): string {
    PrevHash(lines, initial, |lines|)
  }

  datatype SegmentVerdict =
    | SegmentValid(count: nat, head: string)
    | SegmentBroken(count: nat)
    | SegmentUnreadable(count: nat)
    | BadInitial

  lemma {:induction false} RecordOkSteps(fields: seq<Field>, seqNo: int, prev: string)
    ensures RecordOk(fields, seqNo, prev) <==>
      && PREIMAGE_OK(fields) && SeqOf(fields) == Some(seqNo) && HashAt(fields, "prev_hash") == Some(prev)
      && Finite(Preimage(fields)) && HashAt(fields, "record_hash") == Some(HashText(CANONICALIZE(Preimage(fields))))
  {
  }

  lemma {:induction false} LineIs(lines: seq<string>, initial: string, i: nat, fields: seq<Field>)
    requires i < |lines| && ReadRecord(lines[i]) == Some(fields)
    ensures LineOk(lines, initial, i) <==> RecordOk(fields, i + 1, PrevHash(lines, initial, i))
    ensures HashAt(fields, "record_hash").Some? ==>
      PrevHash(lines, initial, i + 1) == HashAt(fields, "record_hash").value
  {
  }

  /** The checks of the verifier's loop, in their order. */
  method CheckRecord(fields: seq<Field>, seqNo: int, prev: string) returns (good: bool)
    ensures good <==> RecordOk(fields, seqNo, prev)
    ensures good ==> HashAt(fields, "record_hash").Some?
  {
    RecordOkSteps(fields, seqNo, prev);
    if !PREIMAGE_OK(fields) {
      return false;
    }
    if SeqOf(fields) != Some(seqNo) {
      return false;
    }
    if HashAt(fields, "prev_hash") != Some(prev) {
      return false;
    }
    if !Finite(Preimage(fields)) {
      return false;
    }
    return HashAt(fields, "record_hash") == Some(HashText(CANONICALIZE(Preimage(fields))));
  }

  /** The standalone verifier.  It accepts exactly the segments that link to `initial`, and otherwise says how
      many records are good before the first that is not. */
  method VerifyJsonl(lines: seq<string>, initial: string) returns (v: SegmentVerdict)
    ensures v.SegmentValid? <==> SegmentOk(lines, initial)
    ensures v.SegmentValid? ==> v.count == |lines| && v.head == if lines == [] then GENESIS else Head(lines, initial)
    ensures v.BadInitial? <==> !IsHash(initial)
    ensures v.SegmentBroken? || v.SegmentUnreadable? ==>
      && v.count < |lines| && (forall i | 0 <= i < v.count :: LineOk(lines, initial, i)) && !LineOk(lines, initial, v.count)
      && (v.SegmentUnreadable? <==> ReadRecord(lines[v.count]).None?)
  {
    if !IsHash(initial) {
      return BadInitial;
    }
    var expectedPrev, head: string := initial, GENESIS;
    var i := 0;
    while i < |lines|
      invariant 0 <= i <= |lines| && expectedPrev == PrevHash(lines, initial, i)
      invariant head == if i == 0 then GENESIS else expectedPrev
      invariant forall j | 0 <= j < i :: LineOk(lines, initial, j)
    {
      var record := ReadRecord(lines[i]);
      if record.None? {
        assert !LineOk(lines, initial, i);
        return SegmentUnreadable(i);
      }
      LineIs(lines, initial, i, record.value);
      var good := CheckRecord(record.value, i + 1, expectedPrev);
      if !good {
        assert !LineOk(lines, initial, i);
        return SegmentBroken(i);
      }
      expectedPrev := HashAt(record.value, "record_hash").value;
      head := expectedPrev;
      i := i + 1;
    }
    return SegmentValid(|lines|, head);
  }

  // ---------- Appending ----------

  datatype V2Entry = V2Entry(component: string, eventType: string, payload: Value, actor: string, action: string,
                             authority: Value, execution: Value, verification: Value, environmentRef: string)

  /** What the caller passes are JSON values. */
  predicate EntryOk(e: V2Entry) {
    WellFormed(e.payload) && WellFormed(e.authority) && WellFormed(e.execution) && WellFormed(e.verification)
  }

  type JsonEntry = e: V2Entry | EntryOk(e) witness V2Entry("", "", Null, "", "", Null, Null, Null, "")

  function RecordBase(e: V2Entry, seqNo: int, now: string, prev: string): seq<Field> {
    [Field("schema_version", Str(SCHEMA_VERSION)), Field("record_type", Str(e.eventType)), Field("seq", Int(seqNo)),
     Field("recorded_at", Str(now)), Field("component", Str(e.component)), Field("actor", Str(e.actor)),
     Field("action", Str(e.action)), Field("authority", e.authority), Field("execution", e.execution),
     Field("verification", e.verification), Field("payload", e.payload), Field("environment_ref", Str(e.environmentRef)),
     Field("prev_hash", Str(prev))]
  }

  function RecordFields(e: V2Entry, seqNo: int, now: string, prev: string, hash: string): seq<Field> {
    RecordBase(e, seqNo, now, prev) + [Field("record_hash", Str(hash))]
  }

  /** The seq and predecessor of the next record; None when the file does not read or its last record lacks them. */
  function NextPlace(lines: seq<string>, initial: string): Option<(int, string)> {
    if exists i | 0 <= i < |lines| :: ReadRecord(lines[i]).None? then None
    else if lines == [] then Some((1, initial))
    else
      var last := ReadRecord(lines[|lines| - 1]).value;
      if SeqOf(last).None? || HashAt(last, "record_hash").None? then None
      else Some((SeqOf(last).value + 1, HashAt(last, "record_hash").value))
  }

  /** The line append writes; None when it raises instead. */
  function LineFor(lines: seq<string>, initial: string, e: V2Entry, now: string): Option<string> {
    match NextPlace(lines, initial)
    case None => None
    case Some((seqNo, prev)) =>
      match RecordHash(RecordFields(e, seqNo, now, prev, GENESIS))
      case None => None
      case Some(hash) => Some(Canonical(SPACED, Obj(RecordFields(e, seqNo, now, prev, hash))))
  }

  /** The same as a value. */
  type LineMaker = f: (seq<string>, string, V2Entry, string) -> Option<string>
    | forall l, i, e, t {:trigger LineFor(l, i, e, t)} :: f(l, i, e, t) == LineFor(l, i, e, t)
    witness (l: seq<string>, i: string, e: V2Entry, t: string) => LineFor(l, i, e, t)

  const NEXT_LINE: LineMaker

  /** The file of a segment, as its lines. */
  class SegmentFile {
    var lines: seq<string>

    constructor ()
      ensures lines == []
    {
      lines := [];
    }
  }

  class V2Segment {
    const file: SegmentFile
    const initial: string

    constructor (file: SegmentFile, initial: string)
      ensures this.file == file && this.initial == initial
    {
      this.file, this.initial := file, initial;
    }

    method Verify() returns (valid: bool)
      ensures valid <==> file.lines != [] && SegmentOk(file.lines, initial)
    {
      if file.lines == [] {
        return false;
      }
      var v := VerifyJsonl(file.lines, initial);
      return v.SegmentValid?;
    }

    /** Either an exception and the file as it was, or exactly one more line. */
    method Append(e: V2Entry, now: string) returns (ok: bool)
      modifies file
      ensures ok <==> NEXT_LINE(old(file.lines), initial, e, now).Some?
      ensures !ok ==> file.lines == old(file.lines)
      ensures ok ==> file.lines == old(file.lines) + [NEXT_LINE(old(file.lines), initial, e, now).value]
    {
      assert NEXT_LINE(file.lines, initial, e, now) == LineFor(file.lines, initial, e, now);
      var place := NextPlace(file.lines, initial);
      if place.None? {
        return false;
      }
      var (seqNo, prev) := place.value;
      var hash := RecordHash(RecordFields(e, seqNo, now, prev, GENESIS));
      if hash.None? {
        return false;
      }
      file.lines := file.lines + [Canonical(SPACED, Obj(RecordFields(e, seqNo, now, prev, hash.value)))];
      return true;
    }
  }
}
