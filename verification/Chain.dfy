/** The v1 record chain as a list of rows: the record hash, the first break, and what the hashes determine. */
module Chain {
  import opened Text
  import opened Sha
  import opened Json
  import JsonProofs

  /** A row of audit_records.  `payload` is the JSON text in the column. */
  datatype Row = Row(seqNo: int, component: string, eventType: string, payload: string, timestamp: string,
                     prevHash: string, recordHash: string)

  // ---------- The record hash ----------

  function HashInput(prevHash: string, component: string, eventType: string, payload: Value, timestamp: string): Value {
    Obj([Field("prev_hash", Str(prevHash)), Field("component", Str(component)), Field("event_type", Str(eventType)),
         Field("payload", payload), Field("timestamp", Str(timestamp))])
  }

  function CanonicalRecord(prevHash: string, component: string, eventType: string, payload: Value, timestamp: string): string {
    Canonical(SPACED, HashInput(prevHash, component, eventType, payload, timestamp))
  }

  /** The text that is hashed, as a value: what is built on it can be reasoned about without opening the writer. */
  type RecordWriter = f: (string, string, string, Value, string) -> string
    | forall p, c, e, v, t {:trigger CanonicalRecord(p, c, e, v, t)} :: f(p, c, e, v, t) == CanonicalRecord(p, c, e, v, t)
    witness (p: string, c: string, e: string, v: Value, t: string) => CanonicalRecord(p, c, e, v, t)

  const HASHED_TEXT: RecordWriter

  function ComputeHash(prevHash: string, component: string, eventType: string, payload: Value, timestamp: string): (h: string)
    ensures IsHash(h)
  {
    HashText(HASHED_TEXT(prevHash, component, eventType, payload, timestamp))
  }

  /** json.loads, as a value for the same reason. */
  type Parser = f: string -> Option<Value> | forall s {:trigger Loads(false, s)} :: f(s) == Loads(false, s)
    witness (s: string) => Loads(false, s)

  const PARSE_PAYLOAD: Parser

  function Payload(row: Row): Option<Value> {
    PARSE_PAYLOAD(row.payload)
  }

  lemma {:induction false} PayloadWellFormed(row: Row)
    requires Payload(row).Some?
    ensures WellFormed(Payload(row).value)
  {
    assert Payload(row) == Loads(false, row.payload);
    JsonProofs.LoadsWellFormed(false, row.payload);
  }

  /** What verification hashes for a row whose payload parses. */
  function RowText(row: Row): string
    requires Payload(row).Some?
  {
    HASHED_TEXT(row.prevHash, row.component, row.eventType, Payload(row).value, row.timestamp)
  }

  predicate HashOk(row: Row) {
    Payload(row).Some? && row.recordHash == HashText(RowText(row))
  }

  // ---------- The chain ----------

  function LastHash(rows: seq<Row>): string {
    if rows == [] then GENESIS else rows[|rows| - 1].recordHash
  }

  function PrevOf(rows: seq<Row>, i: nat): string
    requires i <= |rows|
  {
    if i == 0 then GENESIS else rows[i - 1].recordHash
  }

  predicate RowOk(rows: seq<Row>, i: nat)
    requires i < |rows|
  {
    rows[i].prevHash == PrevOf(rows, i) && HashOk(rows[i])
  }

  predicate ChainOk(rows: seq<Row>) {
    forall i | 0 <= i < |rows| :: RowOk(rows, i)
  }

  function FirstBreakFrom(rows: seq<Row>, i: nat): (k: nat)
    requires i <= |rows|
    ensures i <= k <= |rows|
    ensures forall j | i <= j < k :: RowOk(rows, j)
    ensures k < |rows| ==> !RowOk(rows, k)
    decreases |rows| - i
  {
    if i == |rows| || !RowOk(rows, i) then i else FirstBreakFrom(rows, i + 1)
  }

  /** The index of the first row whose link or hash is wrong; the length of a chain without one. */
  function FirstBreak(rows: seq<Row>): (k: nat)
    ensures k <= |rows|
    ensures forall j | 0 <= j < k :: RowOk(rows, j)
    ensures k < |rows| ==> !RowOk(rows, k)
  {
    FirstBreakFrom(rows, 0)
  }

  datatype Reason = BadLink | BadHash

  /** What verify_chain reports.  `Unparseable` is the exception json.loads raises on a damaged payload. */
  datatype Verdict = Valid(count: nat) | Broken(seqNo: int, reason: Reason) | Unparseable

  function VerdictOf(rows: seq<Row>): Verdict {
    var k := FirstBreak(rows);
    if k == |rows| then Valid(k)
    else if Payload(rows[k]).None? then Unparseable
    else if rows[k].prevHash != PrevOf(rows, k) then Broken(rows[k].seqNo, BadLink)
    else Broken(rows[k].seqNo, BadHash)
  }

  lemma {:induction false} FirstBreakIs(rows: seq<Row>, k: nat)
    requires k <= |rows| && (forall j | 0 <= j < k :: RowOk(rows, j)) && (k < |rows| ==> !RowOk(rows, k))
    ensures FirstBreak(rows) == k
  {
  }

  /** Each report is exact: no break at all, or rows before it that form a valid chain and a first row that
      fails in the way reported. */
  lemma {:induction false} VerdictExact(rows: seq<Row>)
    ensures VerdictOf(rows).Valid? <==> ChainOk(rows)
    ensures !ChainOk(rows) ==>
      exists k | 0 <= k < |rows| ::
        && ChainOk(rows[..k]) && !RowOk(rows, k)
        && (VerdictOf(rows) == Unparseable <==> Payload(rows[k]).None?)
        && (VerdictOf(rows).Broken? ==> VerdictOf(rows).seqNo == rows[k].seqNo)
        && (VerdictOf(rows).Broken? ==> (VerdictOf(rows).reason == BadLink <==> rows[k].prevHash != LastHash(rows[..k])))
  {
    var k := FirstBreak(rows);
    PrefixRows(rows, k);
    if ChainOk(rows) {
      FirstBreakIs(rows, |rows|);
    } else {
      assert k < |rows|;
      assert ChainOk(rows[..k]) && LastHash(rows[..k]) == PrevOf(rows, k);
    }
  }

  lemma {:induction false} PrefixRows(rows: seq<Row>, k: nat)
    requires k <= |rows|
    ensures forall i | 0 <= i < k :: RowOk(rows[..k], i) <==> RowOk(rows, i)
    ensures LastHash(rows[..k]) == PrevOf(rows, k)
  {
  }

  lemma {:induction false} PrefixOk(rows: seq<Row>, k: nat)
    requires k <= |rows| && ChainOk(rows)
    ensures ChainOk(rows[..k])
  {
    PrefixRows(rows, k);
  }

  /** Whatever is appended to a broken chain, the break stays where it is: appending cannot heal. */
  lemma {:induction false} AppendCannotHeal(rows: seq<Row>, more: seq<Row>)
    requires !ChainOk(rows)
    ensures FirstBreak(rows + more) == FirstBreak(rows) && VerdictOf(rows + more) == VerdictOf(rows)
  {
    var all, k := rows + more, FirstBreak(rows);
    assert k < |rows|;
    PrefixRows(all, |rows|);
    assert all[..|rows|] == rows;
    FirstBreakIs(all, k);
  }

  // ---------- Appending ----------

  /** The row that append writes after `rows`: the hash is of the value, the column holds its text. */
  function NewRow(rows: seq<Row>, seqNo: int, component: string, eventType: string, payload: Value, timestamp: string): Row {
    var prev := LastHash(rows);
    Row(seqNo, component, eventType, Print(SPACED, payload), timestamp, prev,
        ComputeHash(prev, component, eventType, payload, timestamp))
  }

  /** The stored text of a payload parses to the payload, so the row hashes to what append computed. */
  lemma {:induction false} StoredTextRehashes(rows: seq<Row>, seqNo: int, component: string, eventType: string,
                                              payload: Value, timestamp: string)
    requires WellFormed(payload)
    ensures var row := NewRow(rows, seqNo, component, eventType, payload, timestamp);
      Payload(row) == Some(payload) && HashOk(row)
  {
    JsonProofs.LoadsPrint(SPACED, payload, false);
  }

  lemma {:induction false} AppendKeepsChain(rows: seq<Row>, row: Row)
    requires ChainOk(rows) && row.prevHash == LastHash(rows) && HashOk(row)
    ensures ChainOk(rows + [row])
  {
    var all := rows + [row];
    assert all[..|rows|] == rows;
    PrefixRows(all, |rows|);
  }

  // ---------- What the hashes determine ----------

  /** `known` holds what is hashed for every row. */
  ghost predicate RowsKnown(known: iset<Bytes>, rows: seq<Row>) {
    forall i | 0 <= i < |rows| :: RowKnown(known, rows[i])
  }

  ghost predicate RowKnown(known: iset<Bytes>, row: Row) {
    Payload(row).Some? ==> Utf8(RowText(row)) in known
  }

  /** The content of two rows: payloads are compared as values, so neither layout nor key order matters. */
  predicate SameContent(a: Row, b: Row) {
    && a.component == b.component && a.eventType == b.eventType && a.timestamp == b.timestamp
    && Payload(a).Some? && Payload(b).Some? && SameValue(Payload(a).value, Payload(b).value)
  }

  predicate SameRecord(a: Row, b: Row) {
    SameContent(a, b) && a.prevHash == b.prevHash && a.recordHash == b.recordHash
  }

  predicate SameHistory(a: seq<Row>, b: seq<Row>) {
    |a| == |b| && forall i | 0 <= i < |a| :: SameRecord(a[i], b[i])
  }

  lemma {:induction false} HashInputWellFormed(prevHash: string, component: string, eventType: string, payload: Value,
                                               timestamp: string)
    requires WellFormed(payload)
    ensures WellFormed(HashInput(prevHash, component, eventType, payload, timestamp))
  {
    var v := HashInput(prevHash, component, eventType, payload, timestamp);
    assert |"component"| == |"timestamp"| && "component"[0] != "timestamp"[0];
    assert |"prev_hash"| == |"timestamp"| && "prev_hash"[0] != "timestamp"[0];
    assert |"component"| == |"prev_hash"| && "component"[0] != "prev_hash"[0];
  }

  lemma {:induction false} HashInputKeys(prevHash: string, component: string, eventType: string, payload: Value,
                                         timestamp: string)
    ensures DistinctKeys(HashInput(prevHash, component, eventType, payload, timestamp).fields)
  {
    var plain := HashInput(prevHash, component, eventType, Null, timestamp).fields;
    HashInputWellFormed(prevHash, component, eventType, Null, timestamp);
    var fields := HashInput(prevHash, component, eventType, payload, timestamp).fields;
    assert forall i | 0 <= i < |fields| :: fields[i].key == plain[i].key;
  }

  lemma {:induction false} EntrySame(x: seq<Field>, y: seq<Field>, i: nat)
    requires SameValue(Obj(x), Obj(y)) && DistinctKeys(y) && i < |x| && x[i].key == y[i].key
    ensures SameValue(x[i].value, y[i].value)
  {
    assert SameEntry(x[i], y);
    JsonProofs.LookupDistinct(y, i);
  }

  lemma {:induction false} SameHashInput(p: string, c: string, e: string, v: Value, t: string,
                                         p': string, c': string, e': string, v': Value, t': string)
    requires SameValue(HashInput(p, c, e, v, t), HashInput(p', c', e', v', t'))
    ensures p == p' && c == c' && e == e' && t == t' && SameValue(v, v')
  {
    HashInputKeys(p', c', e', v', t');
    var x, y := HashInput(p, c, e, v, t).fields, HashInput(p', c', e', v', t').fields;
    EntrySame(x, y, 0);
    EntrySame(x, y, 1);
    EntrySame(x, y, 2);
    EntrySame(x, y, 3);
    EntrySame(x, y, 4);
  }

  /** Rows that hash to one value have one content and one predecessor. */
  lemma {:induction false} HashDeterminesRow(known: iset<Bytes>, a: Row, b: Row)
    requires Ideal(known) && RowKnown(known, a) && RowKnown(known, b)
    requires HashOk(a) && HashOk(b) && a.recordHash == b.recordHash
    ensures SameRecord(a, b)
  {
    var v, w := Payload(a).value, Payload(b).value;
    HashTextInjective(known, RowText(a), RowText(b));
    assert RowText(a) == CanonicalRecord(a.prevHash, a.component, a.eventType, v, a.timestamp);
    assert RowText(b) == CanonicalRecord(b.prevHash, b.component, b.eventType, w, b.timestamp);
    PayloadWellFormed(a);
    PayloadWellFormed(b);
    HashInputWellFormed(a.prevHash, a.component, a.eventType, v, a.timestamp);
    HashInputWellFormed(b.prevHash, b.component, b.eventType, w, b.timestamp);
    JsonProofs.CanonicalIffSame(SPACED, HashInput(a.prevHash, a.component, a.eventType, v, a.timestamp),
                                HashInput(b.prevHash, b.component, b.eventType, w, b.timestamp));
    SameHashInput(a.prevHash, a.component, a.eventType, v, a.timestamp,
                  b.prevHash, b.component, b.eventType, w, b.timestamp);
  }

  lemma {:induction false} HashIsNotGenesis(known: iset<Bytes>, rows: seq<Row>, i: nat)
    requires Ideal(known) && RowsKnown(known, rows) && ChainOk(rows) && i < |rows|
    ensures rows[i].recordHash != GENESIS
  {
    assert RowOk(rows, i) && RowKnown(known, rows[i]);
    HashTextNotGenesis(known, RowText(rows[i]));
  }

  lemma {:induction false} KnownPrefix(known: iset<Bytes>, rows: seq<Row>, k: nat)
    requires k <= |rows| && RowsKnown(known, rows)
    ensures RowsKnown(known, rows[..k])
  {
  }

  /** A valid non-empty chain and the chain before its last row. */
  lemma {:induction false} LastRow(known: iset<Bytes>, rows: seq<Row>)
    requires Ideal(known) && RowsKnown(known, rows) && ChainOk(rows) && rows != []
    ensures var m := |rows| - 1;
      && HashOk(rows[m]) && RowKnown(known, rows[m]) && rows[m].recordHash != GENESIS
      && RowsKnown(known, rows[..m]) && ChainOk(rows[..m]) && rows[m].prevHash == LastHash(rows[..m])
  {
    var m := |rows| - 1;
    assert RowOk(rows, m);
    HashIsNotGenesis(known, rows, m);
    KnownPrefix(known, rows, m);
    PrefixOk(rows, m);
    PrefixRows(rows, m);
  }

  lemma {:induction false} ExtendHistory(a: seq<Row>, b: seq<Row>)
    requires a != [] && b != [] && SameHistory(a[..|a| - 1], b[..|b| - 1])
    requires SameRecord(a[|a| - 1], b[|b| - 1])
    ensures SameHistory(a, b)
  {
    var x, y := a[..|a| - 1], b[..|b| - 1];
    forall i | 0 <= i < |a| ensures SameRecord(a[i], b[i]) {
      if i < |a| - 1 {
        assert SameRecord(x[i], y[i]);
      }
    }
  }

  /** The last hash of a valid chain determines the whole of it: length, order, contents and hashes. */
  lemma {:induction false} TipDeterminesChain(known: iset<Bytes>, a: seq<Row>, b: seq<Row>)
    requires Ideal(known) && RowsKnown(known, a) && RowsKnown(known, b)
    requires ChainOk(a) && ChainOk(b) && LastHash(a) == LastHash(b)
    ensures SameHistory(a, b)
    decreases |a|
  {
    if a != [] {
      LastRow(known, a);
    }
    if b != [] {
      LastRow(known, b);
    }
    if a != [] {
      HashDeterminesRow(known, a[|a| - 1], b[|b| - 1]);
      TipDeterminesChain(known, a[..|a| - 1], b[..|b| - 1]);
      ExtendHistory(a, b);
    }
  }

  lemma {:induction false} TipDeterminesLength(known: iset<Bytes>, a: seq<Row>, b: seq<Row>)
    requires Ideal(known) && RowsKnown(known, a) && RowsKnown(known, b)
    requires ChainOk(a) && ChainOk(b) && LastHash(a) == LastHash(b)
    ensures |a| == |b|
  {
    TipDeterminesChain(known, a, b);
  }

  function Hashes(rows: seq<Row>): (hs: seq<string>)
    ensures |hs| == |rows| && forall i | 0 <= i < |hs| :: hs[i] == rows[i].recordHash
  {
    seq(|rows|, i requires 0 <= i < |rows| => rows[i].recordHash)
  }

  /** No two records of a valid chain have one hash. */
  lemma {:induction false} HashesDistinct(known: iset<Bytes>, rows: seq<Row>, i: nat, j: nat)
    requires Ideal(known) && RowsKnown(known, rows) && ChainOk(rows)
    requires i < |rows| && j < |rows| && rows[i].recordHash == rows[j].recordHash
    ensures i == j
  {
    PrefixOk(rows, i + 1);
    PrefixOk(rows, j + 1);
    KnownPrefix(known, rows, i + 1);
    KnownPrefix(known, rows, j + 1);
    TipDeterminesLength(known, rows[..i + 1], rows[..j + 1]);
  }

  /** The predecessor hash a row carries names its one place in the chain. */
  lemma {:induction false} PrevHashesDistinct(known: iset<Bytes>, rows: seq<Row>, i: nat, j: nat)
    requires Ideal(known) && RowsKnown(known, rows) && ChainOk(rows)
    requires i <= |rows| && j <= |rows| && PrevOf(rows, i) == PrevOf(rows, j)
    ensures i == j
  {
    if i > 0 { HashIsNotGenesis(known, rows, i - 1); }
    if j > 0 { HashIsNotGenesis(known, rows, j - 1); }
    if i > 0 && j > 0 { HashesDistinct(known, rows, i - 1, j - 1); }
  }

  // ---------- Tampering ----------

  /** A link of a valid chain that turns up anywhere but in its own place is where the chain breaks. */
  lemma {:induction false} MisplacedLinkBreaks(known: iset<Bytes>, rows: seq<Row>, other: seq<Row>, i: nat, j: nat)
    requires Ideal(known) && RowsKnown(known, rows) && ChainOk(rows)
    requires i < |other| && i <= |rows| && other[..i] == rows[..i]
    requires j < |rows| && j != i && other[i].prevHash == rows[j].prevHash
    ensures FirstBreak(other) == i && !RowOk(other, i) && other[i].prevHash != PrevOf(other, i)
  {
    PrefixRows(rows, i);
    PrefixRows(other, i);
    assert RowOk(rows, j);
    if other[i].prevHash == PrevOf(other, i) {
      PrevHashesDistinct(known, rows, i, j);
    }
    FirstBreakIs(other, i);
  }

  /** A record of a valid chain that turns up in another place. */
  lemma {:induction false} MisplacedRowBreaks(known: iset<Bytes>, rows: seq<Row>, other: seq<Row>, i: nat, j: nat)
    requires Ideal(known) && RowsKnown(known, rows) && ChainOk(rows)
    requires i < |other| && i <= |rows| && other[..i] == rows[..i]
    requires j < |rows| && j != i && other[i] == rows[j]
    ensures FirstBreak(other) == i && VerdictOf(other) == Broken(rows[j].seqNo, BadLink)
  {
    MisplacedLinkBreaks(known, rows, other, i, j);
    assert RowOk(rows, j);
  }

  /** Deleting records i..j, the last one excepted, breaks the chain at the record that closes the gap. */
  lemma {:induction false} DeletionBreaks(known: iset<Bytes>, rows: seq<Row>, i: nat, j: nat)
    requires Ideal(known) && RowsKnown(known, rows) && ChainOk(rows) && i < j < |rows|
    ensures FirstBreak(rows[..i] + rows[j..]) == i
  {
    MisplacedRowBreaks(known, rows, rows[..i] + rows[j..], i, j);
  }

  lemma {:induction false} SwapBreaks(known: iset<Bytes>, rows: seq<Row>, i: nat, j: nat)
    requires Ideal(known) && RowsKnown(known, rows) && ChainOk(rows) && i < j < |rows|
    ensures FirstBreak(rows[i := rows[j]][j := rows[i]]) == i
  {
    MisplacedRowBreaks(known, rows, rows[i := rows[j]][j := rows[i]], i, j);
  }

  /** Exchanging only the two hashes of records i and j, their contents staying in place. */
  lemma {:induction false} HashSwapBreaks(known: iset<Bytes>, rows: seq<Row>, i: nat, j: nat)
    requires Ideal(known) && RowsKnown(known, rows) && ChainOk(rows) && i < j < |rows|
    ensures
      var x := rows[i].(prevHash := rows[j].prevHash, recordHash := rows[j].recordHash);
      var y := rows[j].(prevHash := rows[i].prevHash, recordHash := rows[i].recordHash);
      FirstBreak(rows[i := x][j := y]) == i
  {
    var x := rows[i].(prevHash := rows[j].prevHash, recordHash := rows[j].recordHash);
    var y := rows[j].(prevHash := rows[i].prevHash, recordHash := rows[i].recordHash);
    MisplacedLinkBreaks(known, rows, rows[i := x][j := y], i, j);
  }

  /** Inserting a copy of record j before position k breaks the chain at the copy, or right after it when the
      copy stands in the record's own place. */
  lemma {:induction false} ReplayBreaks(known: iset<Bytes>, rows: seq<Row>, j: nat, k: nat)
    requires Ideal(known) && RowsKnown(known, rows) && ChainOk(rows) && j < |rows| && k <= |rows|
    ensures FirstBreak(rows[..k] + [rows[j]] + rows[k..]) == if j == k then k + 1 else k
  {
    var other := rows[..k] + [rows[j]] + rows[k..];
    if j == k {
      assert other[..k + 1] == rows[..k + 1];
      MisplacedRowBreaks(known, rows, other, k + 1, j);
    } else {
      MisplacedRowBreaks(known, rows, other, k, j);
    }
  }

  lemma {:induction false} EditedRows(rows: seq<Row>, i: nat, row: Row)
    requires ChainOk(rows) && i < |rows|
    ensures var other := rows[i := row];
      && (forall k | 0 <= k < |rows| && k != i && k != i + 1 :: RowOk(other, k))
      && (RowOk(other, i) <==> row.prevHash == rows[i].prevHash && HashOk(row))
      && (i + 1 < |rows| ==> (RowOk(other, i + 1) <==> row.recordHash == rows[i].recordHash))
  {
    var other := rows[i := row];
    assert RowOk(rows, i);
    forall k | 0 <= k < |rows| && k != i && k != i + 1 ensures RowOk(other, k) {
      assert RowOk(rows, k);
    }
    if i + 1 < |rows| {
      assert RowOk(rows, i + 1);
    }
  }

  lemma {:induction false} EditKeepingHash(known: iset<Bytes>, original: Row, row: Row)
    requires Ideal(known) && RowKnown(known, original) && RowKnown(known, row) && HashOk(original)
    requires !SameContent(original, row) && row.recordHash == original.recordHash
    ensures !HashOk(row)
  {
    if HashOk(row) {
      HashDeterminesRow(known, original, row);
    }
  }

  /** Replacing record i by one of other content goes unnoticed in the chain alone exactly when it is the last
      record and the new one keeps the link and hashes correctly; otherwise the break is at i or right after. */
  lemma {:induction false} EditDetected(known: iset<Bytes>, rows: seq<Row>, i: nat, row: Row)
    requires Ideal(known) && RowsKnown(known, rows) && RowKnown(known, row) && ChainOk(rows)
    requires i < |rows| && !SameContent(rows[i], row)
    ensures ChainOk(rows[i := row]) <==> i == |rows| - 1 && row.prevHash == rows[i].prevHash && HashOk(row)
    ensures row.recordHash == rows[i].recordHash ==> FirstBreak(rows[i := row]) == i
    ensures i < |rows| - 1 ==> FirstBreak(rows[i := row]) == i || FirstBreak(rows[i := row]) == i + 1
  {
    assert RowOk(rows, i) && RowKnown(known, rows[i]);
    if row.recordHash == rows[i].recordHash {
      EditKeepingHash(known, rows[i], row);
    }
    EditedRows(rows, i, row);
    EditVerdict(rows, rows[i := row], i, row.recordHash == rows[i].recordHash);
  }

  lemma {:induction false} EditVerdict(rows: seq<Row>, other: seq<Row>, i: nat, kept: bool)
    requires |other| == |rows| && i < |rows| && forall k | 0 <= k < |rows| && k != i && k != i + 1 :: RowOk(other, k)
    requires i + 1 < |rows| ==> (RowOk(other, i + 1) <==> kept)
    requires kept ==> !RowOk(other, i)
    ensures ChainOk(other) <==> i == |rows| - 1 && RowOk(other, i)
    ensures kept ==> FirstBreak(other) == i
    ensures i < |rows| - 1 ==> FirstBreak(other) == i || FirstBreak(other) == i + 1
  {
  }
}
