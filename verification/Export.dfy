/** The independent v1 exporter: its own row checks, in its own order. */
module Export {
  import opened Text
  import opened Sha
  import opened Chain
  import opened AnchorProofs

  /** The checks of _export_record; a row that fails one raises. */
  predicate ExportRowOk(row: Row) {
    && Payload(row).Some? && row.seqNo >= 1 && IsHash(row.prevHash) && IsHash(row.recordHash)
    && row.recordHash == HashText(RowText(row))
  }

  /** Row i of a chain without gaps. */
  predicate InPlace(rows: seq<Row>, i: nat)
    requires i < |rows|
  {
    RowOk(rows, i) && rows[i].seqNo == i + 1
  }

  lemma {:induction false} AllInPlace(rows: seq<Row>)
    ensures (forall i | 0 <= i < |rows| :: InPlace(rows, i)) <==> ChainOk(rows) && SeqsFromOne(rows)
  {
    if forall i | 0 <= i < |rows| :: InPlace(rows, i) {
      forall i | 0 <= i < |rows| ensures RowOk(rows, i) && rows[i].seqNo == i + 1 {
        assert InPlace(rows, i);
      }
    }
  }

  /** On top of a hash, the exporter's checks and the live verifier's come to the same: the hash shapes the
      exporter insists on are free. */
  lemma {:induction false} SameChecks(rows: seq<Row>, i: nat)
    requires i < |rows| && forall j | 0 <= j < i :: InPlace(rows, j)
    ensures InPlace(rows, i) <==> ExportRowOk(rows[i]) && rows[i].seqNo == i + 1 && rows[i].prevHash == PrevOf(rows, i)
  {
    assert IsHash(PrevOf(rows, i)) by {
      if i > 0 {
        assert InPlace(rows, i - 1);
      }
    }
  }

  /** _verify_rows: the record count and the head, or None for an exception.  It succeeds exactly on the non-empty
      valid chains whose seqs are 1, 2, 3, ... */
  method VerifyRows(rows: seq<Row>) returns (r: Option<(nat, string)>)
    ensures r.Some? <==> rows != [] && ChainOk(rows) && SeqsFromOne(rows)
    ensures r.Some? ==> r.value == (|rows|, LastHash(rows))
  {
    AllInPlace(rows);
    var expectedSeq, expectedPrev: string := 1, GENESIS;
    var i := 0;
    while i < |rows|
      invariant 0 <= i <= |rows| && expectedSeq == i + 1 && expectedPrev == PrevOf(rows, i)
      invariant forall j | 0 <= j < i :: InPlace(rows, j)
    {
      SameChecks(rows, i);
      if !ExportRowOk(rows[i]) {
        return None;
      }
      if rows[i].seqNo != expectedSeq {
        return None;
      }
      if rows[i].prevHash != expectedPrev {
        return None;
      }
      expectedSeq := expectedSeq + 1;
      expectedPrev := rows[i].recordHash;
      i := i + 1;
    }
    return if rows == [] then None else Some((|rows|, expectedPrev));
  }

  /** export_v1, as far as the migration needs it: the head of an export that succeeds, which it does on the
      chains that the live verifier calls valid, provided they are not empty and their seqs have no gap.  `disturbed` says that the
      database file changed while it was read. */
  function ExportHead(rows: seq<Row>, disturbed: bool): Option<string> {
    if rows != [] && VerdictOf(rows).Valid? && SeqsFromOne(rows) && !disturbed then Some(LastHash(rows)) else None
  }

  method ExportV1(rows: seq<Row>, disturbed: bool) returns (head: Option<string>)
    ensures head == ExportHead(rows, disturbed)
  {
    VerdictExact(rows);
    var r := VerifyRows(rows);
    if r.None? {
      return None;
    }
    if disturbed {
      return None;
    }
    return Some(r.value.1);
  }
}
