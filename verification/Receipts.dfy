/** Merkle receipts bound to the live chain. */
module Receipts {
  import opened Text
  import opened Sha
  import opened Merkle
  import opened MerkleProofs
  import opened Chain
  import opened Store

  /** An accepted receipt names its record's position.  Verification never compares leaf_index with seq, yet
      against the root of the first n records they agree, for every path and every claimed tree size. */
  lemma {:induction false} ReceiptPinsPosition(known: iset<Bytes>, rows: seq<Row>, n: nat, proof: InclusionProof)
    requires Ideal(known) && RowsKnown(known, rows) && ChainOk(rows) && 0 < n <= |rows|
    requires TreeKnown(known, Hashes(rows[..n])) && ReceiptKnown(known, proof)
    requires LiveAccepts(rows, proof, Some(Root(Hashes(rows[..n]))))
    requires proof.leafIndex < n
    ensures proof.leafIndex == proof.seqNo - 1
    ensures proof.leafHash == rows[proof.leafIndex].recordHash
  {
    var hashes := Hashes(rows[..n]);
    ReceiptSound(known, hashes, proof);
    var i, j := proof.leafIndex, proof.seqNo - 1;
    assert hashes[i] == rows[i].recordHash;
    HashesDistinct(known, rows, i, j);
  }

  /** Without the bound on leaf_index the record is still the right one: the live record at the receipt's seq
      is a record of the committed prefix. */
  lemma {:induction false} ReceiptNamesCommittedRecord(known: iset<Bytes>, rows: seq<Row>, n: nat, proof: InclusionProof)
    requires Ideal(known) && RowsKnown(known, rows) && ChainOk(rows) && 0 < n <= |rows|
    requires TreeKnown(known, Hashes(rows[..n])) && ReceiptKnown(known, proof)
    requires LiveAccepts(rows, proof, Some(Root(Hashes(rows[..n]))))
    ensures 1 <= proof.seqNo <= n
  {
    var hashes := Hashes(rows[..n]);
    ReceiptSound(known, hashes, proof);
    var i :| 0 <= i < |hashes| && hashes[i] == proof.leafHash;
    assert hashes[i] == rows[i].recordHash;
    HashesDistinct(known, rows, i, proof.seqNo - 1);
  }

  /** Among accepted receipts, leaf_index is the record's position exactly when it is inside the committed prefix. */
  lemma {:induction false} PositionExactly(known: iset<Bytes>, rows: seq<Row>, n: nat, proof: InclusionProof)
    requires Ideal(known) && RowsKnown(known, rows) && ChainOk(rows) && 0 < n <= |rows|
    requires TreeKnown(known, Hashes(rows[..n])) && ReceiptKnown(known, proof)
    requires LiveAccepts(rows, proof, Some(Root(Hashes(rows[..n]))))
    ensures proof.leafIndex == proof.seqNo - 1 <==> proof.leafIndex < n
  {
    ReceiptNamesCommittedRecord(known, rows, n, proof);
    if proof.leafIndex < n {
      ReceiptPinsPosition(known, rows, n, proof);
    }
  }

  /** And the other case does occur, for every table and every record: bits of leaf_index above the path are never
      read, so an honest receipt is accepted under every index that agrees with its own below them. */
  lemma {:induction false} ShiftedIndexAccepted(rows: seq<Row>, i: nat, t: nat, treeSize: int)
    requires i < |rows|
    ensures
      var honest := ProofFor(Hashes(rows), i).(seqNo := i + 1);
      var shifted := honest.(leafIndex := i + t * Pow2(|honest.path|), treeSize := treeSize);
      && (LiveAccepts(rows, shifted, Some(Root(Hashes(rows)))) <==> shifted.leafIndex < treeSize)
      && (t > 0 ==> shifted.leafIndex >= |rows| && shifted.leafIndex != shifted.seqNo - 1)
  {
    var hashes := Hashes(rows);
    var honest := ProofFor(hashes, i);
    var k := |honest.path|;
    HonestProofAccepted(hashes, i);
    ClimbIgnoresHighBits(LeafDigest(honest.leafHash), i, t, honest.path);
    ReceiptSize(hashes, i);
    assert Pow2(1) == 2;
    if t > 0 {
      AtLeastOnce(t, Pow2(k));
      CeilLog2Bounds(|hashes|);
    }
  }

  lemma {:induction false} AtLeastOnce(t: nat, size: nat)
    requires t > 0
    ensures t * size >= size
  {
  }

  /** So is, over an odd number of records, the receipt of the last one in the place of the padding. */
  lemma {:induction false} PaddingPositionAccepted(rows: seq<Row>)
    requires |rows| % 2 == 1
    ensures
      var hashes := Hashes(rows);
      var receipt := ProofFor(hashes + [hashes[|rows| - 1]], |rows|).(seqNo := |rows|);
      && LiveAccepts(rows, receipt, Some(Root(hashes)))
      && receipt.leafIndex != receipt.seqNo - 1
  {
    var hashes := Hashes(rows);
    var more := hashes + [hashes[|rows| - 1]];
    RepeatedLastSharesRoot(hashes);
    HonestProofAccepted(more, |rows|);
  }

  /** A receipt issued for record i certifies it: against the root it was issued under it is accepted on a live table
      exactly when the record there has the hash it had, and against no root otherwise. */
  lemma {:induction false} ReceiptHoldsExactly(rows: seq<Row>, i: nat, other: seq<Row>, expectedRoot: Option<string>)
    requires i < |rows|
    ensures
      var receipt := ProofFor(Hashes(rows), i).(seqNo := i + 1);
      var same := i < |other| && other[i].recordHash == rows[i].recordHash;
      && (LiveAccepts(other, receipt, Some(Root(Hashes(rows)))) <==> same)
      && (LiveAccepts(other, receipt, expectedRoot) ==> same)
  {
    HonestProofAccepted(Hashes(rows), i);
  }

  /** So it stays valid while, and only while, the record is the one that was committed. */
  lemma {:induction false} ReceiptCertifiesRecord(known: iset<Bytes>, rows: seq<Row>, i: nat, other: seq<Row>)
    requires Ideal(known) && RowsKnown(known, rows) && RowsKnown(known, other)
    requires i < |rows| && HashOk(rows[i]) && (i < |other| ==> HashOk(other[i]))
    ensures LiveAccepts(other, ProofFor(Hashes(rows), i).(seqNo := i + 1), Some(Root(Hashes(rows))))
       <==> i < |other| && SameRecord(rows[i], other[i])
  {
    ReceiptHoldsExactly(rows, i, other, None);
    if i < |other| && other[i].recordHash == rows[i].recordHash {
      assert RowKnown(known, rows[i]) && RowKnown(known, other[i]);
      HashDeterminesRow(known, rows[i], other[i]);
    }
  }

  /** In particular it outlives every append under that root. */
  lemma {:induction false} ReceiptSurvivesAppends(rows: seq<Row>, i: nat, more: seq<Row>)
    requires i < |rows|
    ensures
      var receipt := ProofFor(Hashes(rows), i).(seqNo := i + 1);
      && LiveAccepts(rows + more, receipt, Some(Root(Hashes(rows))))
      && (more == [] ==> LiveAccepts(rows + more, receipt, None))
  {
    ReceiptHoldsExactly(rows, i, rows + more, None);
    HonestProofAccepted(Hashes(rows), i);
    assert more == [] ==> rows + more == rows;
  }

  /** Against the live root, which verification takes when it is given none, the first append ends it, though the
      record has not changed. */
  lemma {:induction false} LiveRootReceiptEnds(known: iset<Bytes>, rows: seq<Row>, i: nat, more: seq<Row>)
    requires Ideal(known) && RowsKnown(known, rows + more) && ChainOk(rows + more) && i < |rows|
    requires TreeKnown(known, Hashes(rows)) && TreeKnown(known, Hashes(rows + more))
    ensures LiveAccepts(rows + more, ProofFor(Hashes(rows), i).(seqNo := i + 1), None) <==> more == []
  {
    ReceiptSurvivesAppends(rows, i, more);
    var all := rows + more;
    forall j, k | 0 <= j < k < |all| ensures Hashes(all)[j] != Hashes(all)[k] {
      if Hashes(all)[j] == Hashes(all)[k] {
        HashesDistinct(known, all, j, k);
      }
    }
    forall j | 0 <= j < |rows| ensures Hashes(rows)[j] == Hashes(all)[j] {
      assert all[j] == rows[j];
    }
    if Root(Hashes(rows)) == Root(Hashes(all)) {
      RootDeterminesDistinct(known, Hashes(rows), Hashes(all));
    }
  }
}
