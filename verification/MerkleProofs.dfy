/** What a Merkle receipt proves: completeness, soundness, size, and what a root says about the list under it. */
module MerkleProofs {
  import opened Text
  import opened Sha
  import opened Merkle

  // ---------- Honest proofs verify ----------

  lemma {:induction false} StepUp(hashes: seq<string>, k: nat, i: nat)
    requires i < Width(|hashes|, k) && i / 2 < Width(|hashes|, k + 1)
    ensures
      var sibling := NodeAt(hashes, k, Clamp(Sibling(i), Width(|hashes|, k)));
      MessageAt(hashes, k + 1, i / 2) == StepMessage(NodeAt(hashes, k, i), i, Raw(sibling))
  {
    if i % 2 == 0 {
      assert 2 * (i / 2) == i;
    } else {
      assert 2 * (i / 2) + 1 == i;
    }
  }

  lemma {:induction false} ClimbPath(hashes: seq<string>, k: nat, i: nat)
    requires hashes != [] && k <= Height(|hashes|) && i < Width(|hashes|, k)
    ensures Width(|hashes|, Height(|hashes|)) == 1
    ensures Climb(NodeAt(hashes, k, i), i, PathFrom(hashes, k, i)) == Some(NodeAt(hashes, Height(|hashes|), 0))
    decreases Height(|hashes|) - k
  {
    RootIsAlone(|hashes|);
    if k < Height(|hashes|) {
      SiblingInside(|hashes|, k, i);
      StepUp(hashes, k, i);
      ClimbPath(hashes, k + 1, i / 2);
      var path := PathFrom(hashes, k, i);
      assert path[1..] == PathFrom(hashes, k + 1, i / 2);
      FromHexHex(Raw(NodeAt(hashes, k, Clamp(Sibling(i), Width(|hashes|, k)))));
    }
  }

  /** The receipt made for any record of any list is accepted against the list's root. */
  lemma {:induction false} HonestProofAccepted(hashes: seq<string>, i: nat)
    requires i < |hashes|
    ensures Accepts(ProofFor(hashes, i), Some(Root(hashes)))
    ensures Accepts(ProofFor(hashes, i), None)
  {
    ClimbPath(hashes, 0, i);
  }

  // ---------- Size of a receipt ----------

  function Pow2(k: nat): nat {
    if k == 0 then 1 else 2 * Pow2(k - 1)
  }

  lemma {:induction false} CeilLog2Bounds(n: nat)
    requires n >= 1
    ensures n <= Pow2(CeilLog2(n))
    ensures n > 1 ==> Pow2(CeilLog2(n) - 1) < n
  {
    if n > 1 {
      CeilLog2Bounds((n + 1) / 2);
    }
  }

  /** A receipt for one of n records carries k siblings, where k is the least with n <= 2^k, but at least one. */
  lemma {:induction false} ReceiptSize(hashes: seq<string>, i: nat)
    requires i < |hashes|
    ensures var k := |ProofFor(hashes, i).path|;
      && |hashes| <= Pow2(k)
      && (if |hashes| == 1 then k == 1 else Pow2(k - 1) < |hashes|)
  {
    CeilLog2Bounds(|hashes|);
    assert Pow2(1) == 2;
  }

  // ---------- The messages a statement hashes ----------

  /** `known` holds every message hashed to build the tree. */
  ghost predicate TreeKnown(known: iset<Bytes>, hashes: seq<string>) {
    && (forall t | t in hashes :: LeafMessage(t) in known)
    && (forall k, j | 1 <= k <= Height(|hashes|) && 0 <= j < Width(|hashes|, k) :: MessageAt(hashes, k, j) in known)
  }

  ghost predicate ClimbKnown(known: iset<Bytes>, node: Digest, i: nat, path: seq<string>)
    decreases |path|
  {
    path != [] && FromHex(path[0]).Some? ==>
      var message := StepMessage(node, i, FromHex(path[0]).value);
      message in known && ClimbKnown(known, SHA256(message), i / 2, path[1..])
  }

  /** `known` holds every message hashed to check the receipt. */
  ghost predicate ReceiptKnown(known: iset<Bytes>, proof: InclusionProof) {
    && LeafMessage(proof.leafHash) in known
    && (proof.leafIndex >= 0 ==> ClimbKnown(known, LeafDigest(proof.leafHash), proof.leafIndex, proof.path))
  }

  lemma {:induction false} NodeMessageInjective(a: Bytes, b: Bytes, c: Bytes, d: Bytes)
    requires |a| == |c| || |b| == |d|
    requires NodeMessage(a, b) == NodeMessage(c, d)
    ensures a == c && b == d
  {
    assert |NodeMessage(a, b)| == |NodeMessage(c, d)|;
    assert a == NodeMessage(a, b)[1..1 + |a|] && c == NodeMessage(c, d)[1..1 + |c|];
    assert b == NodeMessage(a, b)[1 + |a|..] && d == NodeMessage(c, d)[1 + |c|..];
  }

  /** Domain separation: a leaf is never a node. */
  lemma {:induction false} LeafIsNoNode(known: iset<Bytes>, t: string, message: Bytes)
    requires Ideal(known) && LeafMessage(t) in known && message in known
    requires message != [] && message[0] == 1
    ensures LeafDigest(t) != SHA256(message)
  {
    assert LeafMessage(t)[0] != message[0];
  }

  lemma {:induction false} LeafDigestInjective(known: iset<Bytes>, s: string, t: string)
    requires Ideal(known) && LeafMessage(s) in known && LeafMessage(t) in known
    requires LeafDigest(s) == LeafDigest(t)
    ensures s == t
  {
    assert Utf8(s) == LeafMessage(s)[1..] && Utf8(t) == LeafMessage(t)[1..];
    Utf8Injective(s, t);
  }

  /** A step whose message is that of two digests started from one of them. */
  lemma {:induction false} StepBack(node: Digest, i: nat, sibling: Bytes, left: Digest, right: Digest)
    requires StepMessage(node, i, sibling) == NodeMessage(Raw(left), Raw(right))
    ensures node == if i % 2 == 0 then left else right
  {
    if i % 2 == 0 {
      NodeMessageInjective(Raw(node), sibling, Raw(left), Raw(right));
      RawInjective(node, left);
    } else {
      NodeMessageInjective(sibling, Raw(node), Raw(left), Raw(right));
      RawInjective(node, right);
    }
  }

  /** One step back: what hashes to a node of the next level is one of its children, and the one the index says. */
  lemma {:induction false} ClimbStep(known: iset<Bytes>, hashes: seq<string>, low: nat, node: Digest, i: nat, sibling: Bytes,
                                     p: nat)
      returns (start: nat)
    requires Ideal(known) && hashes != [] && TreeKnown(known, hashes) && low < Height(|hashes|) && p < Width(|hashes|, low + 1)
    requires StepMessage(node, i, sibling) in known && SHA256(StepMessage(node, i, sibling)) == NodeAt(hashes, low + 1, p)
    ensures start < Width(|hashes|, low) && node == NodeAt(hashes, low, start)
    ensures i < Width(|hashes|, low) && p == i / 2 ==> start == i
  {
    var w := Width(|hashes|, low);
    assert MessageAt(hashes, low + 1, p) in known;
    StepBack(node, i, sibling, NodeAt(hashes, low, 2 * p), NodeAt(hashes, low, Clamp(2 * p + 1, w)));
    start := if i % 2 == 0 then 2 * p else Clamp(2 * p + 1, w);
  }

  // ---------- Soundness ----------

  /** A climb that ends on node j of level k started on a node of level k - |path|; and it started at its
      claimed index if j is where that index leads. */
  lemma {:induction false} ClimbStartsInLevel(
      known: iset<Bytes>, hashes: seq<string>, k: nat, j: nat, node: Digest, i: nat, path: seq<string>)
      returns (start: nat)
    requires Ideal(known) && hashes != [] && TreeKnown(known, hashes) && ClimbKnown(known, node, i, path)
    requires |path| <= k <= Height(|hashes|) && j < Width(|hashes|, k)
    requires Climb(node, i, path) == Some(NodeAt(hashes, k, j))
    ensures start < Width(|hashes|, k - |path|) && node == NodeAt(hashes, k - |path|, start)
    ensures i < Width(|hashes|, k - |path|) && Shift(i, |path|) == j ==> start == i
    decreases |path|
  {
    if path == [] {
      start := j;
    } else {
      var sibling, low := FromHex(path[0]).value, k - |path|;
      var p := ClimbStartsInLevel(known, hashes, k, j, SHA256(StepMessage(node, i, sibling)), i / 2, path[1..]);
      assert k - |path[1..]| == low + 1;
      start := ClimbStep(known, hashes, low, node, i, sibling, p);
    }
  }

  /** i / 2^k */
  function Shift(i: nat, k: nat): nat {
    if k == 0 then i else Shift(i / 2, k - 1)
  }

  lemma {:induction false} ShiftStep(i: nat, k: nat)
    ensures Shift(i, k + 1) == Shift(i, k) / 2
  {
    if k > 0 {
      ShiftStep(i / 2, k - 1);
    }
  }

  lemma {:induction false} ShiftStaysInside(n: nat, i: nat, k: nat)
    requires i < n
    ensures Shift(i, k) < Width(n, k)
  {
    if k > 0 {
      ShiftStaysInside(n, i, k - 1);
      ShiftStep(i, k - 1);
    }
  }

  /** After at least one step a climb stands on a node, from which the rest of the path goes on. */
  lemma {:induction false} ClimbSkip(known: iset<Bytes>, node: Digest, i: nat, path: seq<string>, m: nat)
      returns (message: Bytes, at: nat)
    requires 1 <= m <= |path| && ClimbKnown(known, node, i, path) && Climb(node, i, path).Some?
    ensures Climb(SHA256(message), at, path[m..]) == Climb(node, i, path)
    ensures ClimbKnown(known, SHA256(message), at, path[m..])
    ensures message in known && message != [] && message[0] == 1
    decreases m
  {
    message, at := StepMessage(node, i, FromHex(path[0]).value), i / 2;
    if m > 1 {
      var next := SHA256(message);
      message, at := ClimbSkip(known, next, at, path[1..], m - 1);
      assert path[1..][m - 1..] == path[m..];
    }
  }

  /** Whatever path and tree size a receipt claims: accepted against the root of a list, it certifies a
      hash of that list, and at the index it names when that index is inside the list. */
  lemma {:induction false} ReceiptSound(known: iset<Bytes>, hashes: seq<string>, proof: InclusionProof)
    requires Ideal(known) && TreeKnown(known, hashes) && ReceiptKnown(known, proof)
    requires hashes != [] && Accepts(proof, Some(Root(hashes)))
    ensures proof.leafHash in hashes
    ensures proof.leafIndex < |hashes| ==> hashes[proof.leafIndex] == proof.leafHash
    ensures |proof.path| == Height(|hashes|)
  {
    var h, i := Height(|hashes|), proof.leafIndex;
    RootIsAlone(|hashes|);
    HexRawInjective(Climb(LeafDigest(proof.leafHash), i, proof.path).value, NodeAt(hashes, h, 0));
    ClimbLength(known, hashes, proof.leafHash, i, proof.path);
    var start := ClimbStartsInLevel(known, hashes, h, 0, LeafDigest(proof.leafHash), i, proof.path);
    assert hashes[start] in hashes;
    LeafDigestInjective(known, proof.leafHash, hashes[start]);
    if i < |hashes| {
      ShiftStaysInside(|hashes|, i, h);
    }
  }

  /** A climb from a leaf to the root has one step per level. */
  lemma {:induction false} ClimbLength(known: iset<Bytes>, hashes: seq<string>, t: string, i: nat, path: seq<string>)
    requires Ideal(known) && hashes != [] && TreeKnown(known, hashes)
    requires LeafMessage(t) in known && ClimbKnown(known, LeafDigest(t), i, path)
    requires Width(|hashes|, Height(|hashes|)) == 1
    requires Climb(LeafDigest(t), i, path) == Some(NodeAt(hashes, Height(|hashes|), 0))
    ensures |path| == Height(|hashes|)
  {
    if |path| < Height(|hashes|) {
      ShortClimbMisses(known, hashes, t, i, path);
    } else if |path| > Height(|hashes|) {
      LongClimbMisses(known, hashes, LeafDigest(t), i, path);
    }
  }

  lemma {:induction false} ShortClimbMisses(known: iset<Bytes>, hashes: seq<string>, t: string, i: nat, path: seq<string>)
    requires Ideal(known) && hashes != [] && TreeKnown(known, hashes)
    requires LeafMessage(t) in known && ClimbKnown(known, LeafDigest(t), i, path)
    requires Width(|hashes|, Height(|hashes|)) == 1 && |path| < Height(|hashes|)
    ensures Climb(LeafDigest(t), i, path) != Some(NodeAt(hashes, Height(|hashes|), 0))
  {
    var h, k := Height(|hashes|), Height(|hashes|) - |path|;
    if Climb(LeafDigest(t), i, path) == Some(NodeAt(hashes, h, 0)) {
      var start := ClimbStartsInLevel(known, hashes, h, 0, LeafDigest(t), i, path);
      NodeMessageShape(hashes, k, start);
      LeafIsNoNode(known, t, MessageAt(hashes, k, start));
    }
  }

  lemma {:induction false} NodeMessageShape(hashes: seq<string>, k: nat, j: nat)
    requires 1 <= k && j < Width(|hashes|, k)
    ensures MessageAt(hashes, k, j) != [] && MessageAt(hashes, k, j)[0] == 1
  {
  }

  lemma {:induction false} LongClimbMisses(known: iset<Bytes>, hashes: seq<string>, node: Digest, i: nat, path: seq<string>)
    requires Ideal(known) && hashes != [] && TreeKnown(known, hashes) && ClimbKnown(known, node, i, path)
    requires Width(|hashes|, Height(|hashes|)) == 1 && |path| > Height(|hashes|)
    ensures Climb(node, i, path) != Some(NodeAt(hashes, Height(|hashes|), 0))
  {
    var h, m := Height(|hashes|), |path| - Height(|hashes|);
    if Climb(node, i, path) == Some(NodeAt(hashes, h, 0)) {
      var message, at := ClimbSkip(known, node, i, path, m);
      var start := ClimbStartsInLevel(known, hashes, h, 0, SHA256(message), at, path[m..]);
      LeafOfListIsNoNode(known, hashes, start, message);
    }
  }

  lemma {:induction false} LeafOfListIsNoNode(known: iset<Bytes>, hashes: seq<string>, j: nat, message: Bytes)
    requires Ideal(known) && TreeKnown(known, hashes) && j < |hashes|
    requires message in known && message != [] && message[0] == 1
    ensures NodeAt(hashes, 0, j) != SHA256(message)
  {
    assert hashes[j] in hashes;
    LeafIsNoNode(known, hashes[j], message);
  }

  // ---------- What a root determines ----------

  /** Two trees of one size that agree on the node above leaf j of some level agree on the leaf. */
  lemma {:induction false} NodesInjective(known: iset<Bytes>, a: seq<string>, b: seq<string>, k: nat, j: nat)
    requires Ideal(known) && TreeKnown(known, a) && TreeKnown(known, b) && |a| == |b|
    requires k <= Height(|a|) && j < |a| && Shift(j, k) < Width(|a|, k)
    requires NodeAt(a, k, Shift(j, k)) == NodeAt(b, k, Shift(j, k))
    ensures LeafDigest(a[j]) == LeafDigest(b[j])
  {
    if k > 0 {
      ShiftStep(j, k - 1);
      ShiftStaysInside(|a|, j, k - 1);
      var c, p := Shift(j, k - 1), Shift(j, k);
      assert MessageAt(a, k, p) == MessageAt(b, k, p);
      SameChildren(a, b, k, p);
      assert c == 2 * p || c == Clamp(2 * p + 1, Width(|a|, k - 1));
      NodesInjective(known, a, b, k - 1, j);
    }
  }

  lemma {:induction false} SameChildren(a: seq<string>, b: seq<string>, k: nat, p: nat)
    requires 1 <= k && |a| == |b| && p < Width(|a|, k) && MessageAt(a, k, p) == MessageAt(b, k, p)
    ensures NodeAt(a, k - 1, 2 * p) == NodeAt(b, k - 1, 2 * p)
    ensures var c := Clamp(2 * p + 1, Width(|a|, k - 1)); NodeAt(a, k - 1, c) == NodeAt(b, k - 1, c)
  {
    var c := Clamp(2 * p + 1, Width(|a|, k - 1));
    NodeMessageInjective(Raw(NodeAt(a, k - 1, 2 * p)), Raw(NodeAt(a, k - 1, c)),
                         Raw(NodeAt(b, k - 1, 2 * p)), Raw(NodeAt(b, k - 1, c)));
    RawInjective(NodeAt(a, k - 1, 2 * p), NodeAt(b, k - 1, 2 * p));
    RawInjective(NodeAt(a, k - 1, c), NodeAt(b, k - 1, c));
  }

  /** Lists of one length with one root are equal. */
  lemma {:induction false} RootInjective(known: iset<Bytes>, a: seq<string>, b: seq<string>)
    requires Ideal(known) && TreeKnown(known, a) && TreeKnown(known, b)
    requires |a| == |b| && Root(a) == Root(b)
    ensures a == b
  {
    if a != [] {
      var h := Height(|a|);
      RootIsAlone(|a|);
      HexRawInjective(NodeAt(a, h, 0), NodeAt(b, h, 0));
      forall i | 0 <= i < |a| ensures a[i] == b[i] {
        ShiftStaysInside(|a|, i, h);
        NodesInjective(known, a, b, h, i);
        assert a[i] in a && b[i] in b;
        LeafDigestInjective(known, a[i], b[i]);
      }
    }
  }

  ghost predicate Distinct(hashes: seq<string>) {
    forall i, j | 0 <= i < j < |hashes| :: hashes[i] != hashes[j]
  }

  /** Checking an honest receipt hashes nothing that building the tree does not. */
  lemma {:induction false} HonestClimbKnown(known: iset<Bytes>, hashes: seq<string>, k: nat, i: nat)
    requires TreeKnown(known, hashes) && hashes != [] && k <= Height(|hashes|) && i < Width(|hashes|, k)
    ensures ClimbKnown(known, NodeAt(hashes, k, i), i, PathFrom(hashes, k, i))
    decreases Height(|hashes|) - k
  {
    if k < Height(|hashes|) {
      SiblingInside(|hashes|, k, i);
      StepUp(hashes, k, i);
      var next := k + 1;
      assert MessageAt(hashes, next, i / 2) in known;
      HonestClimbKnown(known, hashes, next, i / 2);
      var path := PathFrom(hashes, k, i);
      assert path[1..] == PathFrom(hashes, next, i / 2);
      FromHexHex(Raw(NodeAt(hashes, k, Clamp(Sibling(i), Width(|hashes|, k)))));
    }
  }

  lemma {:induction false} HonestReceiptKnown(known: iset<Bytes>, hashes: seq<string>, i: nat)
    requires TreeKnown(known, hashes) && i < |hashes|
    ensures ReceiptKnown(known, ProofFor(hashes, i))
  {
    assert hashes[i] in hashes;
    HonestClimbKnown(known, hashes, 0, i);
  }

  /** Every entry of a list is an entry of any non-empty list with its root. */
  lemma {:induction false} RootMembers(known: iset<Bytes>, a: seq<string>, b: seq<string>)
    requires Ideal(known) && TreeKnown(known, a) && TreeKnown(known, b)
    requires b != [] && Root(a) == Root(b)
    ensures forall t | t in a :: t in b
  {
    forall i | 0 <= i < |a| ensures a[i] in b {
      HonestProofAccepted(a, i);
      HonestReceiptKnown(known, a, i);
      ReceiptSound(known, b, ProofFor(a, i));
    }
  }

  lemma {:induction false} DistinctSize(a: seq<string>)
    requires Distinct(a)
    ensures |set t | t in a| == |a|
  {
    if a != [] {
      DistinctSize(a[1..]);
      assert (set t | t in a) == {a[0]} + set t | t in a[1..];
    }
  }

  /** Among lists without repetitions, as the hashes of a valid chain are, a root belongs to one list only,
      whatever the lengths. */
  lemma {:induction false} RootDeterminesDistinct(known: iset<Bytes>, a: seq<string>, b: seq<string>)
    requires Ideal(known) && TreeKnown(known, a) && TreeKnown(known, b)
    requires Distinct(a) && Distinct(b) && a != [] && b != [] && Root(a) == Root(b)
    ensures a == b
  {
    RootMembers(known, a, b);
    RootMembers(known, b, a);
    DistinctSize(a);
    DistinctSize(b);
    assert (set t | t in a) == (set t | t in b);
    RootInjective(known, a, b);
  }

  // ---------- Exactly when two lists share a root ----------

  /** The record hashes under node p of level k, with the padding written out: 2^k of them. */
  function Spread(hashes: seq<string>, k: nat, p: nat): (leaves: seq<string>)
    requires p < Width(|hashes|, k)
    ensures |leaves| == Pow2(k)
    decreases k
  {
    if k == 0 then [hashes[p]]
    else Spread(hashes, k - 1, 2 * p) + Spread(hashes, k - 1, Clamp(2 * p + 1, Width(|hashes|, k - 1)))
  }

  /** A list as its tree pads it, up to 2^height entries. */
  function PaddedList(hashes: seq<string>): seq<string>
    requires hashes != []
  {
    RootIsAlone(|hashes|);
    Spread(hashes, Height(|hashes|), 0)
  }

  lemma {:induction false} NodeNeedsMessage(known: iset<Bytes>, hashes: seq<string>, k: nat, p: nat)
    requires TreeKnown(known, hashes) && 1 <= k <= Height(|hashes|) && p < Width(|hashes|, k)
    ensures MessageAt(hashes, k, p) in known && MessageAt(hashes, k, p) != [] && MessageAt(hashes, k, p)[0] == 1
  {
    NodeMessageShape(hashes, k, p);
  }

  /** Two nodes with one digest stand on one level and have the same entries under them. */
  lemma {:induction false} NodeDeterminesSpread(known: iset<Bytes>, a: seq<string>, k: nat, p: nat, b: seq<string>, l: nat,
                                                q: nat)
    requires Ideal(known) && TreeKnown(known, a) && TreeKnown(known, b)
    requires k <= Height(|a|) && p < Width(|a|, k) && l <= Height(|b|) && q < Width(|b|, l)
    requires NodeAt(a, k, p) == NodeAt(b, l, q)
    ensures k == l && Spread(a, k, p) == Spread(b, l, q)
    decreases k
  {
    if k == 0 && l == 0 {
      assert a[p] in a && b[q] in b;
      LeafDigestInjective(known, a[p], b[q]);
    } else if k == 0 {
      NodeNeedsMessage(known, b, l, q);
      LeafOfListIsNoNode(known, a, p, MessageAt(b, l, q));
    } else if l == 0 {
      NodeNeedsMessage(known, a, k, p);
      LeafOfListIsNoNode(known, b, q, MessageAt(a, k, p));
    } else {
      NodeNeedsMessage(known, a, k, p);
      NodeNeedsMessage(known, b, l, q);
      var c, d := Clamp(2 * p + 1, Width(|a|, k - 1)), Clamp(2 * q + 1, Width(|b|, l - 1));
      SameMessageSameChildren(NodeAt(a, k - 1, 2 * p), NodeAt(a, k - 1, c), NodeAt(b, l - 1, 2 * q), NodeAt(b, l - 1, d));
      NodeDeterminesSpread(known, a, k - 1, 2 * p, b, l - 1, 2 * q);
      NodeDeterminesSpread(known, a, k - 1, c, b, l - 1, d);
    }
  }

  lemma {:induction false} SameMessageSameChildren(a: Digest, b: Digest, c: Digest, d: Digest)
    requires NodeMessage(Raw(a), Raw(b)) == NodeMessage(Raw(c), Raw(d))
    ensures a == c && b == d
  {
    NodeMessageInjective(Raw(a), Raw(b), Raw(c), Raw(d));
    RawInjective(a, c);
    RawInjective(b, d);
  }

  /** A node depends on nothing but its level and the entries under it. */
  lemma {:induction false} SpreadDeterminesNode(a: seq<string>, p: nat, b: seq<string>, q: nat, k: nat)
    requires p < Width(|a|, k) && q < Width(|b|, k) && Spread(a, k, p) == Spread(b, k, q)
    ensures NodeAt(a, k, p) == NodeAt(b, k, q)
    decreases k
  {
    if k == 0 {
      assert a[p] == Spread(a, 0, p)[0] == Spread(b, 0, q)[0] == b[q];
    } else {
      var c, d := Clamp(2 * p + 1, Width(|a|, k - 1)), Clamp(2 * q + 1, Width(|b|, k - 1));
      SameHalves(Spread(a, k - 1, 2 * p), Spread(a, k - 1, c), Spread(b, k - 1, 2 * q), Spread(b, k - 1, d));
      SpreadDeterminesNode(a, 2 * p, b, 2 * q, k - 1);
      SpreadDeterminesNode(a, c, b, d, k - 1);
    }
  }

  lemma {:induction false} SameHalves(a: seq<string>, b: seq<string>, c: seq<string>, d: seq<string>)
    requires a + b == c + d && |a| == |c|
    ensures a == c && b == d
  {
    assert a == (a + b)[..|a|] && c == (c + d)[..|c|];
    assert b == (a + b)[|a|..] && d == (c + d)[|c|..];
  }

  /** Two non-empty lists share a root exactly when their trees are equally high and pad them to one list. */
  lemma {:induction false} RootExactly(known: iset<Bytes>, a: seq<string>, b: seq<string>)
    requires Ideal(known) && TreeKnown(known, a) && TreeKnown(known, b) && a != [] && b != []
    ensures Root(a) == Root(b) <==> Height(|a|) == Height(|b|) && PaddedList(a) == PaddedList(b)
  {
    var h, g := Height(|a|), Height(|b|);
    RootIsAlone(|a|);
    RootIsAlone(|b|);
    if Root(a) == Root(b) {
      HexRawInjective(NodeAt(a, h, 0), NodeAt(b, g, 0));
      NodeDeterminesSpread(known, a, h, 0, b, g, 0);
    }
    if h == g && PaddedList(a) == PaddedList(b) {
      SpreadDeterminesNode(a, 0, b, 0, h);
    }
  }

  // ---------- The lists that collide ----------

  lemma {:induction false} WidthOfWhole(m: nat, k: nat)
    ensures Width(m * Pow2(k), k) == m
    decreases k
  {
    if k > 0 {
      assert m * Pow2(k) == 2 * m * Pow2(k - 1);
      WidthOfWhole(2 * m, k - 1);
    }
  }

  lemma {:induction false} WidthGrows(m: nat, n: nat, k: nat)
    requires m <= n
    ensures Width(m, k) <= Width(n, k)
  {
    if k > 0 {
      WidthGrows(m, n, k - 1);
    }
  }

  lemma {:induction false} SpreadHalves(hashes: seq<string>, k: nat, q: nat)
    requires k > 0 && q < Width(|hashes|, k)
    ensures 2 * q < Width(|hashes|, k - 1)
    ensures var w := Width(|hashes|, k - 1);
      Spread(hashes, k, q) == Spread(hashes, k - 1, 2 * q) + Spread(hashes, k - 1, if 2 * q + 1 < w then 2 * q + 1 else 2 * q)
  {
  }

  /** Where the blocks of 2^k entries are whole, nothing is padded. */
  lemma {:induction false} SpreadOfWhole(hashes: seq<string>, k: nat, q: nat)
    requires (q + 1) * Pow2(k) <= |hashes|
    ensures q < Width(|hashes|, k)
    ensures Spread(hashes, k, q) == hashes[q * Pow2(k)..(q + 1) * Pow2(k)]
    decreases k
  {
    WidthOfBlocks(|hashes|, k, q);
    if k == 0 {
      assert q * Pow2(0) == q && (q + 1) * Pow2(0) == q + 1;
    } else {
      var lo, mid, hi := Halves(|hashes|, k, q);
      SpreadOfWhole(hashes, k - 1, 2 * q);
      SpreadOfWhole(hashes, k - 1, 2 * q + 1);
      SpreadOfSlices(hashes, k, q, lo, mid, hi);
    }
  }

  lemma {:induction false} WidthOfBlocks(n: nat, k: nat, q: nat)
    requires (q + 1) * Pow2(k) <= n
    ensures q < Width(n, k)
  {
    WidthOfWhole(q + 1, k);
    WidthGrows((q + 1) * Pow2(k), n, k);
  }

  /** A block of 2^k entries and its halves. */
  lemma {:induction false} Halves(n: nat, k: nat, q: nat) returns (lo: nat, mid: nat, hi: nat)
    requires k > 0 && (q + 1) * Pow2(k) <= n
    ensures lo == q * Pow2(k) == (2 * q) * Pow2(k - 1)
    ensures mid == (2 * q + 1) * Pow2(k - 1)
    ensures hi == (q + 1) * Pow2(k) == (2 * q + 1 + 1) * Pow2(k - 1)
    ensures lo <= mid <= hi <= n
  {
    var half := Pow2(k - 1);
    lo, mid, hi := (2 * q) * half, (2 * q + 1) * half, (2 * q + 2) * half;
    assert q * (2 * half) == lo && (q + 1) * (2 * half) == hi && mid == lo + half && hi == mid + half;
  }

  lemma {:induction false} SpreadOfSlices(hashes: seq<string>, k: nat, q: nat, lo: nat, mid: nat, hi: nat)
    requires k > 0 && q < Width(|hashes|, k) && 2 * q + 1 < Width(|hashes|, k - 1) && lo <= mid <= hi <= |hashes|
    requires Spread(hashes, k - 1, 2 * q) == hashes[lo..mid] && Spread(hashes, k - 1, 2 * q + 1) == hashes[mid..hi]
    ensures Spread(hashes, k, q) == hashes[lo..hi]
  {
    SpreadHalves(hashes, k, q);
    SliceSplit(hashes, lo, mid, hi);
  }

  lemma {:induction false} SliceSplit(s: seq<string>, lo: nat, mid: nat, hi: nat)
    requires lo <= mid <= hi <= |s|
    ensures s[lo..hi] == s[lo..mid] + s[mid..hi]
  {
  }

  /** The list with its last 2^k entries written once more. */
  function WithLastBlock(hashes: seq<string>, k: nat): seq<string>
    requires Pow2(k) <= |hashes|
  {
    hashes + hashes[|hashes| - Pow2(k)..]
  }

  /** When the list is an odd number m of blocks of 2^k entries, the last of them written once more is what the
      padding above it already repeats. */
  lemma {:induction false} BlockSpreadsAlike(hashes: seq<string>, m: nat, k: nat, j: nat, p: nat)
    requires |hashes| == m * Pow2(k) && m % 2 == 1 && Pow2(k) <= |hashes| && j > k && p < Width(|hashes|, j)
    ensures Width(|hashes| + Pow2(k), j) == Width(|hashes|, j)
    ensures Spread(WithLastBlock(hashes, k), j, p) == Spread(hashes, j, p)
    decreases j
  {
    if j == k + 1 {
      BlockPairsAlike(hashes, m, k, p);
    } else {
      ChildrenInside(|hashes|, j, p);
      BlockSpreadsAlike(hashes, m, k, j - 1, 2 * p);
      BlockSpreadsAlike(hashes, m, k, j - 1, Clamp(2 * p + 1, Width(|hashes|, j - 1)));
      SpreadsFromChildren(hashes, WithLastBlock(hashes, k), j, p);
    }
  }

  lemma {:induction false} ChildrenInside(n: nat, j: nat, p: nat)
    requires j >= 1 && p < Width(n, j)
    ensures 2 * p < Width(n, j - 1)
  {
  }

  lemma {:induction false} SpreadsFromChildren(a: seq<string>, b: seq<string>, j: nat, p: nat)
    requires j >= 1 && p < Width(|a|, j) && Width(|b|, j - 1) == Width(|a|, j - 1)
    requires 2 * p < Width(|a|, j - 1) && Spread(b, j - 1, 2 * p) == Spread(a, j - 1, 2 * p)
    requires var q := Clamp(2 * p + 1, Width(|a|, j - 1)); Spread(b, j - 1, q) == Spread(a, j - 1, q)
    ensures Width(|b|, j) == Width(|a|, j) && Spread(b, j, p) == Spread(a, j, p)
  {
  }

  lemma {:induction false} BlockPairsAlike(hashes: seq<string>, m: nat, k: nat, p: nat)
    requires |hashes| == m * Pow2(k) && m % 2 == 1 && Pow2(k) <= |hashes| && p < Width(|hashes|, k + 1)
    ensures Width(|hashes| + Pow2(k), k + 1) == Width(|hashes|, k + 1)
    ensures Spread(WithLastBlock(hashes, k), k + 1, p) == Spread(hashes, k + 1, p)
  {
    BlocksOf(hashes, m, k);
    forall q | 0 <= q < m
      ensures q < Width(|WithLastBlock(hashes, k)|, k) && Spread(WithLastBlock(hashes, k), k, q) == Spread(hashes, k, q)
    {
      SameBlock(hashes, m, k, q);
    }
    LastBlock(hashes, m, k);
    PairsAlike(hashes, WithLastBlock(hashes, k), m, k, p);
  }

  /** Two levels of which the longer repeats the last node of the shorter, odd one have one level above them. */
  lemma {:induction false} PairsAlike(a: seq<string>, b: seq<string>, m: nat, k: nat, p: nat)
    requires Width(|a|, k) == m && Width(|b|, k) == m + 1 && m % 2 == 1 && p < Width(|a|, k + 1)
    requires (forall q | 0 <= q < m :: Spread(b, k, q) == Spread(a, k, q)) && Spread(b, k, m) == Spread(a, k, m - 1)
    ensures Width(|b|, k + 1) == Width(|a|, k + 1) && Spread(b, k + 1, p) == Spread(a, k + 1, p)
  {
    SpreadHalves(a, k + 1, p);
    SpreadHalves(b, k + 1, p);
  }

  lemma {:induction false} BlocksOf(hashes: seq<string>, m: nat, k: nat)
    requires |hashes| == m * Pow2(k) && Pow2(k) <= |hashes|
    ensures |WithLastBlock(hashes, k)| == (m + 1) * Pow2(k)
    ensures Width(|hashes|, k) == m && Width(|hashes| + Pow2(k), k) == m + 1
  {
    assert (m + 1) * Pow2(k) == m * Pow2(k) + Pow2(k);
    WidthOfWhole(m, k);
    WidthOfWhole(m + 1, k);
  }

  lemma {:induction false} SameBlock(hashes: seq<string>, m: nat, k: nat, q: nat)
    requires |hashes| == m * Pow2(k) && Pow2(k) <= |hashes| && q < m
    ensures q < Width(|hashes|, k) && q < Width(|WithLastBlock(hashes, k)|, k)
    ensures Spread(WithLastBlock(hashes, k), k, q) == Spread(hashes, k, q)
  {
    BlockInside(hashes, m, k, q);
    SpreadOfWhole(hashes, k, q);
    SpreadOfWhole(WithLastBlock(hashes, k), k, q);
  }

  lemma {:induction false} BlockInside(hashes: seq<string>, m: nat, k: nat, q: nat)
    requires |hashes| == m * Pow2(k) && Pow2(k) <= |hashes| && q < m
    ensures 0 <= q * Pow2(k) <= (q + 1) * Pow2(k) <= |hashes| <= |WithLastBlock(hashes, k)|
    ensures WithLastBlock(hashes, k)[q * Pow2(k)..(q + 1) * Pow2(k)] == hashes[q * Pow2(k)..(q + 1) * Pow2(k)]
  {
    Ordered(q + 1, m, Pow2(k));
    Ordered(q, q + 1, Pow2(k));
  }

  lemma {:induction false} LastBlock(hashes: seq<string>, m: nat, k: nat)
    requires |hashes| == m * Pow2(k) && Pow2(k) <= |hashes| && m >= 1
    ensures m - 1 < Width(|hashes|, k) && m < Width(|WithLastBlock(hashes, k)|, k)
    ensures Spread(WithLastBlock(hashes, k), k, m) == Spread(hashes, k, m - 1)
  {
    BlocksOf(hashes, m, k);
    var lo, hi := (m - 1) * Pow2(k), m * Pow2(k);
    BlockBefore(m, Pow2(k));
    SpreadOfWhole(hashes, k, m - 1);
    SpreadOfWhole(WithLastBlock(hashes, k), k, m);
    assert hashes[lo..hi] == hashes[|hashes| - Pow2(k)..];
    assert WithLastBlock(hashes, k)[hi..] == hashes[|hashes| - Pow2(k)..];
  }

  lemma {:induction false} BlockBefore(m: nat, size: nat)
    requires m >= 1
    ensures (m - 1) * size == m * size - size && (m - 1 + 1) * size == m * size
  {
  }

  lemma {:induction false} Ordered(a: nat, b: nat, c: nat)
    requires a <= b
    ensures a * c <= b * c
  {
  }

  lemma {:induction false} HeightOfBlocks(m: nat, k: nat)
    requires m % 2 == 1 && (m > 1 || k == 0)
    ensures Height(m * Pow2(k)) == Height((m + 1) * Pow2(k)) > k
  {
    if m == 1 {
      assert 1 * Pow2(0) == 1 && 2 * Pow2(0) == 2;
    } else {
      LogOfBlocks(m, k);
      LogOfBlocks(m + 1, k);
      assert (m + 1 + 1) / 2 == (m + 1) / 2;
    }
  }

  lemma {:induction false} LogOfBlocks(m: nat, k: nat)
    requires m >= 2
    ensures m * Pow2(k) >= 2 && CeilLog2(m * Pow2(k)) == CeilLog2(m) + k && CeilLog2(m) >= 1
    decreases k
  {
    if k > 0 {
      LogOfBlocks(m, k - 1);
      TwiceBlocks(m, k);
      LogOfTwice(m * Pow2(k - 1));
    } else {
      assert m * Pow2(0) == m;
    }
  }

  lemma {:induction false} TwiceBlocks(m: nat, k: nat)
    requires k > 0
    ensures m * Pow2(k) == 2 * (m * Pow2(k - 1))
  {
  }

  lemma {:induction false} LogOfTwice(n: nat)
    requires n >= 1
    ensures CeilLog2(2 * n) == 1 + CeilLog2(n)
  {
    assert (2 * n + 1) / 2 == n;
  }

  /** The collisions: a list of an odd number of blocks of 2^k entries and the same list with its last block
      written once more share a root.  With k = 0 these are the odd lists, a single entry included; with larger k
      they are even ones.  One block of more than one entry is not among them: its repetition is a level higher. */
  lemma {:induction false} RepeatedBlockSharesRoot(hashes: seq<string>, m: nat, k: nat)
    requires |hashes| == m * Pow2(k) && m % 2 == 1 && (m > 1 || k == 0) && Pow2(k) <= |hashes|
    ensures Root(WithLastBlock(hashes, k)) == Root(hashes)
  {
    var more, h := WithLastBlock(hashes, k), Height(|hashes|);
    BlocksOf(hashes, m, k);
    HeightOfBlocks(m, k);
    RootIsAlone(|hashes|);
    RootIsAlone(|more|);
    BlockSpreadsAlike(hashes, m, k, h, 0);
    SpreadDeterminesNode(more, 0, hashes, 0, h);
  }

  /** In particular an odd list and the same list with its last entry repeated. */
  lemma {:induction false} RepeatedLastSharesRoot(hashes: seq<string>)
    requires |hashes| % 2 == 1
    ensures Root(hashes) == Root(hashes + [hashes[|hashes| - 1]])
  {
    assert |hashes| * Pow2(0) == |hashes|;
    assert hashes[|hashes| - Pow2(0)..] == [hashes[|hashes| - 1]];
    RepeatedBlockSharesRoot(hashes, |hashes|, 0);
  }

  /** And six entries with the last two repeated. */
  lemma {:induction false} EvenListsShareRoot(a: string, b: string, c: string, d: string, e: string, f: string)
    ensures Root([a, b, c, d, e, f]) == Root([a, b, c, d, e, f, e, f])
  {
    var hashes := [a, b, c, d, e, f];
    assert Pow2(1) == 2;
    assert hashes[|hashes| - Pow2(1)..] == [e, f];
    RepeatedBlockSharesRoot(hashes, 3, 1);
    assert WithLastBlock(hashes, 1) == [a, b, c, d, e, f, e, f];
  }

  // ---------- What a receipt's index says beyond its path ----------

  /** A climb reads only as many bits of the index as the path has steps. */
  lemma {:induction false} ClimbIgnoresHighBits(node: Digest, i: nat, t: nat, path: seq<string>)
    ensures Climb(node, i + t * Pow2(|path|), path) == Climb(node, i, path)
    decreases |path|
  {
    if path != [] && FromHex(path[0]).Some? {
      var sibling, rest := FromHex(path[0]).value, path[1..];
      var half := t * Pow2(|rest|);
      assert t * Pow2(|path|) == 2 * half;
      assert (i + 2 * half) % 2 == i % 2 && (i + 2 * half) / 2 == i / 2 + half;
      ClimbIgnoresHighBits(SHA256(StepMessage(node, i, sibling)), i / 2, t, rest);
    }
  }

  /** Without an expected root a receipt must still climb to the root it names. */
  lemma {:induction false} OwnRootExpected(proof: InclusionProof, expectedRoot: Option<string>)
    ensures Accepts(proof, expectedRoot) <==>
      Accepts(proof, Some(proof.root)) && (expectedRoot == None || expectedRoot == Some(proof.root))
  {
  }

  // ---------- The root in bytes ----------

  /** The empty list: 64 zeros. */
  lemma {:induction false} EmptyRoot()
    ensures |Root([])| == 64 && forall i | 0 <= i < 64 :: Root([])[i] == '0'
  {
  }

  /** Two records: the digest of a one, the left leaf and the right leaf; a leaf is the digest of a zero and the text. */
  lemma {:induction false} PairRoot(s: string, t: string)
    ensures Root([s, t]) == Hex(Raw(SHA256([1] + Raw(SHA256([0] + Utf8(s))) + Raw(SHA256([0] + Utf8(t))))))
  {
    var hashes := [s, t];
    assert CeilLog2(2) == 1 && Width(2, 0) == 2 && Width(2, 1) == 1;
    assert NodeAt(hashes, 0, 0) == LeafDigest(s) && NodeAt(hashes, 0, 1) == LeafDigest(t);
    assert Root(hashes) == Hex(Raw(SHA256(MessageAt(hashes, 1, 0))));
  }

  lemma {:induction false} LogOfPower(k: nat)
    ensures CeilLog2(Pow2(k)) == k && Pow2(k) >= 1
  {
    if k > 0 {
      LogOfPower(k - 1);
      assert (Pow2(k) + 1) / 2 == Pow2(k - 1);
    }
  }

  /** Two whole trees side by side: the digest of a one, the left root and the right root. */
  lemma {:induction false} WholeRoots(a: seq<string>, b: seq<string>, k: nat, x: Bytes, y: Bytes)
    requires k >= 1 && |a| == |b| == Pow2(k) && FromHex(Root(a)) == Some(x) && FromHex(Root(b)) == Some(y)
    ensures Root(a + b) == Hex(Raw(SHA256([1] + x + y)))
  {
    WholeRoot(a, k, x);
    WholeRoot(b, k, y);
    WholeHalf(a + b, a, k, 0, 0);
    WholeHalf(a + b, b, k, 1, |a|);
    RootOverHalves(a + b, k);
  }

  lemma {:induction false} RootOverHalves(all: seq<string>, k: nat)
    requires k >= 1 && |all| == Pow2(k + 1)
    ensures Width(|all|, k) == 2
    ensures Root(all) == Hex(Raw(SHA256([1] + Raw(NodeAt(all, k, 0)) + Raw(NodeAt(all, k, 1)))))
  {
    LogOfPower(k + 1);
    RootIsAlone(|all|);
    WidthOfWhole(2, k);
    assert Root(all) == Hex(Raw(SHA256(MessageAt(all, k + 1, 0))));
  }

  lemma {:induction false} WholeRoot(a: seq<string>, k: nat, x: Bytes)
    requires k >= 1 && |a| == Pow2(k) && FromHex(Root(a)) == Some(x)
    ensures 0 < Width(|a|, k) && x == Raw(NodeAt(a, k, 0))
  {
    LogOfPower(k);
    assert |a| == 2 * Pow2(k - 1);
    LogOfPower(k - 1);
    assert Height(|a|) == k;
    RootIsAlone(|a|);
    FromHexHex(Raw(NodeAt(a, k, 0)));
  }

  lemma {:induction false} WholeHalf(all: seq<string>, half: seq<string>, k: nat, q: nat, lo: nat)
    requires |half| == Pow2(k) && |all| == 2 * Pow2(k) && q < 2 && lo == q * Pow2(k)
    requires all[lo..lo + |half|] == half
    ensures q < Width(|all|, k) && 0 < Width(|half|, k) && NodeAt(all, k, q) == NodeAt(half, k, 0)
  {
    assert (q + 1) * Pow2(k) == lo + |half|;
    SpreadOfWhole(all, k, q);
    SpreadOfWhole(half, k, 0);
    assert 0 * Pow2(k) == 0 && 1 * Pow2(k) == |half| && half[0..|half|] == half;
    SpreadDeterminesNode(all, q, half, 0, k);
  }

  /** And any list has the root of its padded one, which is whole. */
  lemma {:induction false} RootOfPadded(hashes: seq<string>)
    requires hashes != []
    ensures |PaddedList(hashes)| == Pow2(Height(|hashes|)) && Root(PaddedList(hashes)) == Root(hashes)
  {
    var padded, h := PaddedList(hashes), Height(|hashes|);
    RootIsAlone(|hashes|);
    LogOfPower(h);
    assert h >= 1 && Pow2(h) == 2 * Pow2(h - 1);
    LogOfPower(h - 1);
    RootIsAlone(|padded|);
    assert Height(|padded|) == h;
    assert (0 + 1) * Pow2(h) == |padded| && 0 * Pow2(h) == 0;
    SpreadOfWhole(padded, h, 0);
    assert padded[0..|padded|] == padded;
    SpreadDeterminesNode(padded, 0, hashes, 0, h);
  }
}
