/**
 * The Merkle tree over the record hashes: levels, root, inclusion proofs and their verification.  Leaves and
 * nodes carry the prefixes of section 2.1 of RFC 6962, but levels are padded by repeating their last node.
 */
module Merkle {
  import opened Text
  import opened Sha

  const EMPTY_ROOT := GENESIS

  function LeafMessage(recordHash: string): Bytes {
    [0] + Utf8(recordHash)
  }

  function NodeMessage(left: Bytes, right: Bytes): Bytes {
    [1] + left + right
  }

  function LeafDigest(recordHash: string): Digest {
    SHA256(LeafMessage(recordHash))
  }

  function NodeDigest(left: Bytes, right: Bytes): Digest {
    SHA256(NodeMessage(left, right))
  }

  // ---------- The tree, node by node ----------

  /** How many nodes level k has over n leaves, not counting padding. */
  function Width(n: nat, k: nat): (w: nat)
    ensures n >= 1 ==> w >= 1
  {
    if k == 0 then n else (Width(n, k - 1) + 1) / 2
  }

  /** How often n must be halved, rounding up, to reach one. */
  function CeilLog2(n: nat): nat {
    if n <= 1 then 0 else 1 + CeilLog2((n + 1) / 2)
  }

  /** The level of the root: a single leaf, too, has a parent. */
  function Height(n: nat): (h: nat)
    ensures h >= 1
  {
    if n <= 1 then 1 else CeilLog2(n)
  }

  /** The node that stands at position j of a level of w nodes: padding repeats the last one. */
  function Clamp(j: nat, w: nat): (c: nat)
    requires w >= 1
    ensures c < w
  {
    if j < w then j else w - 1
  }

  function NodeAt(hashes: seq<string>, k: nat, j: nat): Digest
    requires j < Width(|hashes|, k)
    decreases k, 1
  {
    if k == 0 then LeafDigest(hashes[j]) else SHA256(MessageAt(hashes, k, j))
  }

  /** What is hashed to make node j of level k. */
  function MessageAt(hashes: seq<string>, k: nat, j: nat): Bytes
    requires 1 <= k && j < Width(|hashes|, k)
    decreases k, 0
  {
    var w := Width(|hashes|, k - 1);
    NodeMessage(Raw(NodeAt(hashes, k - 1, 2 * j)), Raw(NodeAt(hashes, k - 1, Clamp(2 * j + 1, w))))
  }

  function Root(hashes: seq<string>): string {
    if hashes == [] then EMPTY_ROOT
    else
      RootIsAlone(|hashes|);
      Hex(Raw(NodeAt(hashes, Height(|hashes|), 0)))
  }

  lemma {:induction false} WidthLog(n: nat, k: nat)
    requires n >= 1 && k <= CeilLog2(n)
    ensures CeilLog2(Width(n, k)) == CeilLog2(n) - k
  {
    if k > 0 {
      WidthLog(n, k - 1);
    }
  }

  lemma {:induction false} RootIsAlone(n: nat)
    requires n >= 1
    ensures Width(n, Height(n)) == 1
    ensures forall k | 1 <= k < Height(n) :: Width(n, k) > 1
  {
    if n > 1 {
      WidthLog(n, CeilLog2(n));
      forall k | 1 <= k < Height(n) ensures Width(n, k) > 1 {
        WidthLog(n, k);
      }
    }
  }

  // ---------- Receipts ----------

  datatype InclusionProof =
    InclusionProof(seqNo: int, leafHash: string, leafIndex: int, treeSize: int, root: string, path: seq<string>)

  /** idx ^ 1 */
  function Sibling(i: nat): nat {
    if i % 2 == 0 then i + 1 else i - 1
  }

  /** The siblings met on the way from node i of level k to the root. */
  function PathFrom(hashes: seq<string>, k: nat, i: nat): (path: seq<string>)
    requires k <= Height(|hashes|) && i < Width(|hashes|, k)
    ensures |path| == Height(|hashes|) - k
    decreases Height(|hashes|) - k
  {
    if k == Height(|hashes|) then []
    else
      [Hex(Raw(NodeAt(hashes, k, Clamp(Sibling(i), Width(|hashes|, k)))))] + PathFrom(hashes, k + 1, i / 2)
  }

  function ProofFor(hashes: seq<string>, i: nat): InclusionProof
    requires i < |hashes|
  {
    InclusionProof(0, hashes[i], i, |hashes|, Root(hashes), PathFrom(hashes, 0, i))
  }

  function StepMessage(node: Digest, i: nat, sibling: Bytes): Bytes {
    if i % 2 == 0 then NodeMessage(Raw(node), sibling) else NodeMessage(sibling, Raw(node))
  }

  /** The digest reached from `node` at position `i` along a path of hexadecimal siblings. */
  function Climb(node: Digest, i: nat, path: seq<string>): Option<Digest>
    decreases |path|
  {
    if path == [] then Some(node)
    else match FromHex(path[0])
      case None => None
      case Some(sibling) => Climb(SHA256(StepMessage(node, i, sibling)), i / 2, path[1..])
  }

  predicate Accepts(proof: InclusionProof, expectedRoot: Option<string>) {
    && 0 <= proof.leafIndex < proof.treeSize
    && (var end := Climb(LeafDigest(proof.leafHash), proof.leafIndex, proof.path);
        end.Some? && Hex(Raw(end.value)) == proof.root)
    && (expectedRoot.Some? ==> expectedRoot.value == proof.root)
  }

  // ---------- The loops of the source ----------

  /** How long level k is with its padding; only the root's level may be odd. */
  function PaddedWidth(n: nat, k: nat): nat {
    var w := Width(n, k);
    if k == Height(n) then 1 else w + w % 2
  }

  predicate IsLevel(hashes: seq<string>, k: nat, level: seq<Digest>)
    requires hashes != []
  {
    && |level| == PaddedWidth(|hashes|, k)
    && forall j | 0 <= j < |level| :: level[j] == NodeAt(hashes, k, Clamp(j, Width(|hashes|, k)))
  }

  lemma {:induction false} LevelLength(hashes: seq<string>, k: nat)
    requires hashes != [] && k <= Height(|hashes|)
    ensures PaddedWidth(|hashes|, k) == 1 <==> k == Height(|hashes|)
    ensures k < Height(|hashes|) ==> PaddedWidth(|hashes|, k) == 2 * Width(|hashes|, k + 1)
  {
    RootIsAlone(|hashes|);
  }

  method BuildLevels(hashes: seq<string>) returns (levels: seq<seq<Digest>>)
    ensures hashes == [] ==> levels == []
    ensures hashes != [] ==>
      && |levels| == Height(|hashes|) + 1
      && forall k | 0 <= k < |levels| :: IsLevel(hashes, k, levels[k])
  {
    if hashes == [] {
      return [];
    }
    var level: seq<Digest> := seq(|hashes|, i requires 0 <= i < |hashes| => LeafDigest(hashes[i]));
    if |level| % 2 == 1 {
      level := level + [level[|level| - 1]];
    }
    levels := [level];
    ghost var k := 0;
    LevelLength(hashes, 0);
    while |level| > 1
      invariant k <= Height(|hashes|) && |levels| == k + 1 && level == levels[k]
      invariant |level| == 1 <==> k == Height(|hashes|)
      invariant forall j | 0 <= j <= k :: IsLevel(hashes, j, levels[j])
      decreases Height(|hashes|) - k
    {
      level := NextLevel(hashes, k, level);
      levels := levels + [level];
      k := k + 1;
      LevelLength(hashes, k);
    }
  }

  method NextLevel(ghost hashes: seq<string>, ghost k: nat, level: seq<Digest>) returns (next: seq<Digest>)
    requires hashes != [] && k < Height(|hashes|) && IsLevel(hashes, k, level)
    ensures IsLevel(hashes, k + 1, next)
  {
    LevelLength(hashes, k);
    LevelLength(hashes, k + 1);
    next := seq(|level| / 2, i requires 0 <= i < |level| / 2 =>
      NodeDigest(Raw(level[2 * i]), Raw(level[2 * i + 1])));
    ghost var w := Width(|hashes|, k);
    assert |next| == Width(|hashes|, k + 1);
    forall i | 0 <= i < |next| ensures next[i] == NodeAt(hashes, k + 1, i) {
      assert level[2 * i] == NodeAt(hashes, k, 2 * i);
      assert level[2 * i + 1] == NodeAt(hashes, k, Clamp(2 * i + 1, w));
    }
    if |next| % 2 == 1 && |next| > 1 {
      next := next + [next[|next| - 1]];
    }
    RootIsAlone(|hashes|);
    assert |next| == PaddedWidth(|hashes|, k + 1);
  }

  lemma {:induction false} TopLevel(hashes: seq<string>, level: seq<Digest>)
    requires hashes != [] && IsLevel(hashes, Height(|hashes|), level)
    ensures |level| == 1 && Hex(Raw(level[0])) == Root(hashes)
  {
    RootIsAlone(|hashes|);
    LevelLength(hashes, Height(|hashes|));
  }

  method MerkleRoot(hashes: seq<string>) returns (root: string)
    ensures root == Root(hashes)
  {
    var levels: seq<seq<Digest>> := BuildLevels(hashes);
    if levels == [] {
      root := EMPTY_ROOT;
    } else {
      TopLevel(hashes, levels[|levels| - 1]);
      root := Hex(Raw(levels[|levels| - 1][0]));
    }
  }

  lemma {:induction false} SiblingInside(n: nat, k: nat, i: nat)
    requires n >= 1 && k < Height(n) && i < Width(n, k)
    ensures Sibling(i) < PaddedWidth(n, k) && i / 2 < Width(n, k + 1)
  {
  }

  /** The sibling is inside its level, and taking it is the next step of the path. */
  lemma {:induction false} PathStep(path: seq<string>, hashes: seq<string>, k: nat, level: seq<Digest>, i: nat)
    requires hashes != [] && k < Height(|hashes|) && i < Width(|hashes|, k) && IsLevel(hashes, k, level)
    ensures Sibling(i) < |level| && i / 2 < Width(|hashes|, k + 1)
    ensures path + PathFrom(hashes, k, i) == (path + [Hex(Raw(level[Sibling(i)]))]) + PathFrom(hashes, k + 1, i / 2)
  {
    SiblingInside(|hashes|, k, i);
    assert level[Sibling(i)] == NodeAt(hashes, k, Clamp(Sibling(i), Width(|hashes|, k)));
  }

  /** The siblings on the way up. */
  method CollectPath(ghost hashes: seq<string>, levels: seq<seq<Digest>>, leafIndex: nat) returns (path: seq<string>)
    requires leafIndex < |hashes| && |levels| == Height(|hashes|) + 1
    requires forall k | 0 <= k < |levels| :: IsLevel(hashes, k, levels[k])
    ensures path == PathFrom(hashes, 0, leafIndex)
  {
    path := [];
    var idx: nat := leafIndex;
    var k := 0;
    while k < |levels| - 1
      invariant 0 <= k <= Height(|hashes|) && idx < Width(|hashes|, k)
      invariant path + PathFrom(hashes, k, idx) == PathFrom(hashes, 0, leafIndex)
    {
      PathStep(path, hashes, k, levels[k], idx);
      var sibling := levels[k][Sibling(idx)];
      path := path + [Hex(Raw(sibling))];
      idx := idx / 2;
      k := k + 1;
    }
  }

  /** inclusion_proof: refused on an empty list or an index outside it, and otherwise the siblings of the leaf. */
  method BuildProof(hashes: seq<string>, leafIndex: int) returns (proof: Option<InclusionProof>)
    ensures proof.Some? <==> 0 <= leafIndex < |hashes|
    ensures proof.Some? ==> proof.value == ProofFor(hashes, leafIndex)
    ensures proof.Some? ==>
      && proof.value.leafHash == hashes[leafIndex] && proof.value.leafIndex == leafIndex
      && proof.value.treeSize == |hashes| && proof.value.root == Root(hashes)
  {
    if hashes == [] || !(0 <= leafIndex < |hashes|) {
      return None;
    }
    var levels: seq<seq<Digest>> := BuildLevels(hashes);
    var path := CollectPath(hashes, levels, leafIndex);
    TopLevel(hashes, levels[|levels| - 1]);
    proof := Some(InclusionProof(0, hashes[leafIndex], leafIndex, |hashes|, Hex(Raw(levels[|levels| - 1][0])), path));
  }

  method VerifyInclusion(proof: InclusionProof, expectedRoot: Option<string>) returns (ok: bool)
    ensures ok <==> Accepts(proof, expectedRoot)
  {
    if !(0 <= proof.leafIndex < proof.treeSize) {
      return false;
    }
    var node := LeafDigest(proof.leafHash);
    var idx: nat := proof.leafIndex;
    var k := 0;
    while k < |proof.path|
      invariant 0 <= k <= |proof.path|
      invariant Climb(LeafDigest(proof.leafHash), proof.leafIndex, proof.path) == Climb(node, idx, proof.path[k..])
    {
      match FromHex(proof.path[k]) {
        case None => return false;
        case Some(sibling) =>
          if idx % 2 == 0 {
            node := NodeDigest(Raw(node), sibling);
          } else {
            node := NodeDigest(sibling, Raw(node));
          }
      }
      idx := idx / 2;
      k := k + 1;
    }
    if Hex(Raw(node)) != proof.root {
      return false;
    }
    if expectedRoot.Some? && expectedRoot.value != proof.root {
      return false;
    }
    return true;
  }
}
