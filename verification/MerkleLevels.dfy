/** The Merkle root level by level, as an independent description of what the loop of internal/assurance computes. */
module MerkleLevels {
  import opened Text
  import opened ArchiveFormat
  import opened MerkleTree

  /** One level up: neighbours hashed in pairs, left before right, and an odd last node with itself. */
  function Paired(h: Hash, leaves: seq<Bytes>): (r: seq<Bytes>)
    ensures |r| == (|leaves| + 1) / 2
  {
    seq((|leaves| + 1) / 2, i requires 0 <= i < (|leaves| + 1) / 2 =>
      h(leaves[2 * i] + if 2 * i + 1 < |leaves| then leaves[2 * i + 1] else leaves[2 * i]))
  }

  lemma PerfectOfHalves(h: Hash, left: seq<Bytes>, right: seq<Bytes>, k: nat)
    requires |left| == |right| == Pow2(k)
    ensures Perfect(h, left + right, k + 1) == h(Perfect(h, left, k) + Perfect(h, right, k))
  {
    assert (left + right)[..Pow2(k)] == left && (left + right)[Pow2(k)..] == right;
  }

  /** The other child of node i at height k + 1. */
  function Sibling(n: nat, k: nat, i: nat): nat {
    if 2 * i + 1 < Count(n, k) then 2 * i + 1 else 2 * i
  }

  /** Node i at height k, computed from the nodes below it. */
  function Node(h: Hash, leaves: seq<Bytes>, k: nat, i: nat): Bytes
    requires i < Count(|leaves|, k)
  {
    if k == 0 then leaves[i]
    else h(Node(h, leaves, k - 1, 2 * i) + Node(h, leaves, k - 1, Sibling(|leaves|, k - 1, i)))
  }

  lemma {:induction false} NodeIsPerfect(h: Hash, leaves: seq<Bytes>, k: nat, i: nat)
    requires i < Count(|leaves|, k)
    ensures Perfect(h, LeavesUnder(leaves, k, i), k) == Node(h, leaves, k, i)
  {
    if k > 0 {
      var right := Sibling(|leaves|, k - 1, i);
      NodeIsPerfect(h, leaves, k - 1, 2 * i);
      NodeIsPerfect(h, leaves, k - 1, right);
      PerfectOfHalves(h, LeavesUnder(leaves, k - 1, 2 * i), LeavesUnder(leaves, k - 1, right), k - 1);
    }
  }

  lemma NodeOfPair(h: Hash, leaves: seq<Bytes>, i: nat)
    requires i < (|leaves| + 1) / 2 == Count(|leaves|, 1)
    ensures Node(h, leaves, 1, i) == Paired(h, leaves)[i]
  {
  }

  lemma NodeAboveNodes(h: Hash, leaves: seq<Bytes>, k: nat, i: nat)
    requires i < Count(|leaves|, k + 1)
    ensures 2 * i < Count(|leaves|, k) && Sibling(|leaves|, k, i) < Count(|leaves|, k)
    ensures Node(h, leaves, k + 1, i) ==
            h(Node(h, leaves, k, 2 * i) + Node(h, leaves, k, Sibling(|leaves|, k, i)))
  {
  }

  lemma SiblingsAgree(n: nat, k: nat, i: nat)
    requires k > 0
    ensures Sibling((n + 1) / 2, k - 1, i) == Sibling(n, k, i)
  {
    CountShift(n, k - 1);
  }

  lemma {:induction false} NodesOfPairs(h: Hash, leaves: seq<Bytes>, pairs: seq<Bytes>, k: nat, i: nat)
    requires pairs == Paired(h, leaves) && i < Count(|leaves|, k + 1) && i < Count(|pairs|, k)
    ensures Node(h, leaves, k + 1, i) == Node(h, pairs, k, i)
  {
    if k == 0 {
      NodeOfPair(h, leaves, i);
    } else {
      SiblingsAgree(|leaves|, k, i);
      NodeAboveNodes(h, leaves, k, i);
      NodeAboveNodes(h, pairs, k - 1, i);
      NodesOfPairs(h, leaves, pairs, k - 1, 2 * i);
      NodesOfPairs(h, leaves, pairs, k - 1, Sibling(|leaves|, k, i));
    }
  }

  /** The root of one leaf is the leaf, and that of several is the root of their pairs. */
  lemma RootByLevels(h: Hash, leaves: seq<Bytes>)
    requires leaves != []
    ensures |leaves| == 1 ==> Root(h, leaves) == leaves[0]
    ensures |leaves| > 1 ==> Root(h, leaves) == Root(h, Paired(h, leaves))
  {
    CountAtHeight(|leaves|, 0);
    if |leaves| > 1 {
      CountAtHeight(|Paired(h, leaves)|, 0);
      NodesOfPairs(h, leaves, Paired(h, leaves), Height(|leaves|) - 1, 0);
      NodeIsPerfect(h, leaves, Height(|leaves|), 0);
      NodeIsPerfect(h, Paired(h, leaves), Height(|leaves|) - 1, 0);
    }
  }
}
