/**
 * The Merkle root of internal/assurance/assurance.go. The loop pairs the nodes of a level and pairs an odd last node
 * with itself. The reference is the perfect tree over the leaves expanded in the same way.
 */
module MerkleTree {
  import opened Text
  import opened ArchiveFormat

  /** SHA-256, of which only the length of its digests is used. */
  type Hash = Bytes -> Bytes

  const DIGEST_BYTES := 32

  ghost predicate IsHash(h: Hash) {
    forall x :: |h(x)| == DIGEST_BYTES
  }

  /** Two different inputs with the same digest. */
  datatype Collision = Collision(x: Bytes, y: Bytes)

  ghost predicate Collides(h: Hash, c: Collision) {
    c.x != c.y && h(c.x) == h(c.y)
  }

  function Pow2(k: nat): (p: nat)
    ensures p >= 1
  {
    if k == 0 then 1 else 2 * Pow2(k - 1)
  }

  /** The number of nodes at height k over n leaves. */
  function Count(n: nat, k: nat): nat {
    if k == 0 then n else (Count(n, k - 1) + 1) / 2
  }

  /** The height at which one node is left. */
  function Height(n: nat): nat
    requires n > 0
  {
    if n == 1 then 0 else 1 + Height((n + 1) / 2)
  }

  lemma {:induction false} CountShift(n: nat, k: nat)
    ensures Count((n + 1) / 2, k) == Count(n, k + 1)
  {
    if k > 0 {
      CountShift(n, k - 1);
    }
  }

  lemma {:induction false} CountAtHeight(n: nat, k: nat)
    requires n > 0
    ensures Count(n, Height(n)) == 1
    ensures k < Height(n) ==> Count(n, k) > 1
    decreases n
  {
    if n > 1 {
      CountAtHeight((n + 1) / 2, if k == 0 then 0 else k - 1);
      CountShift(n, Height(n) - 1);
      if k > 0 {
        CountShift(n, k - 1);
      }
    }
  }

  /** The leaves under node i at height k, an odd last node standing in for its missing sibling. */
  function LeavesUnder<T>(leaves: seq<T>, k: nat, i: nat): (r: seq<T>)
    requires i < Count(|leaves|, k)
    ensures |r| == Pow2(k)
  {
    if k == 0 then [leaves[i]]
    else
      LeavesUnder(leaves, k - 1, 2 * i) +
      LeavesUnder(leaves, k - 1, if 2 * i + 1 < Count(|leaves|, k - 1) then 2 * i + 1 else 2 * i)
  }

  function Expanded<T>(leaves: seq<T>): (r: seq<T>)
    requires leaves != []
    ensures |r| == Pow2(Height(|leaves|))
  {
    CountAtHeight(|leaves|, 0);
    LeavesUnder(leaves, Height(|leaves|), 0)
  }

  /** The root of a perfect binary tree. */
  function Perfect(h: Hash, s: seq<Bytes>, k: nat): Bytes
    requires |s| == Pow2(k)
  {
    if k == 0 then s[0] else h(Perfect(h, s[..Pow2(k - 1)], k - 1) + Perfect(h, s[Pow2(k - 1)..], k - 1))
  }

  /** What the root stands for: the perfect tree over the expanded leaves. */
  function Root(h: Hash, leaves: seq<Bytes>): Bytes
    requires leaves != []
  {
    Perfect(h, Expanded(leaves), Height(|leaves|))
  }

  ghost predicate IsLevel(h: Hash, leaves: seq<Bytes>, level: seq<Bytes>, k: nat) {
    && |level| == Count(|leaves|, k)
    && forall i :: 0 <= i < |level| ==> level[i] == Perfect(h, LeavesUnder(leaves, k, i), k)
  }

  lemma NodeAbove(h: Hash, leaves: seq<Bytes>, level: seq<Bytes>, k: nat, m: nat)
    requires IsLevel(h, leaves, level, k) && m < Count(|leaves|, k + 1)
    ensures 2 * m < |level|
    ensures Perfect(h, LeavesUnder(leaves, k + 1, m), k + 1) ==
            h(level[2 * m] + level[if 2 * m + 1 < |level| then 2 * m + 1 else 2 * m])
  {
  }

  /** One pass over a level: each node is paired with its neighbour, an odd last one with itself. */
  method NextLevel(h: Hash, level: seq<Bytes>, ghost leaves: seq<Bytes>, ghost k: nat) returns (next: seq<Bytes>)
    requires IsLevel(h, leaves, level, k)
    ensures IsLevel(h, leaves, next, k + 1)
  {
    next := [];
    var i := 0;
    while i < |level|
      invariant i == 2 * |next| && |next| <= Count(|leaves|, k + 1)
      invariant forall m :: 0 <= m < |next| ==> next[m] == Perfect(h, LeavesUnder(leaves, k + 1, m), k + 1)
    {
      var right := level[i];
      if i + 1 < |level| {
        right := level[i + 1];
      }
      NodeAbove(h, leaves, level, k, |next|);
      next := next + [h(level[i] + right)];
      i := i + 2;
    }
  }

  /** The loop of `MerkleRoot` over the leaf digests. */
  method RootOf(h: Hash, leaves: seq<Bytes>) returns (root: Bytes)
    requires leaves != []
    ensures root == Root(h, leaves)
  {
    var level := leaves;
    ghost var k := 0;
    CountAtHeight(|leaves|, 0);
    while |level| > 1
      invariant IsLevel(h, leaves, level, k) && k <= Height(|leaves|) && |level| > 0
      decreases |level|
    {
      CountAtHeight(|leaves|, k);
      level := NextLevel(h, level, leaves, k);
      k := k + 1;
    }
    CountAtHeight(|leaves|, k);
    root := level[0];
  }

  // ---------------------------------------------------------------- the expansion

  /** The first leaf under node i at height k. */
  function First(k: nat, i: nat): nat {
    if k == 0 then i else First(k - 1, 2 * i)
  }

  lemma {:induction false} FirstOfNext(k: nat, i: nat)
    ensures First(k, i + 1) == First(k, i) + Pow2(k)
    ensures First(k, 0) == 0
  {
    if k > 0 {
      FirstOfNext(k - 1, 2 * i);
      FirstOfNext(k - 1, 2 * i + 1);
    }
  }

  lemma {:induction false} CountCovers(n: nat, k: nat, i: nat)
    requires First(k, i) < n
    ensures i < Count(n, k)
  {
    if k > 0 {
      CountCovers(n, k - 1, 2 * i);
    }
  }

  lemma {:induction false} ExpandedPrefix<T>(leaves: seq<T>, k: nat, i: nat, p: nat)
    requires i < Count(|leaves|, k) && p < Pow2(k) && First(k, i) + p < |leaves|
    ensures LeavesUnder(leaves, k, i)[p] == leaves[First(k, i) + p]
  {
    if k > 0 {
      if p < Pow2(k - 1) {
        ExpandedPrefix(leaves, k - 1, 2 * i, p);
      } else {
        FirstOfNext(k - 1, 2 * i);
        CountCovers(|leaves|, k - 1, 2 * i + 1);
        ExpandedPrefix(leaves, k - 1, 2 * i + 1, p - Pow2(k - 1));
      }
    }
  }

  /** The leaves stand unchanged at the front of their expansion. */
  lemma LeavesLeadExpansion<T>(leaves: seq<T>)
    requires leaves != []
    ensures |leaves| <= |Expanded(leaves)| && Expanded(leaves)[..|leaves|] == leaves
  {
    var n, k := |leaves|, Height(|leaves|);
    CountAtHeight(n, 0);
    HeightCovers(n);
    FirstOfNext(k, 0);
    forall p: nat | p < n
      ensures Expanded(leaves)[p] == leaves[p]
    {
      ExpandedPrefix(leaves, k, 0, p);
    }
  }

  lemma {:induction false} HeightCovers(n: nat)
    requires n > 0
    ensures n <= Pow2(Height(n))
    decreases n
  {
    if n > 1 {
      HeightCovers((n + 1) / 2);
    }
  }

  /** Expansion only moves leaves about. */
  lemma {:induction false} ExpansionMaps<S, T>(f: S -> T, xs: seq<S>, ys: seq<T>, k: nat, i: nat)
    requires |xs| == |ys| && (forall j :: 0 <= j < |xs| ==> ys[j] == f(xs[j])) && i < Count(|xs|, k)
    ensures forall p :: 0 <= p < Pow2(k) ==> LeavesUnder(ys, k, i)[p] == f(LeavesUnder(xs, k, i)[p])
  {
    if k > 0 {
      ExpansionMaps(f, xs, ys, k - 1, 2 * i);
      if 2 * i + 1 < Count(|xs|, k - 1) {
        ExpansionMaps(f, xs, ys, k - 1, 2 * i + 1);
      }
    }
  }

  lemma {:induction false} CountOfNext(n: nat, k: nat)
    requires n % 2 == 1 && k > 0
    ensures Count(n + 1, k) == Count(n, k)
  {
    if k > 1 {
      CountOfNext(n, k - 1);
    }
  }

  /** Above the leaves, an odd list and the list with its last element repeated have the same nodes. */
  lemma {:induction false} RepeatedLast<T>(leaves: seq<T>, more: seq<T>, k: nat, i: nat)
    requires |leaves| % 2 == 1 && k > 0 && more == leaves + [leaves[|leaves| - 1]] && i < Count(|leaves|, k)
    ensures i < Count(|more|, k) && LeavesUnder(more, k, i) == LeavesUnder(leaves, k, i)
  {
    CountOfNext(|leaves|, k);
    if k > 1 {
      CountOfNext(|leaves|, k - 1);
      RepeatedLast(leaves, more, k - 1, 2 * i);
      if 2 * i + 1 < Count(|leaves|, k - 1) {
        RepeatedLast(leaves, more, k - 1, 2 * i + 1);
      }
    } else {
      RepeatedPair(leaves, more, i);
    }
  }

  lemma RepeatedPair<T>(leaves: seq<T>, more: seq<T>, i: nat)
    requires |leaves| % 2 == 1 && more == leaves + [leaves[|leaves| - 1]] && 2 * i < |leaves|
    ensures Count(|leaves|, 1) == Count(|more|, 1) > i
    ensures LeavesUnder(more, 1, i) == LeavesUnder(leaves, 1, i)
  {
  }

  lemma HeightOfNext(n: nat)
    requires n % 2 == 1 && n >= 3
    ensures Height(n + 1) == Height(n) > 0
  {
    assert (n + 1) / 2 == (n + 2) / 2;
  }

  lemma ExpansionOfOdd<T>(leaves: seq<T>, more: seq<T>)
    requires |leaves| % 2 == 1 && |leaves| >= 3 && more == leaves + [leaves[|leaves| - 1]]
    ensures Height(|more|) == Height(|leaves|) && Expanded(more) == Expanded(leaves)
  {
    CountAtHeight(|leaves|, 0);
    HeightOfNext(|leaves|);
    RepeatedLast(leaves, more, Height(|leaves|), 0);
  }

  lemma SameExpansionSameRoot(h: Hash, xs: seq<Bytes>, ys: seq<Bytes>)
    requires xs != [] && ys != [] && Expanded(xs) == Expanded(ys)
    ensures Root(h, xs) == Root(h, ys)
  {
    Pow2Injective(Height(|xs|), Height(|ys|));
  }

  /**
   * The root does not fix the number of leaves: repeating the last of an odd number of at least three leaves leaves it
   * as it is.
   */
  lemma OddListsAreAmbiguous(h: Hash, leaves: seq<Bytes>)
    requires |leaves| % 2 == 1 && |leaves| >= 3
    ensures Root(h, leaves + [leaves[|leaves| - 1]]) == Root(h, leaves)
  {
    ExpansionOfOdd(leaves, leaves + [leaves[|leaves| - 1]]);
    SameExpansionSameRoot(h, leaves, leaves + [leaves[|leaves| - 1]]);
  }

  // ---------------------------------------------------------------- binding

  ghost predicate Digests(s: seq<Bytes>) {
    forall i :: 0 <= i < |s| ==> |s[i]| == DIGEST_BYTES
  }

  lemma PerfectIsDigest(h: Hash, s: seq<Bytes>, k: nat)
    requires IsHash(h) && Digests(s) && |s| == Pow2(k)
    ensures |Perfect(h, s, k)| == DIGEST_BYTES
  {
  }

  lemma HalvesAreDigests(s: seq<Bytes>, m: nat)
    requires Digests(s) && m <= |s|
    ensures Digests(s[..m]) && Digests(s[m..])
  {
  }

  /** Two perfect trees of the same height with the same root have the same leaves, or show a collision. */
  lemma {:induction false} PerfectBinds(h: Hash, s: seq<Bytes>, t: seq<Bytes>, k: nat) returns (c: Option<Collision>)
    requires IsHash(h) && Digests(s) && Digests(t) && |s| == |t| == Pow2(k)
    requires Perfect(h, s, k) == Perfect(h, t, k)
    ensures if c == None then s == t else Collides(h, c.value)
  {
    if k == 0 { return None; }
    c := TopBinds(h, s, t, k);
    if c == None {
      var m := Pow2(k - 1);
      HalvesAreDigests(s, m);
      HalvesAreDigests(t, m);
      c := PerfectBinds(h, s[..m], t[..m], k - 1);
      if c == None {
        c := PerfectBinds(h, s[m..], t[m..], k - 1);
        assert s == s[..m] + s[m..] && t == t[..m] + t[m..];
      }
    }
  }

  /** Two equal roots have equal subtrees on either side, or are themselves a collision. */
  lemma TopBinds(h: Hash, s: seq<Bytes>, t: seq<Bytes>, k: nat) returns (c: Option<Collision>)
    requires IsHash(h) && Digests(s) && Digests(t) && |s| == |t| == Pow2(k) && k > 0
    requires Perfect(h, s, k) == Perfect(h, t, k)
    ensures var m := Pow2(k - 1);
            if c.Some? then Collides(h, c.value)
            else && Perfect(h, s[..m], k - 1) == Perfect(h, t[..m], k - 1)
                 && Perfect(h, s[m..], k - 1) == Perfect(h, t[m..], k - 1)
  {
    var m := Pow2(k - 1);
    var x := Perfect(h, s[..m], k - 1) + Perfect(h, s[m..], k - 1);
    var y := Perfect(h, t[..m], k - 1) + Perfect(h, t[m..], k - 1);
    if x != y { return Some(Collision(x, y)); }
    HalvesAreDigests(s, m);
    HalvesAreDigests(t, m);
    SplitDigests(h, s, t, k);
    return None;
  }

  lemma SplitDigests(h: Hash, s: seq<Bytes>, t: seq<Bytes>, k: nat)
    requires IsHash(h) && Digests(s) && Digests(t) && |s| == |t| == Pow2(k) && k > 0
    requires var m := Pow2(k - 1);
             Perfect(h, s[..m], k - 1) + Perfect(h, s[m..], k - 1) ==
             Perfect(h, t[..m], k - 1) + Perfect(h, t[m..], k - 1)
    ensures var m := Pow2(k - 1);
            && Perfect(h, s[..m], k - 1) == Perfect(h, t[..m], k - 1)
            && Perfect(h, s[m..], k - 1) == Perfect(h, t[m..], k - 1)
  {
    var m := Pow2(k - 1);
    PerfectIsDigest(h, s[..m], k - 1);
    PerfectIsDigest(h, t[..m], k - 1);
    var sl, tl := Perfect(h, s[..m], k - 1), Perfect(h, t[..m], k - 1);
    var sr, tr := Perfect(h, s[m..], k - 1), Perfect(h, t[m..], k - 1);
    assert sl == (sl + sr)[..DIGEST_BYTES] == (tl + tr)[..DIGEST_BYTES] == tl;
    assert sr == (sl + sr)[DIGEST_BYTES..] == (tl + tr)[DIGEST_BYTES..] == tr;
  }

  /** The digests of inputs none of which is as long as two digests, so that no leaf looks like an inner node. */
  ghost predicate LeavesOf(h: Hash, inputs: seq<Bytes>, s: seq<Bytes>) {
    && |s| == |inputs|
    && forall i :: 0 <= i < |s| ==> s[i] == h(inputs[i]) && |inputs[i]| != 2 * DIGEST_BYTES
  }

  /** Perfect trees of different heights with the same root always show a collision. */
  lemma {:induction false} HeightsBind(h: Hash, inputs: seq<Bytes>, s: seq<Bytes>, k: nat, t: seq<Bytes>, m: nat)
    returns (c: Collision)
    requires IsHash(h) && LeavesOf(h, inputs, s) && Digests(s) && Digests(t)
    requires |s| == Pow2(k) && |t| == Pow2(m) && k < m && Perfect(h, s, k) == Perfect(h, t, m)
    ensures Collides(h, c)
  {
    var b := Pow2(m - 1);
    HalvesAreDigests(t, b);
    PerfectIsDigest(h, t[..b], m - 1);
    PerfectIsDigest(h, t[b..], m - 1);
    var tl, tr := Perfect(h, t[..b], m - 1), Perfect(h, t[b..], m - 1);
    if k == 0 { return Collision(inputs[0], tl + tr); }
    var a := Pow2(k - 1);
    HalvesAreDigests(s, a);
    PerfectIsDigest(h, s[..a], k - 1);
    var sl, sr := Perfect(h, s[..a], k - 1), Perfect(h, s[a..], k - 1);
    if sl + sr != tl + tr { return Collision(sl + sr, tl + tr); }
    assert sl == (sl + sr)[..DIGEST_BYTES] == (tl + tr)[..DIGEST_BYTES] == tl;
    c := HeightsBind(h, inputs[..a], s[..a], k - 1, t[..b], m - 1);
  }

  function HashAll(h: Hash, inputs: seq<Bytes>): seq<Bytes> {
    seq(|inputs|, i requires 0 <= i < |inputs| => h(inputs[i]))
  }

  /** The root of the digests of the inputs. */
  function RootOfInputs(h: Hash, inputs: seq<Bytes>): Bytes
    requires inputs != []
  {
    Root(h, HashAll(h, inputs))
  }

  predicate NoneLooksInner(inputs: seq<Bytes>) {
    forall i :: 0 <= i < |inputs| ==> |inputs[i]| != 2 * DIGEST_BYTES
  }

  lemma ExpandedInputs(h: Hash, inputs: seq<Bytes>)
    requires IsHash(h) && inputs != []
    ensures Expanded(HashAll(h, inputs)) == HashAll(h, Expanded(inputs))
    ensures Digests(Expanded(HashAll(h, inputs)))
  {
    CountAtHeight(|inputs|, 0);
    ExpansionMaps(h, inputs, HashAll(h, inputs), Height(|inputs|), 0);
  }

  lemma {:induction false} ExpansionKeepsLengths(inputs: seq<Bytes>, k: nat, i: nat)
    requires NoneLooksInner(inputs) && i < Count(|inputs|, k)
    ensures NoneLooksInner(LeavesUnder(inputs, k, i))
  {
    if k > 0 {
      ExpansionKeepsLengths(inputs, k - 1, 2 * i);
      if 2 * i + 1 < Count(|inputs|, k - 1) {
        ExpansionKeepsLengths(inputs, k - 1, 2 * i + 1);
      }
    }
  }

  /** Equal digests of different inputs are a collision. */
  lemma {:induction false} HashesBind(h: Hash, xs: seq<Bytes>, ys: seq<Bytes>) returns (c: Option<Collision>)
    requires |xs| == |ys| && HashAll(h, xs) == HashAll(h, ys)
    ensures if c == None then xs == ys else Collides(h, c.value)
  {
    if exists i :: 0 <= i < |xs| && xs[i] != ys[i] {
      var i :| 0 <= i < |xs| && xs[i] != ys[i];
      assert HashAll(h, xs)[i] == HashAll(h, ys)[i];
      return Some(Collision(xs[i], ys[i]));
    }
    return None;
  }

  /**
   * Binding, for lists of any lengths: equal roots give the same expansion of the inputs, or two different inputs with
   * the same digest. Lists of equal length are then equal themselves.
   */
  lemma MerkleBinds(h: Hash, xs: seq<Bytes>, ys: seq<Bytes>) returns (c: Option<Collision>)
    requires IsHash(h) && xs != [] && ys != [] && NoneLooksInner(xs) && NoneLooksInner(ys)
    requires RootOfInputs(h, xs) == RootOfInputs(h, ys)
    ensures if c.Some? then Collides(h, c.value)
            else Expanded(xs) == Expanded(ys) && (|xs| == |ys| ==> xs == ys)
  {
    ExpandedInputs(h, xs);
    ExpandedInputs(h, ys);
    var s, t := HashAll(h, Expanded(xs)), HashAll(h, Expanded(ys));
    var k, m := Height(|xs|), Height(|ys|);
    CountAtHeight(|xs|, 0);
    CountAtHeight(|ys|, 0);
    ExpansionKeepsLengths(xs, k, 0);
    ExpansionKeepsLengths(ys, m, 0);
    if k < m {
      var found := HeightsBind(h, Expanded(xs), s, k, t, m);
      return Some(found);
    }
    if m < k {
      var found := HeightsBind(h, Expanded(ys), t, m, s, k);
      return Some(found);
    }
    c := PerfectBinds(h, s, t, k);
    if c == None {
      c := HashesBind(h, Expanded(xs), Expanded(ys));
      LeavesLeadExpansion(xs);
      LeavesLeadExpansion(ys);
    }
  }

  /** Conversely, the root depends on nothing but the expansion. */
  lemma ExpansionDecides(h: Hash, xs: seq<Bytes>, ys: seq<Bytes>)
    requires IsHash(h) && xs != [] && ys != [] && Expanded(xs) == Expanded(ys)
    ensures RootOfInputs(h, xs) == RootOfInputs(h, ys)
  {
    ExpandedInputs(h, xs);
    ExpandedInputs(h, ys);
    SameExpansionSameRoot(h, HashAll(h, xs), HashAll(h, ys));
  }

  lemma {:induction false} Pow2Injective(k: nat, m: nat)
    requires Pow2(k) == Pow2(m)
    ensures k == m
  {
    if k > 0 && m > 0 {
      Pow2Injective(k - 1, m - 1);
    }
  }
}
