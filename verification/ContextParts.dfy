/**
 * Middle truncation and the order of cuts in internal/contextpack/projector.go, on plain sequences: the closed form of
 * what is left of every part, and the cascade that reaches it block by block.
 */
module ContextParts {
  import opened Text

  const MARKER: string := "\n...<HarnessMesh middle truncation>...\n"

  /** Keeps `max` bytes of a longer text: its two ends around a marker, or its start if there is no room for both. */
  function MiddleOut(s: string, max: int): (r: string)
    ensures |r| == if max <= 0 || |s| <= max then |s| else max
  {
    if max <= 0 || |s| <= max then s
    else
      var keep := max - |MARKER|;
      if keep < 2 then s[..max]
      else
        var left := keep / 2;
        var right := keep - left;
        s[..left] + MARKER + s[|s| - right..]
  }

  /** A text survives as itself, as a start of itself, or as a start and an end around the marker. */
  ghost predicate Abridges(r: string, s: string) {
    || r <= s
    || exists left, right :: Ends(r, s, left, right)
  }

  ghost predicate Ends(r: string, s: string, left: nat, right: nat) {
    0 < left <= right <= left + 1 && left + right < |s| && r == s[..left] + MARKER + s[|s| - right..]
  }

  lemma MiddleOutAbridges(s: string, max: int)
    ensures Abridges(MiddleOut(s, max), s)
  {
    var keep := max - |MARKER|;
    if max > 0 && |s| > max && keep >= 2 {
      assert Ends(MiddleOut(s, max), s, keep / 2, keep - keep / 2);
    }
  }

  // ---------------------------------------------------------------- the closed form

  function SumFrom(parts: seq<string>, i: nat): nat
    requires i <= |parts|
    decreases |parts| - i
  {
    if i == |parts| then 0 else |parts[i]| + SumFrom(parts, i + 1)
  }

  function Sum(parts: seq<string>): nat {
    SumFrom(parts, 0)
  }

  /** What is left of part i: whatever all later parts, at full length, leave of the budget. */
  function Share(parts: seq<string>, i: nat, max: nat): (n: nat)
    requires i < |parts|
    ensures n <= |parts[i]|
  {
    var later := SumFrom(parts, i + 1);
    if max <= later then 0 else if |parts[i]| <= max - later then |parts[i]| else max - later
  }

  /** The last part, the status, keeps its start; the others are cut in the middle. */
  function CutTo(s: string, n: nat, plain: bool): (r: string)
    requires n <= |s|
    ensures |r| == n
  {
    if n == 0 then "" else if plain then s[..n] else MiddleOut(s, n)
  }

  function Fitted(parts: seq<string>, i: nat, max: nat): string
    requires i < |parts|
  {
    CutTo(parts[i], Share(parts, i, max), i == |parts| - 1)
  }

  function FitAll(parts: seq<string>, max: nat): seq<string> {
    seq(|parts|, i requires 0 <= i < |parts| => Fitted(parts, i, max))
  }

  function Min(a: nat, b: nat): nat {
    if a < b then a else b
  }

  lemma {:induction false} FitSuffix(parts: seq<string>, max: nat, i: nat)
    requires i <= |parts|
    ensures SumFrom(FitAll(parts, max), i) == Min(SumFrom(parts, i), max)
    decreases |parts| - i
  {
    if i < |parts| {
      FitSuffix(parts, max, i + 1);
    }
  }

  /**
   * The cap is tight: the fitted parts together have exactly the smaller of the old size and the maximum. A part is
   * shortened only if all parts before it are empty, and nothing is shortened if everything fits.
   */
  lemma CapIsTight(parts: seq<string>, max: nat, i: nat, j: nat)
    requires i < j < |parts|
    ensures Sum(FitAll(parts, max)) == Min(Sum(parts), max)
    ensures FitAll(parts, max)[j] != parts[j] ==> FitAll(parts, max)[i] == ""
    ensures Sum(parts) <= max ==> FitAll(parts, max) == parts
    ensures Abridges(FitAll(parts, max)[j], parts[j])
  {
    FitSuffix(parts, max, 0);
    LaterIsLess(parts, i + 1, j);
    MiddleOutAbridges(parts[j], Share(parts, j, max));
    if Sum(parts) <= max {
      forall k | 0 <= k < |parts|
        ensures Fitted(parts, k, max) == parts[k]
      {
        LaterIsLess(parts, 0, k);
      }
    }
  }

  lemma {:induction false} LaterIsLess(parts: seq<string>, i: nat, j: nat)
    requires i <= j < |parts|
    ensures SumFrom(parts, j + 1) + |parts[j]| == SumFrom(parts, j) <= SumFrom(parts, i)
    decreases j - i
  {
    if i < j {
      LaterIsLess(parts, i + 1, j);
    }
  }

  // ---------------------------------------------------------------- the cascade, part by part

  /** Parts before i are fitted, and empty while the size is over the limit; those from i on are untouched. */
  ghost predicate Halfway(orig: seq<string>, cur: seq<string>, i: nat, max: nat) {
    && |cur| == |orig| && i <= |orig|
    && (forall j :: 0 <= j < i ==> cur[j] == Fitted(orig, j, max))
    && (forall j :: i <= j < |orig| ==> cur[j] == orig[j])
    && Sum(cur) == SumFrom(orig, i) + SumUpTo(cur, i)
    && (if Sum(cur) > max then SumUpTo(cur, i) == 0 else SumFrom(orig, i) <= max)
  }

  function SumUpTo(parts: seq<string>, n: nat): nat
    requires n <= |parts|
  {
    if n == 0 then 0 else SumUpTo(parts, n - 1) + |parts[n - 1]|
  }

  lemma {:induction false} SumSplits(parts: seq<string>, n: nat)
    requires n <= |parts|
    ensures Sum(parts) == SumUpTo(parts, n) + SumFrom(parts, n)
  {
    if n > 0 {
      SumSplits(parts, n - 1);
    }
  }

  lemma {:induction false} SameSuffix(a: seq<string>, b: seq<string>, i: nat)
    requires |a| == |b| && i <= |a| && forall j :: i <= j < |a| ==> a[j] == b[j]
    ensures SumFrom(a, i) == SumFrom(b, i)
    decreases |a| - i
  {
    if i < |a| {
      SameSuffix(a, b, i + 1);
    }
  }

  lemma {:induction false} SamePrefix(a: seq<string>, b: seq<string>, i: nat)
    requires i <= |a| && i <= |b| && forall j :: 0 <= j < i ==> a[j] == b[j]
    ensures SumUpTo(a, i) == SumUpTo(b, i)
  {
    if i > 0 {
      SamePrefix(a, b, i - 1);
    }
  }

  /** One block of the cascade, which cuts a part by what is too much. */
  function CutBy(s: string, needed: int, plain: bool): string
    requires needed > 0
  {
    if |s| <= needed then "" else if plain then s[..|s| - needed] else MiddleOut(s, |s| - needed)
  }

  function Block(cur: seq<string>, i: nat, max: nat): seq<string>
    requires i < |cur|
  {
    if Sum(cur) > max then cur[i := CutBy(cur[i], Sum(cur) - max, i == |cur| - 1)] else cur
  }

  lemma BlockKeepsHalfway(orig: seq<string>, cur: seq<string>, i: nat, max: nat)
    requires Halfway(orig, cur, i, max) && i < |orig|
    ensures Halfway(orig, Block(cur, i, max), i + 1, max)
  {
    var next := Block(cur, i, max);
    SamePrefix(cur, next, i);
    SameSuffix(next, orig, i + 1);
    SumSplits(next, i + 1);
    LaterIsLess(orig, i, i);
  }

  lemma HalfwayStarts(orig: seq<string>, max: nat)
    ensures Halfway(orig, orig, 0, max)
  {
  }

  lemma HalfwayEnds(orig: seq<string>, cur: seq<string>, max: nat)
    requires Halfway(orig, cur, |orig|, max)
    ensures cur == FitAll(orig, max)
  {
  }

  /** Once the whole fits, the remaining blocks do nothing. */
  lemma {:induction false} RestIsSkipped(orig: seq<string>, cur: seq<string>, i: nat, j: nat, max: nat)
    requires Halfway(orig, cur, i, max) && Sum(cur) <= max && i <= j <= |orig|
    ensures Halfway(orig, cur, j, max)
    decreases j - i
  {
    if i < j {
      BlockKeepsHalfway(orig, cur, i, max);
      RestIsSkipped(orig, cur, i + 1, j, max);
    }
  }

  // ---------------------------------------------------------------- the file map

  /** The contents in the order of the keys; a deleted file has none. */
  function Contents(files: map<string, string>, keys: seq<string>): seq<string> {
    seq(|keys|, i requires 0 <= i < |keys| => if keys[i] in files then files[keys[i]] else "")
  }

  /** An iteration order of the map: its keys, each once. */
  predicate Orders(keys: seq<string>, files: map<string, string>) {
    Distinct(keys) && (forall k <- keys :: k in files) && forall k <- files :: k in keys
  }

  /** The size of some of the files, whatever the order of summation. */
  ghost function SizeOver(files: map<string, string>, s: set<string>): nat
    requires s <= files.Keys
  {
    if s == {} then 0
    else
      var k :| k in s;
      |files[k]| + SizeOver(files, s - {k})
  }

  lemma {:induction false} PickAny(files: map<string, string>, s: set<string>, k: string)
    requires s <= files.Keys && k in s
    ensures SizeOver(files, s) == |files[k]| + SizeOver(files, s - {k})
    decreases s
  {
    var m :| m in s && SizeOver(files, s) == |files[m]| + SizeOver(files, s - {m});
    if m != k {
      PickAny(files, s - {m}, k);
      PickAny(files, s - {k}, m);
      assert s - {m} - {k} == s - {k} - {m};
    }
  }

  function Present(files: map<string, string>, keys: seq<string>, i: nat): set<string>
    requires i <= |keys|
  {
    set k | k in files && k in keys[..i]
  }

  lemma {:induction false} SizeInOrder(files: map<string, string>, keys: seq<string>, i: nat)
    requires Distinct(keys) && i <= |keys|
    ensures SumUpTo(Contents(files, keys), i) == SizeOver(files, Present(files, keys, i))
  {
    if i > 0 {
      SizeInOrder(files, keys, i - 1);
      var k := keys[i - 1];
      assert keys[..i] == keys[..i - 1] + [k];
      if k in files {
        PickAny(files, Present(files, keys, i), k);
        assert Present(files, keys, i) - {k} == Present(files, keys, i - 1);
      } else {
        assert Present(files, keys, i) == Present(files, keys, i - 1);
      }
    } else {
      assert Present(files, keys, 0) == {};
    }
  }

  lemma FilesThenFields(files: map<string, string>, keys: seq<string>, fields: seq<string>)
    requires Distinct(keys) && forall k <- files :: k in keys
    ensures Sum(Contents(files, keys) + fields) == SizeOver(files, files.Keys) + Sum(fields)
  {
    var parts := Contents(files, keys) + fields;
    SumSplits(parts, |keys|);
    SamePrefix(parts, Contents(files, keys), |keys|);
    SizeInOrder(files, keys, |keys|);
    assert keys[..|keys|] == keys && Present(files, keys, |keys|) == files.Keys;
    SumOfSuffix(Contents(files, keys), fields, 0);
  }

  lemma {:induction false} SumOfSuffix(a: seq<string>, b: seq<string>, i: nat)
    requires i <= |b|
    ensures SumFrom(a + b, |a| + i) == SumFrom(b, i)
    decreases |b| - i
  {
    if i < |b| {
      SumOfSuffix(a, b, i + 1);
    }
  }

  lemma UpdateFront(a: seq<string>, b: seq<string>, n: nat, x: string)
    requires n < |a|
    ensures (a + b)[n] == a[n] && (a + b)[n := x] == a[n := x] + b
  {
  }

  lemma UpdateBack(a: seq<string>, b: seq<string>, n: nat, x: string)
    requires n < |b|
    ensures (a + b)[|a| + n] == b[n] && (a + b)[|a| + n := x] == a + b[n := x]
  {
  }
}
