/** What is left of a text, and in which order texts are cut: consequences of the closed form. */
module ContextOrder {
  import opened Text
  import opened ContextParts

  /**
   * A text that is not too long stays. With room for 41 bytes or more, two at least besides the marker, both ends are
   * kept, the end by one byte more if the room is odd; with less, only the start.
   */
  lemma MiddleOutExactly(s: string, max: int)
    ensures max <= 0 || |s| <= max ==> MiddleOut(s, max) == s
    ensures 0 < max < |s| && max < 41 ==> MiddleOut(s, max) == s[..max]
    ensures 0 < max < |s| && max >= 41 ==>
              exists left: nat, right: nat :: Ends(MiddleOut(s, max), s, left, right) && left + right == max - 39
  {
    assert |MARKER| == 39;
    if 0 < max < |s| && max >= 41 {
      var keep := max - |MARKER|;
      assert Ends(MiddleOut(s, max), s, keep / 2, keep - keep / 2);
    }
  }

  /** What is left of a part: of the status its start, and of every other part its two ends, as far as there is room. */
  lemma PartsKeepTheirEnds(parts: seq<string>, max: nat, j: nat)
    requires j < |parts|
    ensures j == |parts| - 1 ==> FitAll(parts, max)[j] <= parts[j]
    ensures j < |parts| - 1 && FitAll(parts, max)[j] != "" ==>
              FitAll(parts, max)[j] == MiddleOut(parts[j], |FitAll(parts, max)[j]|)
  {
  }

  /** The first n parts are empty. */
  ghost predicate Emptied(parts: seq<string>, n: nat) {
    forall i :: 0 <= i < n && i < |parts| ==> parts[i] == ""
  }

  lemma CutInOrder(parts: seq<string>, max: nat, j: nat)
    requires j < |parts|
    ensures FitAll(parts, max)[j] != parts[j] ==> Emptied(FitAll(parts, max), j)
  {
    forall i: nat | i < j
      ensures FitAll(parts, max)[j] != parts[j] ==> FitAll(parts, max)[i] == ""
    {
      CapIsTight(parts, max, i, j);
    }
  }

  /** Field n is cut only if the one before it, and before the first all files, are empty. */
  ghost predicate InOrder(contents: seq<string>, f: seq<string>, g: seq<string>)
    requires |f| == |g| == 7
  {
    && (g[0] != f[0] ==> Emptied(contents, |contents|))
    && (g[1] != f[1] ==> g[0] == "") && (g[2] != f[2] ==> g[1] == "") && (g[3] != f[3] ==> g[2] == "")
    && (g[4] != f[4] ==> g[3] == "") && (g[5] != f[5] ==> g[4] == "") && (g[6] != f[6] ==> g[5] == "")
  }

  lemma FieldsInOrder(before: seq<string>, f: seq<string>, contents: seq<string>, g: seq<string>, max: nat)
    requires |f| == |g| == 7 && |contents| == |before| && contents + g == FitAll(before + f, max)
    ensures InOrder(contents, f, g)
  {
    forall n: nat | n < 7
      ensures g[n] != f[n] ==> Emptied(contents + g, |contents| + n)
    {
      CutInOrder(before + f, max, |before| + n);
      assert (contents + g)[|contents| + n] == g[n] && (before + f)[|before| + n] == f[n];
    }
    assert forall i :: 0 <= i < |contents| ==> (contents + g)[i] == contents[i];
    assert forall n: nat :: n < 7 ==> (contents + g)[|contents| + n] == g[n];
  }
}
