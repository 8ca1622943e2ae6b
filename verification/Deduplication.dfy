/** `DeduplicateFindings` of internal/collaboration/engine.go. */
module Deduplication {
  import opened Text

  /** `rest` stands for the fields that deduplication neither reads nor writes. */
  datatype Finding = Finding(
    id: string, file: string, line: int, category: string, claim: string, duplicateOf: string,
    relatedFindings: seq<string>, rest: string)

  /** `filepath.Clean`, `strings.TrimSpace`, and case folding, by which `strings.EqualFold` compares. */
  datatype Ops = Ops(clean: string -> string, trim: string -> string, fold: string -> string)

  function Abs(n: int): int {
    if n < 0 then -n else n
  }

  predicate Similar(ops: Ops, f: Finding, g: Finding) {
    var file := ops.clean(f.file);
    && file != "" && file != "." && file == ops.clean(g.file)
    && Abs(f.line - g.line) <= 5
    && (|| (ops.fold(f.category) == ops.fold(g.category) && f.category != "")
        || ops.fold(ops.trim(f.claim)) == ops.fold(ops.trim(g.claim)))
  }

  // ---------------------------------------------------------------- the loops

  /** The body of the inner loop. */
  function Visit(ops: Ops, fs: seq<Finding>, i: nat, j: nat): (r: seq<Finding>)
    requires i < j < |fs|
    ensures |r| == |fs|
  {
    if fs[j].duplicateOf == "" && Similar(ops, fs[i], fs[j]) then
      fs[j := fs[j].(duplicateOf := fs[i].id)]
        [i := fs[i].(relatedFindings := fs[i].relatedFindings + [fs[j].id])]
    else fs
  }

  function Inner(ops: Ops, fs: seq<Finding>, i: nat, j: nat): (r: seq<Finding>)
    requires i < j <= |fs|
    ensures |r| == |fs|
    decreases |fs| - j
  {
    if j == |fs| then fs else Inner(ops, Visit(ops, fs, i, j), i, j + 1)
  }

  function Outer(ops: Ops, fs: seq<Finding>, i: nat): (r: seq<Finding>)
    requires i <= |fs|
    ensures |r| == |fs|
    decreases |fs| - i
  {
    if i == |fs| then fs
    else Outer(ops, if fs[i].duplicateOf != "" then fs else Inner(ops, fs, i, i + 1), i + 1)
  }

  method DeduplicateFindings(ops: Ops, findings: array<Finding>)
    modifies findings
    ensures findings[..] == Outer(ops, old(findings[..]), 0)
  {
    if findings.Length <= 1 {
      ShortListsStay(ops, findings[..]);
      return;
    }
    var i := 0;
    while i < findings.Length
      invariant i <= findings.Length && Outer(ops, findings[..], i) == Outer(ops, old(findings[..]), 0)
    {
      if findings[i].duplicateOf == "" {
        MarkDuplicates(ops, findings, i);
      }
      i := i + 1;
    }
  }

  lemma ShortListsStay(ops: Ops, fs: seq<Finding>)
    requires |fs| <= 1
    ensures Outer(ops, fs, 0) == fs
  {
  }

  /** The inner loop of `DeduplicateFindings`. */
  method MarkDuplicates(ops: Ops, findings: array<Finding>, i: nat)
    requires i < findings.Length
    modifies findings
    ensures findings[..] == Inner(ops, old(findings[..]), i, i + 1)
  {
    var j := i + 1;
    while j < findings.Length
      invariant i < j <= findings.Length && Inner(ops, findings[..], i, j) == Inner(ops, old(findings[..]), i, i + 1)
    {
      ghost var before := findings[..];
      if findings[j].duplicateOf == "" {
        var fileI, fileJ := ops.clean(findings[i].file), ops.clean(findings[j].file);
        var sameFile := fileI != "" && fileI != "." && fileI == fileJ;
        var lineDiff := findings[i].line - findings[j].line;
        if lineDiff < 0 {
          lineDiff := -lineDiff;
        }
        var proximity := sameFile && lineDiff <= 5;
        var sameCat := ops.fold(findings[i].category) == ops.fold(findings[j].category) && findings[i].category != "";
        var claimSim := ops.fold(ops.trim(findings[i].claim)) == ops.fold(ops.trim(findings[j].claim));
        if proximity && (sameCat || claimSim) {
          findings[j] := findings[j].(duplicateOf := findings[i].id);
          findings[i] := findings[i].(relatedFindings := findings[i].relatedFindings + [findings[j].id]);
        }
      }
      assert findings[..] == Visit(ops, before, i, j);
      j := j + 1;
    }
  }

  // ---------------------------------------------------------------- what the result is

  /** Not marked beforehand, and not similar to an earlier survivor that has an id. */
  predicate Survives(ops: Ops, fs: seq<Finding>, m: nat)
    requires m < |fs|
    decreases m, m + 1
  {
    fs[m].duplicateOf == "" && Owner(ops, fs, m, m) == None
  }

  /** The first survivor with an id among the first k findings that precedes finding m and is similar to it. */
  function Owner(ops: Ops, fs: seq<Finding>, m: nat, k: nat): (o: Option<nat>)
    requires m < |fs|
    ensures o.Some? ==> o.value < k && o.value < m
    decreases m, k
  {
    if k == 0 || fs[m].duplicateOf != "" then None
    else
      var earlier := Owner(ops, fs, m, k - 1);
      if earlier.Some? then earlier
      else if k - 1 < m && fs[k - 1].id != "" && Survives(ops, fs, k - 1) && Similar(ops, fs[k - 1], fs[m])
      then Some(k - 1)
      else None
  }

  /** Finding i lists j: i survives, and j behind it is similar and was not marked when the loops reached i. */
  predicate Listed(ops: Ops, fs: seq<Finding>, i: nat, j: nat)
    requires j < |fs|
  {
    && i < j && Survives(ops, fs, i) && fs[j].duplicateOf == "" && Owner(ops, fs, j, i) == None
    && Similar(ops, fs[i], fs[j])
  }

  /** The positions below k that finding i lists, in order. */
  function Duplicates(ops: Ops, fs: seq<Finding>, i: nat, k: nat): seq<nat>
    requires k <= |fs|
  {
    if k == 0 then []
    else Duplicates(ops, fs, i, k - 1) + if Listed(ops, fs, i, k - 1) then [k - 1] else []
  }

  function Ids(fs: seq<Finding>, at: seq<nat>): seq<string>
    requires forall k :: 0 <= k < |at| ==> at[k] < |fs|
  {
    seq(|at|, k requires 0 <= k < |at| => fs[at[k]].id)
  }

  /** Exactly the findings below k that i lists, each once, in increasing order. */
  ghost predicate Lists(ops: Ops, fs: seq<Finding>, i: nat, k: nat, at: seq<nat>)
    requires k <= |fs|
  {
    && (forall n :: 0 <= n < |at| ==> i < at[n] < k && Listed(ops, fs, i, at[n]))
    && (forall n, n' :: 0 <= n < n' < |at| ==> at[n] < at[n'])
    && (forall m: nat :: m < k && Listed(ops, fs, i, m) ==> m in at)
  }

  lemma {:induction false} DuplicatesInRange(ops: Ops, fs: seq<Finding>, i: nat, k: nat)
    requires k <= |fs|
    ensures Lists(ops, fs, i, k, Duplicates(ops, fs, i, k))
  {
    if k > 0 {
      DuplicatesInRange(ops, fs, i, k - 1);
      ListsSnoc(ops, fs, i, k, Duplicates(ops, fs, i, k - 1));
    }
  }

  lemma ListsSnoc(ops: Ops, fs: seq<Finding>, i: nat, k: nat, before: seq<nat>)
    requires 0 < k <= |fs| && Lists(ops, fs, i, k - 1, before)
    ensures Lists(ops, fs, i, k, before + if Listed(ops, fs, i, k - 1) then [k - 1] else [])
  {
  }

  /** Finding m when the loops have reached the pair (i, j). */
  function MarkAt(ops: Ops, fs: seq<Finding>, i: nat, j: nat, m: nat): string
    requires m < |fs|
  {
    match Owner(ops, fs, m, if m < j then i + 1 else i)
    case None => fs[m].duplicateOf
    case Some(o) => fs[o].id
  }

  function RelatedAt(ops: Ops, fs: seq<Finding>, i: nat, j: nat, m: nat): seq<string>
    requires m < |fs| && j <= |fs|
  {
    var k := if m < i then |fs| else if m == i then j else 0;
    DuplicatesInRange(ops, fs, m, k);
    fs[m].relatedFindings + Ids(fs, Duplicates(ops, fs, m, k))
  }

  function At(ops: Ops, fs: seq<Finding>, i: nat, j: nat): (r: seq<Finding>)
    requires j <= |fs|
    ensures |r| == |fs|
  {
    seq(|fs|, m requires 0 <= m < |fs| =>
      fs[m].(duplicateOf := MarkAt(ops, fs, i, j, m), relatedFindings := RelatedAt(ops, fs, i, j, m)))
  }

  /** The result: every finding with an owner is marked with its id, and every survivor lists what it found. */
  function Deduplicated(ops: Ops, fs: seq<Finding>): seq<Finding> {
    At(ops, fs, |fs|, |fs|)
  }

  lemma {:induction false} OwnerIsStable(ops: Ops, fs: seq<Finding>, m: nat, k: nat, l: nat)
    requires m < |fs| && k <= l
    ensures Owner(ops, fs, m, k).Some? ==> Owner(ops, fs, m, l) == Owner(ops, fs, m, k)
    ensures m <= k ==> Owner(ops, fs, m, l) == Owner(ops, fs, m, k)
    ensures Owner(ops, fs, m, l).Some? && Owner(ops, fs, m, l).value < k ==>
              Owner(ops, fs, m, k) == Owner(ops, fs, m, l)
  {
    if k < l {
      OwnerIsStable(ops, fs, m, k, l - 1);
    }
  }

  lemma {:induction false} OwnerSurvives(ops: Ops, fs: seq<Finding>, m: nat, k: nat)
    requires m < |fs|
    ensures var o := Owner(ops, fs, m, k);
            o.Some? ==> && fs[m].duplicateOf == "" && fs[o.value].id != ""
                        && Survives(ops, fs, o.value) && Similar(ops, fs[o.value], fs[m])
  {
    if k > 0 {
      OwnerSurvives(ops, fs, m, k - 1);
    }
  }

  lemma {:induction false} NoDuplicatesBelow(ops: Ops, fs: seq<Finding>, i: nat, k: nat)
    requires k <= |fs|
    ensures k <= i + 1 || (i < |fs| && !Survives(ops, fs, i)) ==> Duplicates(ops, fs, i, k) == []
  {
    if k > 0 {
      NoDuplicatesBelow(ops, fs, i, k - 1);
    }
  }

  /** The fields by which findings are compared stay as they were. */
  lemma SimilarStays(ops: Ops, fs: seq<Finding>, i: nat, j: nat, m: nat, n: nat)
    requires j <= |fs| && m < |fs| && n < |fs|
    ensures Similar(ops, At(ops, fs, i, j)[m], At(ops, fs, i, j)[n]) == Similar(ops, fs[m], fs[n])
  {
  }

  /** The inner loop's body takes the closed form from one pair to the next. */
  lemma VisitStep(ops: Ops, fs: seq<Finding>, i: nat, j: nat)
    requires i < j < |fs| && Survives(ops, fs, i)
    ensures Visit(ops, At(ops, fs, i, j), i, j) == At(ops, fs, i, j + 1)
  {
    var cur, next := At(ops, fs, i, j), At(ops, fs, i, j + 1);
    SimilarStays(ops, fs, i, j, i, j);
    OwnerSurvives(ops, fs, j, i);
    OwnerIsStable(ops, fs, i, i, i + 1);
    assert cur[j].duplicateOf == "" <==> fs[j].duplicateOf == "" && Owner(ops, fs, j, i) == None;
    RelatedGrows(ops, fs, i, j);
    OthersStay(ops, fs, i, j);
    assert cur[i].duplicateOf == next[i].duplicateOf && cur[j].relatedFindings == next[j].relatedFindings;
    assert Visit(ops, cur, i, j)[i] == next[i] && Visit(ops, cur, i, j)[j] == next[j];
  }

  lemma OthersStay(ops: Ops, fs: seq<Finding>, i: nat, j: nat)
    requires i < j < |fs|
    ensures forall m: nat :: m < |fs| && m != i && m != j ==> At(ops, fs, i, j + 1)[m] == At(ops, fs, i, j)[m]
    ensures MarkAt(ops, fs, i, j + 1, i) == MarkAt(ops, fs, i, j, i)
    ensures RelatedAt(ops, fs, i, j + 1, j) == RelatedAt(ops, fs, i, j, j)
  {
  }

  lemma RelatedGrows(ops: Ops, fs: seq<Finding>, i: nat, j: nat)
    requires i < j < |fs|
    ensures RelatedAt(ops, fs, i, j + 1, i) ==
            RelatedAt(ops, fs, i, j, i) + if Listed(ops, fs, i, j) then [fs[j].id] else []
  {
  }

  /** The closed form before the outer loop turns to finding i. */
  function Start(ops: Ops, fs: seq<Finding>, i: nat): seq<Finding> {
    At(ops, fs, i, if i < |fs| then i + 1 else |fs|)
  }

  /** So every state of the inner loop leads to its end. */
  lemma {:induction false} InnerPasses(ops: Ops, fs: seq<Finding>, i: nat, j: nat, cur: seq<Finding>, end: seq<Finding>)
    requires i < j <= |fs| && Survives(ops, fs, i)
    requires cur == At(ops, fs, i, j) && end == At(ops, fs, i, |fs|)
    ensures Inner(ops, cur, i, j) == Inner(ops, end, i, |fs|)
    decreases |fs| - j
  {
    if j < |fs| {
      VisitStep(ops, fs, i, j);
      var next := At(ops, fs, i, j + 1);
      InnerUnfolds(ops, cur, next, i, j);
      InnerPasses(ops, fs, i, j + 1, next, end);
    }
  }

  lemma InnerIsClosed(ops: Ops, fs: seq<Finding>, i: nat)
    requires i < |fs| && Survives(ops, fs, i)
    ensures Inner(ops, Start(ops, fs, i), i, i + 1) == At(ops, fs, i, |fs|)
  {
    InnerPasses(ops, fs, i, i + 1, Start(ops, fs, i), At(ops, fs, i, |fs|));
  }

  lemma InnerUnfolds(ops: Ops, cur: seq<Finding>, next: seq<Finding>, i: nat, j: nat)
    requires i < j < |cur| && next == Visit(ops, cur, i, j)
    ensures Inner(ops, cur, i, j) == Inner(ops, next, i, j + 1)
  {
  }

  lemma NextStart(ops: Ops, fs: seq<Finding>, i: nat)
    requires i < |fs|
    ensures Start(ops, fs, i + 1) == if Survives(ops, fs, i) then At(ops, fs, i, |fs|) else Start(ops, fs, i)
  {
    var j := if i + 1 < |fs| then i + 2 else |fs|;
    var j' := if Survives(ops, fs, i) then |fs| else i + 1;
    forall m: nat | m < |fs|
      ensures At(ops, fs, i + 1, j)[m] == At(ops, fs, i, j')[m]
    {
      MarksAtNextStart(ops, fs, i, j, j', m);
      RelatedAtNextStart(ops, fs, i, j, j', m);
    }
  }

  lemma MarksAtNextStart(ops: Ops, fs: seq<Finding>, i: nat, j: nat, j': nat, m: nat)
    requires i < |fs| && m < |fs|
    requires j == (if i + 1 < |fs| then i + 2 else |fs|) && j' == if Survives(ops, fs, i) then |fs| else i + 1
    ensures MarkAt(ops, fs, i + 1, j, m) == MarkAt(ops, fs, i, j', m)
  {
    OwnerIsStable(ops, fs, m, i + 1, i + 2);
  }

  lemma RelatedAtNextStart(ops: Ops, fs: seq<Finding>, i: nat, j: nat, j': nat, m: nat)
    requires i < |fs| && m < |fs|
    requires j == (if i + 1 < |fs| then i + 2 else |fs|) && j' == if Survives(ops, fs, i) then |fs| else i + 1
    ensures RelatedAt(ops, fs, i + 1, j, m) == RelatedAt(ops, fs, i, j', m)
  {
    if m == i {
      NoDuplicatesBelow(ops, fs, m, i + 1);
      NoDuplicatesBelow(ops, fs, m, |fs|);
    } else if m == i + 1 {
      NoDuplicatesBelow(ops, fs, m, j);
      NoDuplicatesBelow(ops, fs, m, 0);
    }
  }

  /** One round of the outer loop. */
  lemma OuterStep(ops: Ops, fs: seq<Finding>, i: nat)
    requires i < |fs|
    ensures var cur := Start(ops, fs, i);
            Start(ops, fs, i + 1) == if cur[i].duplicateOf != "" then cur else Inner(ops, cur, i, i + 1)
  {
    OwnerIsStable(ops, fs, i, i, i + 1);
    OwnerSurvives(ops, fs, i, i);
    assert Start(ops, fs, i)[i].duplicateOf == "" <==> Survives(ops, fs, i);
    if Survives(ops, fs, i) {
      InnerIsClosed(ops, fs, i);
    }
    NextStart(ops, fs, i);
  }

  lemma {:induction false} OuterIsClosed(ops: Ops, fs: seq<Finding>, i: nat)
    requires i <= |fs|
    ensures Outer(ops, Start(ops, fs, i), i) == Deduplicated(ops, fs)
    decreases |fs| - i
  {
    if i < |fs| {
      OuterStep(ops, fs, i);
      OuterIsClosed(ops, fs, i + 1);
    }
  }

  /** The loops compute the closed form. */
  lemma LoopsDeduplicate(ops: Ops, fs: seq<Finding>)
    ensures Outer(ops, fs, 0) == Deduplicated(ops, fs)
  {
    forall m: nat | m < |fs|
      ensures Start(ops, fs, 0)[m] == fs[m]
    {
      OwnerIsStable(ops, fs, m, 0, 1);
      NoDuplicatesBelow(ops, fs, m, if m == 0 then 1 else 0);
    }
    assert Start(ops, fs, 0) == fs;
    OuterIsClosed(ops, fs, 0);
  }

  // ---------------------------------------------------------------- what it is for

  lemma MarkOf(ops: Ops, fs: seq<Finding>, m: nat)
    requires m < |fs|
    ensures var mark := Deduplicated(ops, fs)[m].duplicateOf;
            && (mark == match Owner(ops, fs, m, m) { case None => fs[m].duplicateOf case Some(o) => fs[o].id })
            && (mark == "" <==> Survives(ops, fs, m))
  {
    OwnerIsStable(ops, fs, m, m, |fs|);
    OwnerSurvives(ops, fs, m, m);
  }

  /** In the result, finding i is unmarked, has an id, and comes before the similar finding j. */
  ghost predicate Claims(ops: Ops, after: seq<Finding>, i: int, j: nat)
    requires j < |after|
  {
    0 <= i < j && after[i].duplicateOf == "" && after[i].id != "" && Similar(ops, after[i], after[j])
  }

  ghost predicate UnclaimedBefore(ops: Ops, after: seq<Finding>, i: nat, j: nat)
    requires j < |after|
  {
    forall k :: 0 <= k < i ==> !Claims(ops, after, k, j)
  }

  /** Owners, read off the result. */
  lemma {:induction false} OwnerExactly(ops: Ops, fs: seq<Finding>, j: nat, k: nat)
    requires j < |fs| && fs[j].duplicateOf == ""
    ensures var after, o := Deduplicated(ops, fs), Owner(ops, fs, j, k);
            if o.Some? then Claims(ops, after, o.value, j) && UnclaimedBefore(ops, after, o.value, j)
            else UnclaimedBefore(ops, after, k, j)
  {
    if k > 0 {
      OwnerExactly(ops, fs, j, k - 1);
      if k - 1 < j {
        ClaimsExactly(ops, fs, k - 1, j);
      }
    }
  }

  lemma ClaimsExactly(ops: Ops, fs: seq<Finding>, k: nat, j: nat)
    requires k < j < |fs|
    ensures Claims(ops, Deduplicated(ops, fs), k, j) <==>
            Survives(ops, fs, k) && fs[k].id != "" && Similar(ops, fs[k], fs[j])
  {
    MarkOf(ops, fs, k);
    SimilarStays(ops, fs, |fs|, |fs|, k, j);
  }

  /**
   * Findings marked beforehand keep their mark. Another one is marked exactly if an unmarked earlier finding with an
   * id is similar to it, and then points to the first such finding.
   */
  lemma MarksAreExact(ops: Ops, fs: seq<Finding>, j: nat)
    requires j < |fs|
    ensures var after := Outer(ops, fs, 0);
            && |after| == |fs|
            && (fs[j].duplicateOf != "" ==> after[j].duplicateOf == fs[j].duplicateOf)
            && (fs[j].duplicateOf == "" ==>
                  if after[j].duplicateOf == "" then UnclaimedBefore(ops, after, j, j)
                  else exists i: nat :: i < j && Claims(ops, after, i, j) && UnclaimedBefore(ops, after, i, j)
                                        && after[j].duplicateOf == after[i].id)
  {
    LoopsDeduplicate(ops, fs);
    MarkOf(ops, fs, j);
    if fs[j].duplicateOf == "" {
      OwnerExactly(ops, fs, j, j);
    }
  }

  /** Two similar findings both stay unmarked only if the earlier one has no id. */
  lemma SurvivorsAreDissimilar(ops: Ops, fs: seq<Finding>, i: nat, j: nat)
    requires i < j < |fs|
    ensures var after := Outer(ops, fs, 0);
            && |after| == |fs|
            && (after[i].duplicateOf == after[j].duplicateOf == "" && Similar(ops, after[i], after[j]) ==>
                  after[i].id == "")
  {
    LoopsDeduplicate(ops, fs);
    MarkOf(ops, fs, j);
    MarksAreExact(ops, fs, j);
    var after := Outer(ops, fs, 0);
    assert UnclaimedBefore(ops, after, j, j) ==> !Claims(ops, after, i, j);
  }

  /** Read off the result: i is unmarked, and j was unmarked, is similar, and not claimed before i. */
  ghost predicate Relates(ops: Ops, fs: seq<Finding>, after: seq<Finding>, i: nat, j: nat)
    requires j < |fs| == |after|
  {
    && i < j && after[i].duplicateOf == "" && fs[j].duplicateOf == ""
    && Similar(ops, after[i], after[j]) && UnclaimedBefore(ops, after, i, j)
  }

  /**
   * A finding's list grows by the ids of exactly the findings it relates to, each once and in order; all other fields
   * stay. With ids these are exactly the findings marked with its id by this pass.
   */
  lemma RelatedIsExact(ops: Ops, fs: seq<Finding>, i: nat) returns (at: seq<nat>)
    requires i < |fs|
    ensures forall n :: 0 <= n < |at| ==> at[n] < |fs|
    ensures forall n, n' :: 0 <= n < n' < |at| ==> at[n] < at[n']
    ensures var after := Outer(ops, fs, 0);
            && |after| == |fs| && after[i].relatedFindings == fs[i].relatedFindings + Ids(fs, at)
            && after[i] == fs[i].(duplicateOf := after[i].duplicateOf, relatedFindings := after[i].relatedFindings)
            && (forall j: nat :: j < |fs| ==> (j in at <==> Relates(ops, fs, after, i, j)))
  {
    LoopsDeduplicate(ops, fs);
    DuplicatesInRange(ops, fs, i, |fs|);
    at := Duplicates(ops, fs, i, |fs|);
    forall j: nat | j < |fs|
      ensures Listed(ops, fs, i, j) <==> Relates(ops, fs, Deduplicated(ops, fs), i, j)
    {
      ListedExactly(ops, fs, i, j);
    }
  }

  lemma ListedExactly(ops: Ops, fs: seq<Finding>, i: nat, j: nat)
    requires i < |fs| && j < |fs|
    ensures Listed(ops, fs, i, j) <==> Relates(ops, fs, Deduplicated(ops, fs), i, j)
  {
    MarkOf(ops, fs, i);
    SimilarStays(ops, fs, |fs|, |fs|, i, j);
    if fs[j].duplicateOf == "" {
      OwnerExactly(ops, fs, j, i);
    }
  }

  // ---------------------------------------------------------------- a second pass

  lemma {:induction false} NothingOwnedAfter(ops: Ops, fs: seq<Finding>, m: nat, k: nat)
    requires m < |fs|
    ensures |Outer(ops, fs, 0)| == |fs| && Owner(ops, Outer(ops, fs, 0), m, k) == None
  {
    if k > 0 {
      NothingOwnedAfter(ops, fs, m, k - 1);
      if k - 1 < m {
        SurvivorsAreDissimilar(ops, fs, k - 1, m);
      }
    }
  }

  ghost predicate NothingOwned(ops: Ops, fs: seq<Finding>) {
    forall m: nat, k: nat :: m < |fs| ==> Owner(ops, fs, m, k) == None
  }

  /** A survivor without an id comes before a similar survivor. */
  ghost predicate Repeats(ops: Ops, fs: seq<Finding>, i: nat, j: nat) {
    && i < j < |fs| && fs[i].id == "" && fs[i].duplicateOf == fs[j].duplicateOf == ""
    && Similar(ops, fs[i], fs[j])
  }

  lemma {:induction false} NothingListed(ops: Ops, fs: seq<Finding>, i: nat, k: nat)
    requires k <= |fs|
    ensures Duplicates(ops, fs, i, k) == [] <==> forall j: nat :: j < k ==> !Listed(ops, fs, i, j)
  {
    if k > 0 {
      NothingListed(ops, fs, i, k - 1);
    }
  }

  lemma ListedAfter(ops: Ops, fs: seq<Finding>, i: nat, j: nat)
    requires i < |fs| && j < |fs|
    ensures var after := Outer(ops, fs, 0);
            |after| == |fs| && (Listed(ops, after, i, j) <==> Repeats(ops, after, i, j))
  {
    NothingOwnedAfter(ops, fs, i, i);
    NothingOwnedAfter(ops, fs, j, i);
    if i < j {
      SurvivorsAreDissimilar(ops, fs, i, j);
    }
  }

  /** Where nothing is owned, a pass marks nothing, and changes a finding exactly if it lists another. */
  lemma UnownedPass(ops: Ops, fs: seq<Finding>, m: nat)
    requires NothingOwned(ops, fs) && m < |fs|
    ensures Deduplicated(ops, fs)[m] == fs[m] <==> forall j: nat :: j < |fs| ==> !Listed(ops, fs, m, j)
  {
    NothingListed(ops, fs, m, |fs|);
    DuplicatesInRange(ops, fs, m, |fs|);
    var at := Duplicates(ops, fs, m, |fs|);
    assert Deduplicated(ops, fs)[m] ==
           fs[m].(relatedFindings := fs[m].relatedFindings + Ids(fs, at));
    assert fs[m].relatedFindings + [] == fs[m].relatedFindings;
  }

  /** Two similar findings survive, of which the earlier has no id. */
  ghost predicate Lingers(ops: Ops, fs: seq<Finding>, i: nat, j: nat) {
    i < j < |fs| && fs[i].id == "" && Survives(ops, fs, i) && Survives(ops, fs, j) && Similar(ops, fs[i], fs[j])
  }

  lemma RepeatsExactly(ops: Ops, fs: seq<Finding>, i: nat, j: nat)
    ensures Repeats(ops, Outer(ops, fs, 0), i, j) <==> Lingers(ops, fs, i, j)
  {
    LoopsDeduplicate(ops, fs);
    if i < j < |fs| {
      MarkOf(ops, fs, i);
      MarkOf(ops, fs, j);
      SimilarStays(ops, fs, |fs|, |fs|, i, j);
    }
  }

  /**
   * A second pass changes nothing exactly if no survivor without an id precedes a similar survivor. With ids on all
   * findings, therefore, a second pass never changes anything.
   */
  lemma SecondPassExactly(ops: Ops, fs: seq<Finding>)
    ensures var after := Outer(ops, fs, 0);
            Outer(ops, after, 0) == after <==> forall i: nat, j: nat :: !Lingers(ops, fs, i, j)
  {
    var after := Outer(ops, fs, 0);
    LoopsDeduplicate(ops, after);
    forall m: nat, k: nat | m < |after|
      ensures Owner(ops, after, m, k) == None
    {
      NothingOwnedAfter(ops, fs, m, k);
    }
    forall i: nat, j: nat
      ensures i < |after| && j < |after| ==> (Listed(ops, after, i, j) <==> Lingers(ops, fs, i, j))
    {
      RepeatsExactly(ops, fs, i, j);
      if i < |after| && j < |after| {
        ListedAfter(ops, fs, i, j);
      }
    }
    forall m: nat | m < |after|
      ensures Deduplicated(ops, after)[m] == after[m] <==> forall j: nat :: !Lingers(ops, fs, m, j)
    {
      UnownedPass(ops, after, m);
    }
  }

  // ---------------------------------------------------------------- similar findings

  /** Similar: in the same named file, at most five lines apart, and of one category or with one claim. */
  lemma SimilarExactly(ops: Ops, f: Finding, g: Finding)
    ensures Similar(ops, f, g) <==>
            && ops.clean(f.file) == ops.clean(g.file) && ops.clean(f.file) !in {"", "."}
            && f.line - 5 <= g.line <= f.line + 5
            && (|| (f.category != "" && ops.fold(f.category) == ops.fold(g.category))
                || ops.fold(ops.trim(f.claim)) == ops.fold(ops.trim(g.claim)))
  {
  }
}
