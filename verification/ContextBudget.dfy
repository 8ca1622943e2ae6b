/**
 * The character budget of internal/contextpack/projector.go: the projection whose parts are shortened in place, first
 * the files in whatever order the map yields them, until the whole fits.
 */
module ContextBudget {
  import opened Text
  import opened ContextParts
  import opened ContextOrder

  class Projection {
    var files: map<string, string>
    var diff: string
    var testOutput: string
    var diffStat: string
    var plan: string
    var task: string
    var question: string
    var status: string
    var includedChars: nat
    var truncated: bool

    function Fields(): seq<string>
      reads this
    {
      [diff, testOutput, diffStat, plan, task, question, status]
    }

    /** All parts in the order in which they are cut. */
    function Parts(order: seq<string>): seq<string>
      reads this
    {
      Contents(files, order) + Fields()
    }

    ghost predicate Walks(order: seq<string>)
      reads this
    {
      Distinct(order) && forall k <- files :: k in order
    }

    /** The map is summed in an order of its own. */
    method CalcIncludedChars(ghost order: seq<string>) returns (total: nat)
      requires Walks(order)
      ensures total == Sum(Parts(order))
    {
      total := |task| + |plan| + |question| + |status| + |diffStat| + |diff| + |testOutput|;
      FilesThenFields(files, order, Fields());
      SevenFields(Fields());
      var todo := files.Keys;
      while todo != {}
        invariant todo <= files.Keys && total + SizeOver(files, todo) == Sum(Parts(order))
        decreases todo
      {
        var k :| k in todo;
        PickAny(files, todo, k);
        total := total + |files[k]|;
        todo := todo - {k};
      }
    }

    static lemma SevenFields(f: seq<string>)
      requires |f| == 7
      ensures Sum(f) == |f[0]| + |f[1]| + |f[2]| + |f[3]| + |f[4]| + |f[5]| + |f[6]|
    {
      assert SumFrom(f, 7) == 0;
      assert SumFrom(f, 5) == |f[5]| + |f[6]|;
      assert SumFrom(f, 3) == |f[3]| + |f[4]| + SumFrom(f, 5);
      assert SumFrom(f, 1) == |f[1]| + |f[2]| + SumFrom(f, 3);
    }

    /** The first n parts are through the cascade, and `included` is the size now. */
    ghost predicate Reached(order: seq<string>, included: nat, orig: seq<string>, n: nat, max: nat)
      reads this
    {
      Walks(order) && included == Sum(Parts(order)) && Halfway(orig, Parts(order), n, max)
    }

    /** The file loop, in the order in which the map yields its keys. */
    method CutFiles(order: seq<string>, max: nat, included: nat, ghost orig: seq<string>) returns (total: nat)
      requires Orders(order, files) && orig == Parts(order) && Reached(order, included, orig, 0, max)
      modifies this`files
      ensures Reached(order, total, orig, |order|, max)
      ensures forall k <- files :: files[k] == "" ==> k in old(files) && old(files)[k] == ""
    {
      total := included;
      var i := 0;
      while i < |order|
        invariant i <= |order| && Reached(order, total, orig, i, max)
        invariant forall j :: i <= j < |order| ==> order[j] in files
        invariant forall k <- files :: files[k] == "" ==> k in old(files) && old(files)[k] == ""
        decreases |order| - i
      {
        if total <= max {
          SkipTo(order, total, orig, i, |order|, max);
          return;
        }
        total := CutFile(order, i, total, max, orig);
        i := i + 1;
      }
    }

    lemma SkipTo(order: seq<string>, total: nat, orig: seq<string>, i: nat, j: nat, max: nat)
      requires Reached(order, total, orig, i, max) && total <= max && i <= j <= |orig|
      ensures Reached(order, total, orig, j, max)
    {
      RestIsSkipped(orig, Parts(order), i, j, max);
    }

    /** One file, while the size is over the limit. */
    method CutFile(order: seq<string>, i: nat, included: nat, max: nat, ghost orig: seq<string>) returns (total: nat)
      requires i < |order| && order[i] in files && included > max && Reached(order, included, orig, i, max)
      modifies this`files
      ensures Reached(order, total, orig, i + 1, max)
      ensures files.Keys <= old(files.Keys) && old(files.Keys) <= files.Keys + {order[i]}
      ensures forall k <- files :: if k == order[i] then files[k] != "" else files[k] == old(files)[k]
    {
      var content, neededCut := files[order[i]], included - max;
      FileBlock(orig, order, files, Fields(), i, max);
      if |content| <= neededCut {
        files := files - {order[i]};
      } else {
        files := files[order[i] := MiddleOut(content, |content| - neededCut)];
      }
      total := CalcIncludedChars(order);
    }

    /** Deleting or cutting file i is the next block of the cascade. */
    static lemma FileBlock(orig: seq<string>, order: seq<string>, files: map<string, string>, fields: seq<string>,
                           i: nat, max: nat)
      requires Distinct(order) && i < |order| && order[i] in files && |fields| == 7
      requires var cur := Contents(files, order) + fields; Halfway(orig, cur, i, max) && Sum(cur) > max
      ensures var content, needed := files[order[i]], Sum(Contents(files, order) + fields) - max;
              var rest := if |content| <= needed then files - {order[i]}
                          else files[order[i] := MiddleOut(content, |content| - needed)];
              Halfway(orig, Contents(rest, order) + fields, i + 1, max)
    {
      var cur := Contents(files, order) + fields;
      var content, needed := files[order[i]], Sum(cur) - max;
      var rest := if |content| <= needed then files - {order[i]}
                  else files[order[i] := MiddleOut(content, |content| - needed)];
      BlockKeepsHalfway(orig, cur, i, max);
      assert Contents(rest, order) == Contents(files, order)[i := CutBy(content, needed, false)];
      UpdateFront(Contents(files, order), fields, i, CutBy(content, needed, false));
    }

    /** One field: a field that is cut loses what is too much. */
    static method Shorten(text: string, included: nat, max: nat, plain: bool) returns (r: string)
      ensures r == if included > max then CutBy(text, included - max, plain) else text
    {
      r := text;
      if included > max && |text| > 0 {
        var neededCut := included - max;
        if |text| <= neededCut {
          r := "";
        } else if plain {
          r := text[..|text| - neededCut];
        } else {
          r := MiddleOut(text, |text| - neededCut);
        }
      }
    }

    method CutDiff(order: seq<string>, max: nat, included: nat, ghost orig: seq<string>) returns (total: nat)
      requires Reached(order, included, orig, |order|, max)
      modifies this`diff
      ensures Reached(order, total, orig, |order| + 1, max)
    {
      ghost var before := Fields();
      diff := Shorten(diff, included, max, false);
      FieldBlock(orig, Contents(files, order), before, Fields(), 0, max);
      total := CalcIncludedChars(order);
    }

    method CutTestOutput(order: seq<string>, max: nat, included: nat, ghost orig: seq<string>) returns (total: nat)
      requires Reached(order, included, orig, |order| + 1, max)
      modifies this`testOutput
      ensures Reached(order, total, orig, |order| + 2, max)
    {
      ghost var before := Fields();
      testOutput := Shorten(testOutput, included, max, false);
      FieldBlock(orig, Contents(files, order), before, Fields(), 1, max);
      total := CalcIncludedChars(order);
    }

    method CutDiffStat(order: seq<string>, max: nat, included: nat, ghost orig: seq<string>) returns (total: nat)
      requires Reached(order, included, orig, |order| + 2, max)
      modifies this`diffStat
      ensures Reached(order, total, orig, |order| + 3, max)
    {
      ghost var before := Fields();
      diffStat := Shorten(diffStat, included, max, false);
      FieldBlock(orig, Contents(files, order), before, Fields(), 2, max);
      total := CalcIncludedChars(order);
    }

    method CutPlan(order: seq<string>, max: nat, included: nat, ghost orig: seq<string>) returns (total: nat)
      requires Reached(order, included, orig, |order| + 3, max)
      modifies this`plan
      ensures Reached(order, total, orig, |order| + 4, max)
    {
      ghost var before := Fields();
      plan := Shorten(plan, included, max, false);
      FieldBlock(orig, Contents(files, order), before, Fields(), 3, max);
      total := CalcIncludedChars(order);
    }

    method CutTask(order: seq<string>, max: nat, included: nat, ghost orig: seq<string>) returns (total: nat)
      requires Reached(order, included, orig, |order| + 4, max)
      modifies this`task
      ensures Reached(order, total, orig, |order| + 5, max)
    {
      ghost var before := Fields();
      task := Shorten(task, included, max, false);
      FieldBlock(orig, Contents(files, order), before, Fields(), 4, max);
      total := CalcIncludedChars(order);
    }

    method CutQuestion(order: seq<string>, max: nat, included: nat, ghost orig: seq<string>) returns (total: nat)
      requires Reached(order, included, orig, |order| + 5, max)
      modifies this`question
      ensures Reached(order, total, orig, |order| + 6, max)
    {
      ghost var before := Fields();
      question := Shorten(question, included, max, false);
      FieldBlock(orig, Contents(files, order), before, Fields(), 5, max);
      total := CalcIncludedChars(order);
    }

    method CutStatus(order: seq<string>, max: nat, included: nat, ghost orig: seq<string>) returns (total: nat)
      requires Reached(order, included, orig, |order| + 6, max)
      modifies this`status
      ensures Reached(order, total, orig, |order| + 7, max)
    {
      ghost var before := Fields();
      status := Shorten(status, included, max, true);
      FieldBlock(orig, Contents(files, order), before, Fields(), 6, max);
      total := CalcIncludedChars(order);
    }

    /** Field n behind the files, cut by what is too much, is the next block of the cascade. */
    static lemma FieldBlock(orig: seq<string>, contents: seq<string>, f: seq<string>, g: seq<string>, n: nat, max: nat)
      requires |f| == |g| == 7 && n < 7 && Halfway(orig, contents + f, |contents| + n, max)
      requires var total := Sum(contents + f);
               g == f[n := if total > max then CutBy(f[n], total - max, n == 6) else f[n]]
      ensures Halfway(orig, contents + g, |contents| + n + 1, max)
    {
      BlockKeepsHalfway(orig, contents + f, |contents| + n, max);
      UpdateBack(contents, f, n, g[n]);
      assert g == f[n := g[n]];
      assert contents + g == Block(contents + f, |contents| + n, max);
    }

    method CutFields(order: seq<string>, max: nat, included: nat, ghost orig: seq<string>) returns (total: nat)
      requires Reached(order, included, orig, |order|, max)
      modifies this`diff, this`testOutput, this`diffStat, this`plan, this`task, this`question, this`status
      ensures Reached(order, total, orig, |order| + 7, max)
    {
      total := CutDiff(order, max, included, orig);
      total := CutTestOutput(order, max, total, orig);
      total := CutDiffStat(order, max, total, orig);
      total := CutPlan(order, max, total, orig);
      total := CutTask(order, max, total, orig);
      total := CutQuestion(order, max, total, orig);
      total := CutStatus(order, max, total, orig);
    }

    /** The cuts, if the whole is too long. */
    method Cascade(order: seq<string>, max: nat) returns (included: nat)
      requires Orders(order, files)
      modifies this`files, this`diff, this`testOutput, this`diffStat, this`plan, this`task, this`question, this`status
      modifies this`truncated
      ensures Reached(order, included, old(Parts(order)), |order| + 7, max)
      ensures truncated <==> old(truncated) || old(Sum(Parts(order))) > max
      ensures forall k <- files :: files[k] == "" ==> k in old(files) && old(files)[k] == ""
    {
      ghost var orig := Parts(order);
      HalfwayStarts(orig, max);
      included := CalcIncludedChars(order);
      if included > max {
        truncated := true;
        included := CutFiles(order, max, included, orig);
        included := CutFields(order, max, included, orig);
      } else {
        RestIsSkipped(orig, orig, 0, |orig|, max);
      }
    }

    lemma FilesEmpty(order: seq<string>)
      requires Walks(order)
      ensures Emptied(Contents(files, order), |order|) ==> forall k <- files :: files[k] == ""
    {
      forall k | k in files && Emptied(Contents(files, order), |order|)
        ensures files[k] == ""
      {
        var i: nat :| i < |order| && order[i] == k;
        assert Contents(files, order)[i] == files[k];
      }
    }

    /**
     * The end of `Project`: for every iteration order of the files, the parts become their fitted forms, the size
     * recorded is the smaller of the old size and the limit, and no file is left as an empty shell.
     */
    method FitContext(order: seq<string>, maxContextChars: int)
      requires Orders(order, files)
      modifies this
      ensures var orig, max := old(Parts(order)), if maxContextChars <= 0 then 100000 else maxContextChars;
              && Walks(order) && Parts(order) == FitAll(orig, max)
              && includedChars == Sum(Parts(order)) == Min(Sum(orig), max)
              && (truncated <==> old(truncated) || Sum(orig) > max)
      ensures forall k <- files :: files[k] == "" ==> k in old(files) && old(files)[k] == ""
      ensures diff != old(diff) ==> forall k <- files :: files[k] == ""
      ensures (testOutput != old(testOutput) ==> diff == "") && (diffStat != old(diffStat) ==> testOutput == "")
      ensures (plan != old(plan) ==> diffStat == "") && (task != old(task) ==> plan == "")
      ensures (question != old(question) ==> task == "") && (status != old(status) ==> question == "")
    {
      var max := if maxContextChars <= 0 then 100000 else maxContextChars;
      ghost var orig, before, f := Parts(order), Contents(files, order), Fields();
      FitSuffix(orig, max, 0);
      includedChars := Cascade(order, max);
      HalfwayEnds(orig, Parts(order), max);
      FieldsInOrder(before, f, Contents(files, order), Fields(), max);
      FilesEmpty(order);
    }
  }
}
