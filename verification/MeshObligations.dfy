/** What a change owes from its creation on, what the gate and evidence make of it, and what nobody can rewrite. */
module MeshObligations {
  import opened Text
  import opened PathPatterns
  import opened ProofPolicy
  import opened MeshStore
  import opened MeshGate
  import opened MeshSpec
  import opened MeshTheorems
  import opened MeshLifecycle
  import opened MeshWitness
  import opened MeshCommit

  // ---------------------------------------------------------------- what a new change owes

  /** Nothing is stored for this change id yet, nor under an id that begins like those of its obligations. */
  ghost predicate Unused(st: Store, cid: string) {
    && cid !in st.changes
    && forall o :: o in st.obligations ==> st.obligations[o].changeId != cid && !HasPrefix(o, "obl_" + cid + "_")
  }

  /** Types that the policy asks for on these paths have different titles. */
  ghost predicate DistinctTitles(plat: Platform, cc: ChangeControl, paths: seq<string>) {
    forall k, k' :: k != "" && k' != "" && k != k' && AsksFor(plat, cc, paths, k) && AsksFor(plat, cc, paths, k') ==>
      SpecFor(plat, k, []).name != SpecFor(plat, k', []).name
  }

  /** Every row of the change is that of a specification. */
  ghost predicate RowsOfSpecs(rows: map<string, Obligation>, cid: string, specs: seq<Spec>) {
    forall o :: o in rows && rows[o].changeId == cid ==>
      exists i :: 0 <= i < |specs| && o == ObligationId(cid, specs[i].name)
  }

  lemma {:induction false} SaveSpecsRows(rows: map<string, Obligation>, cid: string, specs: seq<Spec>)
    requires forall o :: o in rows ==> rows[o].changeId != cid
    ensures RowsOfSpecs(SaveSpecs(rows, cid, specs), cid, specs)
    ensures forall o :: o in rows ==> o in SaveSpecs(rows, cid, specs)
  {
    if specs != [] {
      var front, last := specs[..|specs| - 1], specs[|specs| - 1];
      SaveSpecsRows(rows, cid, front);
      var before, after := SaveSpecs(rows, cid, front), SaveSpecs(rows, cid, specs);
      forall o | o in after && after[o].changeId == cid
        ensures exists i :: 0 <= i < |specs| && o == ObligationId(cid, specs[i].name)
      {
        if o == ObligationId(cid, last.name) {
          assert specs[|specs| - 1].name == last.name;
        } else {
          var i :| 0 <= i < |front| && o == ObligationId(cid, front[i].name);
          assert front[i] == specs[i];
        }
      }
    }
  }

  lemma FirstOfNameIsSaved(st: Store, cid: string, specs: seq<Spec>, i: nat)
    requires Unused(st, cid) && i < |specs|
    requires forall k :: 0 <= k < i ==> specs[k].name != specs[i].name
    ensures var id := ObligationId(cid, specs[i].name);
            id in SaveSpecs(st.obligations, cid, specs)
            && SaveSpecs(st.obligations, cid, specs)[id] == ObligationFor(cid, specs[i])
  {
    forall s | s in specs
      ensures ObligationId(cid, s.name) !in st.obligations
    {
      assert HasPrefix(ObligationId(cid, s.name), "obl_" + cid + "_");
    }
    FirstOfNameWins(st.obligations, cid, specs, i);
  }

  /** With distinct names the rows of a new change are exactly those of its specifications. */
  lemma NewRowsExactly(st: Store, cid: string, specs: seq<Spec>, o: string)
    requires Unused(st, cid)
    requires forall i, j :: 0 <= i < j < |specs| ==> specs[i].name != specs[j].name
    ensures var after := SaveSpecs(st.obligations, cid, specs);
            ObligationOf(after, cid, o) <==>
            exists i :: 0 <= i < |specs| && o == ObligationId(cid, specs[i].name)
                        && o in after && after[o] == ObligationFor(cid, specs[i])
  {
    SaveSpecsRows(st.obligations, cid, specs);
    forall i | 0 <= i < |specs|
      ensures var id := ObligationId(cid, specs[i].name);
              id in SaveSpecs(st.obligations, cid, specs)
              && SaveSpecs(st.obligations, cid, specs)[id] == ObligationFor(cid, specs[i])
    {
      FirstOfNameIsSaved(st, cid, specs, i);
    }
  }

  lemma SameNameSameKind(plat: Platform, kind: string, scope: seq<string>)
    ensures SpecFor(plat, kind, scope).name == SpecFor(plat, kind, []).name
  {
  }

  lemma NamesAreDistinct(plat: Platform, cc: ChangeControl, paths: seq<string>)
    requires DistinctTitles(plat, cc, paths)
    ensures var specs := Resolve(plat, cc, paths);
            forall i, j :: 0 <= i < j < |specs| ==> specs[i].name != specs[j].name
  {
    var ds, specs := Demands(plat, cc, paths), Resolve(plat, cc, paths);
    KindsAreDemanded(ds);
    forall i, j | 0 <= i < j < |specs|
      ensures specs[i].name != specs[j].name
    {
      var k, k' := Kinds(ds)[i], Kinds(ds)[j];
      SpecOfKind(plat, k, ScopeOf(ds, k));
      SpecOfKind(plat, k', ScopeOf(ds, k'));
      assert specs[i].kind == k && specs[j].kind == k';
      PolicyIsExact(plat, cc, paths, k);
      PolicyIsExact(plat, cc, paths, k');
      SameNameSameKind(plat, k, ScopeOf(ds, k));
      SameNameSameKind(plat, k', ScopeOf(ds, k'));
    }
  }

  /** Without a policy, or if it asks for nothing on these paths, there is one default obligation. */
  ghost predicate AsksNothing(cfg: Config, paths: seq<string>) {
    cfg.policy.Some? ==> forall k :: k != "" ==> !AsksFor(cfg.plat, cfg.policy.value, paths, k)
  }

  lemma LockedExactly(cfg: Config, paths: seq<string>)
    ensures LockedSpecs(cfg, paths) ==
            if AsksNothing(cfg, paths) then [Spec("unit_tests", "default_verification", true, [], "", 0)]
            else Resolve(cfg.plat, cfg.policy.value, paths)
  {
    if cfg.policy.Some? {
      var specs := Resolve(cfg.plat, cfg.policy.value, paths);
      if specs != [] {
        PolicyIsExact(cfg.plat, cfg.policy.value, paths, specs[0].kind);
        assert Specified(specs, specs[0].kind);
      } else {
        forall k
          ensures k != "" ==> !AsksFor(cfg.plat, cfg.policy.value, paths, k)
        {
          PolicyIsExact(cfg.plat, cfg.policy.value, paths, k);
        }
      }
    }
  }

  lemma OneNewRow(st: Store, cid: string, spec: Spec, o: string)
    requires Unused(st, cid)
    ensures var after, id := SaveSpecs(st.obligations, cid, [spec]), "obl_" + cid + "_" + spec.name;
            && (ObligationOf(after, cid, o) <==> o == id)
            && id in after && after[id] == ObligationFor(cid, spec)
  {
    var specs := [spec];
    NewRowsExactly(st, cid, specs, o);
    FirstOfNameIsSaved(st, cid, specs, 0);
  }

  /** A change that nothing is asked of owes exactly the default verification. */
  lemma DefaultIsOwed(cfg: Config, st: Store, req: CreateRequest, generated: string, tree: string, paths: seq<string>,
                      o: string)
    requires ErrorOf(cfg, st, OpCreate(req, generated, Tree(tree), paths)) == None && AsksNothing(cfg, paths)
    requires Unused(st, if req.changeId == "" then generated else req.changeId)
    ensures var cid := if req.changeId == "" then generated else req.changeId;
            var after := Step(cfg, st, OpCreate(req, generated, Tree(tree), paths)).obligations;
            var id := "obl_" + cid + "_" + "default_verification";
            && (ObligationOf(after, cid, o) <==> o == id)
            && id in after
            && after[id] == Obligation(id, cid, "unit_tests", "default_verification", true, Pending, [], "", 0, "")
  {
    var cid := if req.changeId == "" then generated else req.changeId;
    LockedExactly(cfg, paths);
    OneNewRow(st, cid, Spec("unit_tests", "default_verification", true, [], "", 0), o);
  }

  ghost predicate OwesKind(obligations: map<string, Obligation>, cid: string, k: string) {
    exists o :: RequiredOf(obligations, cid, o) && obligations[o].kind == k
  }

  lemma SpecsAreOwed(st: Store, cid: string, specs: seq<Spec>, k: string)
    requires Unused(st, cid) && forall i, j :: 0 <= i < j < |specs| ==> specs[i].name != specs[j].name
    requires forall i :: 0 <= i < |specs| ==> specs[i].required
    ensures OwesKind(SaveSpecs(st.obligations, cid, specs), cid, k) <==> Specified(specs, k)
  {
    var after := SaveSpecs(st.obligations, cid, specs);
    if o :| RequiredOf(after, cid, o) && after[o].kind == k {
      NewRowsExactly(st, cid, specs, o);
    }
    if i :| 0 <= i < |specs| && specs[i].kind == k {
      FirstOfNameIsSaved(st, cid, specs, i);
      assert RequiredOf(after, cid, ObligationId(cid, specs[i].name));
    }
  }

  /**
   * A new change owes a proof of type k if and only if the policy asks for it: a default, or a rule that has no paths
   * or one that matches an affected path.
   */
  lemma CreationOwesExactly(cfg: Config, st: Store, req: CreateRequest, generated: string, tree: string,
                            paths: seq<string>, k: string)
    requires ErrorOf(cfg, st, OpCreate(req, generated, Tree(tree), paths)) == None && !AsksNothing(cfg, paths)
    requires Unused(st, if req.changeId == "" then generated else req.changeId)
    requires DistinctTitles(cfg.plat, cfg.policy.value, paths)
    ensures var cid := if req.changeId == "" then generated else req.changeId;
            var after := Step(cfg, st, OpCreate(req, generated, Tree(tree), paths)).obligations;
            OwesKind(after, cid, k) <==> k != "" && AsksFor(cfg.plat, cfg.policy.value, paths, k)
  {
    var cid := if req.changeId == "" then generated else req.changeId;
    LockedExactly(cfg, paths);
    NamesAreDistinct(cfg.plat, cfg.policy.value, paths);
    PolicyIsExact(cfg.plat, cfg.policy.value, paths, k);
    SpecsAreOwed(st, cid, Resolve(cfg.plat, cfg.policy.value, paths), k);
  }

  /**
   * The rows are what the policy says: required and pending, scoped to the paths of the rules that ask for the type,
   * with the command that belongs to it.
   */
  lemma CreatedRowsExactly(cfg: Config, st: Store, req: CreateRequest, generated: string, tree: string,
                           paths: seq<string>, o: string)
    requires ErrorOf(cfg, st, OpCreate(req, generated, Tree(tree), paths)) == None && !AsksNothing(cfg, paths)
    requires Unused(st, if req.changeId == "" then generated else req.changeId)
    requires DistinctTitles(cfg.plat, cfg.policy.value, paths)
    requires var cid := if req.changeId == "" then generated else req.changeId;
             ObligationOf(Step(cfg, st, OpCreate(req, generated, Tree(tree), paths)).obligations, cid, o)
    ensures var row := Step(cfg, st, OpCreate(req, generated, Tree(tree), paths)).obligations[o];
            && row.id == o && row.required && row.status == Pending && row.currentEvidence == ""
            && row.expectedExitCode == 0
            && (forall p :: p in row.scope <==> Scopes(cfg.plat, cfg.policy.value.rules, paths, row.kind, p))
            && row.command == (if row.kind == "unit_tests" then "go test ./..."
                               else if row.kind == "race_detector" then "go test -race ./..."
                               else if row.kind == "build" then "go build ./..."
                               else if row.kind == "lint" then "go vet ./..."
                               else "")
  {
    var cid := if req.changeId == "" then generated else req.changeId;
    var specs := Resolve(cfg.plat, cfg.policy.value, paths);
    LockedExactly(cfg, paths);
    NamesAreDistinct(cfg.plat, cfg.policy.value, paths);
    NewRowsExactly(st, cid, specs, o);
    var i: nat :| i < |specs| && o == ObligationId(cid, specs[i].name)
                  && SaveSpecs(st.obligations, cid, specs)[o] == ObligationFor(cid, specs[i]);
    PolicyIsExact(cfg.plat, cfg.policy.value, paths, specs[i].kind);
    CommandsExactly(cfg.plat, cfg.policy.value, paths, i);
    forall p
      ensures p in specs[i].scope <==> Scopes(cfg.plat, cfg.policy.value.rules, paths, specs[i].kind, p)
    {
      ScopesAreExact(cfg.plat, cfg.policy.value, paths, i, p);
    }
  }

  // ---------------------------------------------------------------- what the gate makes of obligations

  /** Some evidence for the obligation was valid before and is not any more. */
  ghost predicate LostEvidence(before: Store, after: Store, o: string) {
    o != "" && exists e :: e in before.evidence && e in after.evidence && before.evidence[e].obligationId == o
                           && before.evidence[e].valid && !after.evidence[e].valid
  }

  /**
   * The status a completed gate evaluation of `cid` stores for an obligation: failed with valid failing evidence on
   * the tree, else passed with passing evidence, else stale if it was or if its evidence was just invalidated, else
   * pending. Obligations of other changes only become stale.
   */
  lemma GateStatuses(plat: Platform, st: Store, cid: string, tree: string, paths: seq<string>, o: string)
    requires Keyed(st) && cid in st.changes && o in st.obligations
    ensures var after := Gate(plat, st, cid, tree, paths);
            var was := if LostEvidence(st, after, o) then Stale else st.obligations[o].status;
            && o in after.obligations
            && after.obligations[o].status ==
               if st.obligations[o].changeId != cid then was
               else if HasResult(after.evidence, cid, o, tree, "failed") then Failed
               else if HasResult(after.evidence, cid, o, tree, "passed") then Passed
               else if was == Stale then Stale
               else Pending
  {
    GateShape(plat, st, cid, tree, paths);
    LostExactly(plat, st, cid, tree, paths, o);
    GradesExactly(plat, st, cid, tree, paths, o);
  }

  lemma GradesExactly(plat: Platform, st: Store, cid: string, tree: string, paths: seq<string>, o: string)
    requires Keyed(st) && cid in st.changes && o in st.obligations
    ensures var seen, after := Refreshed(plat, st, cid, tree, paths), Gate(plat, st, cid, tree, paths);
            && o in seen.obligations && o in after.obligations
            && after.obligations[o].status == StatusByEvidence(seen, cid, tree, o)
  {
    RefreshedShape(plat, st, cid, tree, paths);
    GradeByEvidence(Refreshed(plat, st, cid, tree, paths), cid, tree, o);
  }

  ghost function StatusByEvidence(seen: Store, cid: string, tree: string, o: string): ProofStatus
    requires o in seen.obligations
  {
    if seen.obligations[o].changeId != cid then seen.obligations[o].status
    else if HasResult(seen.evidence, cid, o, tree, "failed") then Failed
    else if HasResult(seen.evidence, cid, o, tree, "passed") then Passed
    else if seen.obligations[o].status == Stale then Stale
    else Pending
  }

  lemma GradeByEvidence(seen: Store, cid: string, tree: string, o: string)
    requires o in seen.obligations
    ensures WithGrades(seen, cid, tree, ObligationIds(seen, cid)).obligations[o].status ==
            StatusByEvidence(seen, cid, tree, o)
  {
  }

  lemma LostExactly(plat: Platform, st: Store, cid: string, tree: string, paths: seq<string>, o: string)
    requires Keyed(st) && cid in st.changes && o in st.obligations
    ensures var seen := Refreshed(plat, st, cid, tree, paths);
            && o in seen.obligations && seen.obligations[o].changeId == st.obligations[o].changeId
            && seen.obligations[o].status == if LostEvidence(st, seen, o) then Stale else st.obligations[o].status
  {
    RefreshedShape(plat, st, cid, tree, paths);
    if tree != st.changes[cid].currentTree {
      var dead := set id | id in st.evidence && Doomed(plat, st, cid, paths, id);
      assert HitBy(st.evidence, dead, o) <==> LostEvidence(st, Refreshed(plat, st, cid, tree, paths), o);
    }
  }

  /** The lists of a gate result agree with the statuses that the gate stores. */
  lemma ListsTellStatuses(r: GateResult, plat: Platform, st: Store, cid: string, tree: string, paths: seq<string>,
                          o: string)
    requires Keyed(st) && cid in st.changes && o in st.obligations
    requires ReportsClasses(r, Refreshed(plat, st, cid, tree, paths), cid, tree)
    ensures var after := Gate(plat, st, cid, tree, paths);
            && o in after.obligations
            && (o in r.passed <==> st.obligations[o].changeId == cid && after.obligations[o].status == Passed)
            && (o in r.failed <==> st.obligations[o].changeId == cid && after.obligations[o].status == Failed)
            && (o in r.stale <==> st.obligations[o].changeId == cid && after.obligations[o].status == Stale)
            && (o in r.pending <==> st.obligations[o].changeId == cid && after.obligations[o].status == Pending)
  {
    var seen := Refreshed(plat, st, cid, tree, paths);
    RefreshedShape(plat, st, cid, tree, paths);
    SameTermsSameObligations(st.obligations, seen.obligations, cid, o);
    var rows :|
      && Lists(rows, ObligationIds(seen, cid))
      && FourClasses(seen, cid, tree, rows, r.passed, r.pending, r.failed, r.stale);
    assert forall x :: x in rows ==> x in seen.obligations;
    OfClassExact(seen, cid, tree, rows, InPassed);
    OfClassExact(seen, cid, tree, rows, InFailed);
    OfClassExact(seen, cid, tree, rows, InStale);
    OfClassExact(seen, cid, tree, rows, InPending);
  }

  /** What the operations that save evidence make of a status before the gate that follows them. */
  lemma SavedStatuses(cfg: Config, st: Store, op: Op, o: string)
    requires Keyed(st) && SavedRow(cfg, st, op).Some? && o in st.obligations
    ensures o in Saved(st, op).obligations
    ensures var status := Saved(st, op).obligations[o].status;
            status == match op {
              case OpSubmit(ev, _, _, _) =>
                if o != ev.obligationId || o == "" then st.obligations[o].status
                else if ev.result == "passed" then Passed else Failed
              case OpExecute(_, oid, _, _, run, _) =>
                if o != oid then st.obligations[o].status
                else if EndsAsExpected(st.obligations[o], run) then Passed else Failed
              case _ => status
            }
  {
  }

  // ---------------------------------------------------------------- what no operation rewrites

  ghost predicate AuthorsStay(before: Store, after: Store) {
    forall c :: c in before.changes ==> c in after.changes && after.changes[c].author == before.changes[c].author
  }

  predicate SamePolicy(o: Obligation, o': Obligation) {
    && o'.id == o.id && o'.changeId == o.changeId && o'.kind == o.kind && o'.name == o.name
    && o'.required == o.required && o'.scope == o.scope && o'.command == o.command
    && o'.expectedExitCode == o.expectedExitCode
  }

  ghost predicate PoliciesStay(before: Store, after: Store) {
    forall o :: o in before.obligations ==>
      o in after.obligations && SamePolicy(before.obligations[o], after.obligations[o])
  }

  ghost predicate ContentStays(before: Store, after: Store) {
    forall e :: e in before.evidence ==>
      e in after.evidence && after.evidence[e].(valid := true) == before.evidence[e].(valid := true)
  }

  /** Changes keep their author, obligations their policy columns, and evidence everything but its validity. */
  ghost predicate RewritesNothing(before: Store, after: Store) {
    AuthorsStay(before, after) && PoliciesStay(before, after) && ContentStays(before, after)
  }

  lemma SameTermsStay(before: Store, after: Store)
    requires forall o :: o in before.obligations ==>
               o in after.obligations && Terms(after.obligations[o]) == Terms(before.obligations[o])
    ensures PoliciesStay(before, after)
  {
    forall o | o in before.obligations
      ensures SamePolicy(before.obligations[o], after.obligations[o])
    {
      var x, y := before.obligations[o], after.obligations[o];
      assert y == Terms(y).(status := y.status, currentEvidence := y.currentEvidence);
      assert x == Terms(x).(status := x.status, currentEvidence := x.currentEvidence);
    }
  }

  lemma GateRewritesNothing(plat: Platform, st: Store, cid: string, view: GateView)
    requires Keyed(st) && cid in st.changes
    ensures RewritesNothing(st, TryGate(plat, st, cid, view))
  {
    GateKeepsContent(plat, st, cid, view);
    if view.read.Tree? {
      GateShape(plat, st, cid, view.read.hash, view.paths);
    }
    SameTermsStay(st, TryGate(plat, st, cid, view));
  }

  lemma RewritesNothingTransitive(a: Store, b: Store, c: Store)
    requires RewritesNothing(a, b) && RewritesNothing(b, c)
    ensures RewritesNothing(a, c)
  {
  }

  lemma SavingRewritesNothing(cfg: Config, st: Store, op: Op)
    requires Keyed(st) && SavedRow(cfg, st, op).Some?
    ensures RewritesNothing(st, Saved(st, op))
  {
    SavedShape(cfg, st, op);
    SameTermsStay(st, Saved(st, op));
  }

  lemma CreationRewritesNothing(cfg: Config, st: Store, op: Op)
    requires Keyed(st) && op.OpCreate? && ErrorOf(cfg, st, op) == None
    ensures RewritesNothing(st, Step(cfg, st, op))
  {
    SaveSpecsShape(st.obligations, OrElse(op.req.changeId, op.generated), LockedSpecs(cfg, op.paths));
    SameTermsStay(st, Step(cfg, st, op));
  }

  lemma StepRewritesNothing(cfg: Config, st: Store, op: Op)
    requires Keyed(st)
    ensures RewritesNothing(st, Step(cfg, st, op))
  {
    if SavedRow(cfg, st, op).Some? {
      SavedShape(cfg, st, op);
      SavingRewritesNothing(cfg, st, op);
      GateRewritesNothing(cfg.plat, Saved(st, op), SavedRow(cfg, st, op).value.changeId, ViewOf(op).value);
      RewritesNothingTransitive(st, Saved(st, op), Step(cfg, st, op));
    } else if ErrorOf(cfg, st, op) == None {
      match op {
        case OpCreate(_, _, _, _) => CreationRewritesNothing(cfg, st, op);
        case OpEvaluate(cid, view) => GateRewritesNothing(cfg.plat, st, cid, view);
        case _ =>
      }
    }
  }

  /**
   * The policy of a change is locked: over any run, whatever ids are used again, no row disappears, and changes keep
   * their author, obligations their policy columns and evidence its content.
   */
  lemma {:induction false} NothingIsRewritten(cfg: Config, ops: seq<Op>, n: nat)
    requires n <= |ops|
    ensures RewritesNothing(Run(cfg, ops[..n]), Run(cfg, ops))
  {
    if n == |ops| {
      assert ops[..n] == ops;
    } else {
      var before := ops[..|ops| - 1];
      assert before[..n] == ops[..n];
      NothingIsRewritten(cfg, before, n);
      RunKeeps(cfg, before);
      StepRewritesNothing(cfg, Run(cfg, before), ops[|ops| - 1]);
      RewritesNothingTransitive(Run(cfg, ops[..n]), Run(cfg, before), Run(cfg, ops));
    }
  }

  // ---------------------------------------------------------------- nobody reviews himself

  /** Review evidence that was submitted comes from somebody other than the author. */
  ghost predicate NoSelfReview(st: Store) {
    forall e :: e in st.evidence && st.evidence[e].source != "harnessmesh"
                && st.evidence[e].kind in {"peer_review", "security_audit", "independent_review"} ==>
      st.evidence[e].changeId in st.changes && st.evidence[e].source != st.changes[st.evidence[e].changeId].author
  }

  lemma NoSelfReviewStays(before: Store, after: Store)
    requires NoSelfReview(before) && RewritesNothing(before, after) && after.evidence.Keys == before.evidence.Keys
    ensures NoSelfReview(after)
  {
    forall e | e in after.evidence
      ensures after.evidence[e].kind == before.evidence[e].kind && after.evidence[e].source == before.evidence[e].source
      ensures after.evidence[e].changeId == before.evidence[e].changeId
    {
      assert after.evidence[e].(valid := true) == before.evidence[e].(valid := true);
    }
  }

  lemma SavedIsNoSelfReview(cfg: Config, st: Store, op: Op)
    requires Keyed(st) && NoSelfReview(st) && SavedRow(cfg, st, op).Some?
    ensures NoSelfReview(Saved(st, op))
  {
    SavedShape(cfg, st, op);
    SavingRewritesNothing(cfg, st, op);
    RefusedExactly(cfg, st, op);
    var e, after := SavedRow(cfg, st, op).value, Saved(st, op);
    assert after.evidence == SaveEvidence(st.evidence, e);
    assert after.changes[e.changeId].author == st.changes[e.changeId].author;
    assert op.OpSubmit? ==> !Reason(cfg, st, op, SelfReview);
  }

  lemma StepKeepsNoSelfReview(cfg: Config, st: Store, op: Op)
    requires Keyed(st) && NoSelfReview(st)
    ensures NoSelfReview(Step(cfg, st, op))
  {
    StepRewritesNothing(cfg, st, op);
    if SavedRow(cfg, st, op).Some? {
      SavedShape(cfg, st, op);
      SavedIsNoSelfReview(cfg, st, op);
      var c, view := SavedRow(cfg, st, op).value.changeId, ViewOf(op).value;
      GateKeepsContent(cfg.plat, Saved(st, op), c, view);
      GateRewritesNothing(cfg.plat, Saved(st, op), c, view);
      NoSelfReviewStays(Saved(st, op), Step(cfg, st, op));
    } else {
      if ErrorOf(cfg, st, op) == None && op.OpEvaluate? {
        GateKeepsContent(cfg.plat, st, op.cid, op.view);
      }
      NoSelfReviewStays(st, Step(cfg, st, op));
    }
  }

  /** In every run no evidence of a review comes from the author, except what the coordinator itself records. */
  lemma {:induction false} NobodyReviewsHimself(cfg: Config, ops: seq<Op>)
    ensures NoSelfReview(Run(cfg, ops))
  {
    if ops != [] {
      var before := ops[..|ops| - 1];
      NobodyReviewsHimself(cfg, before);
      RunKeeps(cfg, before);
      StepKeepsNoSelfReview(cfg, Run(cfg, before), ops[|ops| - 1]);
    }
  }

  // ---------------------------------------------------------------- a change id that is used again

  /** Creating a change again sets its obligations back to pending, and rewrites nothing else of them. */
  lemma CreatedAgain(cfg: Config, st: Store, req: CreateRequest, generated: string, tree: string, paths: seq<string>,
                     o: string)
    requires ErrorOf(cfg, st, OpCreate(req, generated, Tree(tree), paths)) == None && AsksNothing(cfg, paths)
    requires o in st.obligations
    ensures var cid := if req.changeId == "" then generated else req.changeId;
            var after := Step(cfg, st, OpCreate(req, generated, Tree(tree), paths)).obligations;
            && o in after
            && after[o] == if o == "obl_" + cid + "_" + "default_verification"
                           then st.obligations[o].(status := Pending, currentEvidence := "") else st.obligations[o]
  {
    var cid := if req.changeId == "" then generated else req.changeId;
    LockedExactly(cfg, paths);
    SavedOnce(st.obligations, cid, Spec("unit_tests", "default_verification", true, [], "", 0), o);
  }

  lemma SavedOnce(rows: map<string, Obligation>, cid: string, spec: Spec, o: string)
    requires o in rows
    ensures var after := SaveSpecs(rows, cid, [spec]);
            && o in after
            && after[o] == if o == ObligationId(cid, spec.name)
                           then rows[o].(status := Pending, currentEvidence := "") else rows[o]
  {
    assert [spec][..0] == [];
    assert SaveSpecs(rows, cid, []) == rows;
  }
}
