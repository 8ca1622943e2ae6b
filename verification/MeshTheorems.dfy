/** What every run of the MeshCommit coordinator keeps, and what a commit therefore guarantees. */
module MeshTheorems {
  import opened Text
  import opened PathPatterns
  import opened ProofPolicy
  import opened MeshStore
  import opened MeshGate
  import opened MeshSpec

  predicate ReadyToCommit(status: ChangeStatus) {
    status in {Committable, Verified}
  }

  /** Every change that may be committed is proved on its current tree, which is the tree it was verified on. */
  ghost predicate Backed(st: Store) {
    && Keyed(st)
    && forall c :: c in st.changes && ReadyToCommit(st.changes[c].status) ==>
         st.changes[c].verifiedTree == st.changes[c].currentTree && Proved(st, c, st.changes[c].currentTree)
  }

  // ---------------------------------------------------------------- frames

  ghost predicate SameDuties(before: Store, after: Store, c: string) {
    && (forall o :: ObligationOf(after.obligations, c, o) <==> ObligationOf(before.obligations, c, o))
    && (forall o :: RequiredOf(after.obligations, c, o) <==> RequiredOf(before.obligations, c, o))
  }

  /** Valid evidence rows of change `c` that are in `before` are in `after` too. */
  ghost predicate KeepsValidRows(before: Store, after: Store, c: string) {
    forall e :: e in before.evidence && before.evidence[e].changeId == c && before.evidence[e].valid ==>
      e in after.evidence && after.evidence[e] == before.evidence[e]
  }

  lemma SameTermsSameDuties(before: Store, after: Store, c: string)
    requires SameTerms(before.obligations, after.obligations)
    ensures SameDuties(before, after, c)
  {
  }

  lemma ProvedFrame(before: Store, after: Store, c: string, tree: string)
    requires SameDuties(before, after, c) && KeepsValidRows(before, after, c) && Proved(before, c, tree)
    ensures Proved(after, c, tree)
  {
  }

  lemma UnrefutedFrame(before: Store, after: Store, c: string, tree: string)
    requires SameDuties(before, after, c) && KeepsValidRows(before, after, c) && KeepsValidRows(after, before, c)
    ensures Unrefuted(after, c, tree) <==> Unrefuted(before, c, tree)
  {
    forall o
      ensures HasResult(after.evidence, c, o, tree, "failed") <==> HasResult(before.evidence, c, o, tree, "failed")
    {
      assert forall e :: e in before.evidence && Shows(before.evidence[e], c, o, tree, "failed") ==>
        e in after.evidence && Shows(after.evidence[e], c, o, tree, "failed");
      assert forall e :: e in after.evidence && Shows(after.evidence[e], c, o, tree, "failed") ==>
        e in before.evidence && Shows(before.evidence[e], c, o, tree, "failed");
    }
  }

  // ---------------------------------------------------------------- a gate evaluation keeps the invariant

  lemma GateKeepsOthers(plat: Platform, st: Store, cid: string, tree: string, paths: seq<string>, c: string)
    requires Keyed(st) && cid in st.changes && c != cid
    ensures var after := Gate(plat, st, cid, tree, paths);
            SameDuties(st, after, c) && KeepsValidRows(st, after, c) && KeepsValidRows(after, st, c)
  {
    RefreshedShape(plat, st, cid, tree, paths);
    GateShape(plat, st, cid, tree, paths);
    SameTermsSameDuties(st, Gate(plat, st, cid, tree, paths), c);
  }

  /** `but`: the change whose own claim may be broken before the gate looks at it. */
  ghost predicate BackedBut(st: Store, but: string) {
    && Keyed(st)
    && forall c :: c in st.changes && c != but && ReadyToCommit(st.changes[c].status) ==>
         st.changes[c].verifiedTree == st.changes[c].currentTree && Proved(st, c, st.changes[c].currentTree)
  }

  /**
   * Whatever state the change is in, a completed gate evaluation restores the invariant for it, and leaves it ready
   * to commit only without valid failing evidence for a required obligation.
   */
  lemma GateRestores(plat: Platform, st: Store, cid: string, tree: string, paths: seq<string>)
    requires BackedBut(st, cid) && cid in st.changes
    ensures var after := Gate(plat, st, cid, tree, paths);
            && Backed(after) && cid in after.changes
            && (ReadyToCommit(after.changes[cid].status) ==> Unrefuted(after, cid, after.changes[cid].currentTree))
  {
    var after := Gate(plat, st, cid, tree, paths);
    GateShape(plat, st, cid, tree, paths);
    GateVerdict(plat, st, cid, tree, paths);
    forall c | c in after.changes && c != cid && ReadyToCommit(after.changes[c].status)
      ensures after.changes[c] == st.changes[c] && Proved(after, c, after.changes[c].currentTree)
    {
      GateKeepsOthers(plat, st, cid, tree, paths, c);
      ProvedFrame(st, after, c, st.changes[c].currentTree);
    }
  }

  // ---------------------------------------------------------------- saving evidence

  /** The evidence row an operation saves, if it saves one. */
  ghost function SavedRow(cfg: Config, st: Store, op: Op): Option<Evidence> {
    if ErrorOf(cfg, st, op).Some? then None
    else
      match op
      case OpSubmit(ev, generated, _, _) => Some(ev.(id := OrElse(ev.id, generated), valid := true))
      case OpExecute(cid, oid, generated, _, run, _) =>
        if HasCachedProof(st, oid, st.changes[cid].currentTree) then None
        else Some(ProofRow(st.changes[cid], st.obligations[oid], oid, generated, run))
      case _ => None
  }

  function ViewOf(op: Op): Option<GateView> {
    match op
    case OpSubmit(_, _, _, view) => Some(view)
    case OpExecute(_, _, _, _, _, view) => Some(view)
    case OpEvaluate(_, view) => Some(view)
    case _ => None
  }

  /** Evidence ids are fresh: the id under which the operation saves evidence is not taken. */
  ghost predicate FreshEvidence(cfg: Config, st: Store, op: Op) {
    SavedRow(cfg, st, op).Some? ==> SavedRow(cfg, st, op).value.id !in st.evidence
  }

  /** The store between the save of an evidence row and the gate evaluation. */
  ghost function Saved(st: Store, op: Op): Store
    requires op.OpSubmit? ==> op.ev.changeId in st.changes
    requires op.OpExecute? ==> op.cid in st.changes && op.oid in st.obligations
  {
    match op
    case OpSubmit(ev, generated, _, _) => Submitted(st, ev, generated)
    case OpExecute(cid, oid, generated, _, run, _) => Executed(st, cid, oid, generated, run)
    case _ => st
  }

  /** What saving evidence row `e` leaves as it was: the terms of obligations, and every change's claim to be ready. */
  ghost predicate OnlySaves(st: Store, after: Store, e: Evidence) {
    && Keyed(after)
    && e.valid && e.changeId in st.changes && e.tree == st.changes[e.changeId].currentTree
    && SameTerms(st.obligations, after.obligations)
    && after.evidence == SaveEvidence(st.evidence, e)
    && after.changes.Keys == st.changes.Keys
    && (forall c :: c in st.changes && c != e.changeId ==> after.changes[c] == st.changes[c])
    && (|| after.changes[e.changeId] == st.changes[e.changeId]
        || (st.changes[e.changeId].status in {Draft, Prepared}
            && after.changes[e.changeId] == st.changes[e.changeId].(status := UnderVerification)))
  }

  lemma SubmittedShape(st: Store, ev: Evidence, generated: string)
    requires Keyed(st) && ev.changeId in st.changes && ev.tree == st.changes[ev.changeId].currentTree
    ensures OnlySaves(st, Submitted(st, ev, generated), ev.(id := OrElse(ev.id, generated), valid := true))
  {
  }

  lemma ExecutedShape(st: Store, cid: string, oid: string, generated: string, run: CommandRun)
    requires Keyed(st) && cid in st.changes && oid in st.obligations
    ensures OnlySaves(st, Executed(st, cid, oid, generated, run),
                      ProofRow(st.changes[cid], st.obligations[oid], oid, generated, run))
  {
  }

  lemma SavedShape(cfg: Config, st: Store, op: Op)
    requires Keyed(st) && SavedRow(cfg, st, op).Some?
    ensures OnlySaves(st, Saved(st, op), SavedRow(cfg, st, op).value)
    ensures Step(cfg, st, op)
         == TryGate(cfg.plat, Saved(st, op), SavedRow(cfg, st, op).value.changeId, ViewOf(op).value)
  {
    if op.OpSubmit? {
      SubmittedShape(st, op.ev, op.generated);
    } else {
      ExecutedShape(st, op.cid, op.oid, op.generated, op.run);
    }
  }

  /** Saving a row never takes valid evidence away. */
  lemma SavingKeepsBacked(cfg: Config, st: Store, op: Op)
    requires Backed(st) && SavedRow(cfg, st, op).Some?
    ensures Backed(Saved(st, op))
  {
    SavedShape(cfg, st, op);
    var after := Saved(st, op);
    forall c | c in after.changes && ReadyToCommit(after.changes[c].status)
      ensures after.changes[c] == st.changes[c] && Proved(after, c, after.changes[c].currentTree)
    {
      SameTermsSameDuties(st, after, c);
      ProvedFrame(st, after, c, st.changes[c].currentTree);
    }
  }

  // ---------------------------------------------------------------- creating a change

  lemma {:induction false} SaveSpecsShape(obligations: map<string, Obligation>, cid: string, specs: seq<Spec>)
    requires forall o :: o in obligations ==> obligations[o].id == o
    ensures var after := SaveSpecs(obligations, cid, specs);
            (&& obligations.Keys <= after.Keys
             && (forall o :: o in obligations ==> Terms(after[o]) == Terms(obligations[o]))
             && (forall o :: o in after && o !in obligations ==> after[o].changeId == cid)
             && (forall o :: o in after ==> after[o].id == o))
  {
    if specs != [] {
      SaveSpecsShape(obligations, cid, specs[..|specs| - 1]);
    }
  }

  lemma CreatedKeepsOthers(cfg: Config, st: Store, req: CreateRequest, cid: string, tree: string, paths: seq<string>,
                           c: string)
    requires Keyed(st) && c != cid
    ensures SameDuties(st, Created(cfg, st, req, cid, tree, paths), c)
  {
    var specs := LockedSpecs(cfg, paths);
    SaveSpecsShape(st.obligations, cid, specs);
    var after := SaveSpecs(st.obligations, cid, specs);
    forall o
      ensures ObligationOf(after, c, o) <==> ObligationOf(st.obligations, c, o)
      ensures RequiredOf(after, c, o) <==> RequiredOf(st.obligations, c, o)
    {
      if o in st.obligations {
        assert Terms(after[o]).changeId == Terms(st.obligations[o]).changeId;
        assert Terms(after[o]).required == Terms(st.obligations[o]).required;
      }
    }
  }

  /** Re-using a change id resets that change to draft and disturbs no other. */
  lemma CreatingKeepsBacked(cfg: Config, st: Store, req: CreateRequest, cid: string, tree: string, paths: seq<string>)
    requires Backed(st)
    ensures Backed(Created(cfg, st, req, cid, tree, paths))
  {
    var after := Created(cfg, st, req, cid, tree, paths);
    SaveSpecsShape(st.obligations, cid, LockedSpecs(cfg, paths));
    forall c | c in st.changes && c != cid && ReadyToCommit(st.changes[c].status)
      ensures Proved(after, c, st.changes[c].currentTree)
    {
      CreatedKeepsOthers(cfg, st, req, cid, tree, paths, c);
      ProvedFrame(st, after, c, st.changes[c].currentTree);
    }
  }

  // ---------------------------------------------------------------- prepare, commit, abort

  /** Operations that only write the row of one change, and leave it not ready to commit. */
  lemma RowWriteKeepsBacked(st: Store, row: Change)
    requires Backed(st) && row.id in st.changes && !ReadyToCommit(row.status)
    ensures Backed(st.(changes := SaveChange(st.changes, row)))
  {
  }

  lemma EvidenceStepKeepsBacked(cfg: Config, st: Store, op: Op)
    requires Backed(st) && SavedRow(cfg, st, op).Some?
    ensures Backed(Step(cfg, st, op))
  {
    SavedShape(cfg, st, op);
    SavingKeepsBacked(cfg, st, op);
    var e, view := SavedRow(cfg, st, op).value, ViewOf(op).value;
    if view.read.Tree? {
      GateRestores(cfg.plat, Saved(st, op), e.changeId, view.read.hash, view.paths);
    }
  }

  /** Every operation, whatever its reads of the tree return, keeps "ready to commit" backed by passing evidence. */
  lemma StepKeepsBacked(cfg: Config, st: Store, op: Op)
    requires Backed(st)
    ensures Backed(Step(cfg, st, op))
  {
    if ErrorOf(cfg, st, op).None? {
      match op {
        case OpCreate(req, generated, read, paths) =>
          CreatingKeepsBacked(cfg, st, req, OrElse(req.changeId, generated), read.hash, paths);
        case OpPrepare(cid, _, read) =>
          RowWriteKeepsBacked(st, st.changes[cid].(currentTree := read.hash, status := Prepared));
        case OpSubmit(_, _, _, _) =>
          EvidenceStepKeepsBacked(cfg, st, op);
        case OpExecute(cid, oid, _, _, _, _) =>
          if !HasCachedProof(st, oid, st.changes[cid].currentTree) {
            EvidenceStepKeepsBacked(cfg, st, op);
          }
        case OpEvaluate(cid, view) =>
          GateRestores(cfg.plat, st, cid, view.read.hash, view.paths);
        case OpCommit(cid, _, _, gitSha, stamp) =>
          RowWriteKeepsBacked(st, AfterCommit(st.changes[cid], gitSha, stamp));
        case OpAbort(cid, _) =>
          RowWriteKeepsBacked(st, st.changes[cid].(status := Aborted));
      }
    }
  }

  /** Every operation keeps rows and keys in agreement. */
  lemma StepKeepsKeyed(cfg: Config, st: Store, op: Op)
    requires Keyed(st)
    ensures Keyed(Step(cfg, st, op))
  {
    if SavedRow(cfg, st, op).Some? {
      SavedShape(cfg, st, op);
      var e, view := SavedRow(cfg, st, op).value, ViewOf(op).value;
      if view.read.Tree? {
        GateShape(cfg.plat, Saved(st, op), e.changeId, view.read.hash, view.paths);
      }
    } else if ErrorOf(cfg, st, op).None? && op.OpEvaluate? {
      GateShape(cfg.plat, st, op.cid, op.view.read.hash, op.view.paths);
    } else if ErrorOf(cfg, st, op).None? && op.OpCreate? {
      SaveSpecsShape(st.obligations, OrElse(op.req.changeId, op.generated), LockedSpecs(cfg, op.paths));
    }
  }

  // ---------------------------------------------------------------- when failing evidence is kept out

  /** The operation completes a gate evaluation of change `c`. */
  ghost predicate Gates(cfg: Config, st: Store, op: Op, c: string) {
    && ErrorOf(cfg, st, op).None?
    && (if op.OpEvaluate? then op.cid == c
        else SavedRow(cfg, st, op).Some? && SavedRow(cfg, st, op).value.changeId == c)
    && ViewOf(op).value.read.Tree?
  }

  /** The store the gate evaluation of an operation starts from. */
  ghost function AtGate(cfg: Config, st: Store, op: Op): Store {
    if SavedRow(cfg, st, op).Some? then Saved(st, op) else st
  }

  /**
   * The operation saves failing evidence for a required obligation of `c`, and then cannot read the tree, so that no
   * gate demotes the change.
   */
  ghost predicate LeavesRefuted(cfg: Config, st: Store, op: Op, c: string) {
    && SavedRow(cfg, st, op).Some?
    && var e := SavedRow(cfg, st, op).value;
    && e.changeId == c && e.result == "failed" && RequiredOf(st.obligations, c, e.obligationId)
    && ViewOf(op).value.read.Unreadable?
  }

  /** The row of `c` is as it was, and its required obligations are refuted or not as they were. */
  ghost predicate KeepsRefutation(st: Store, after: Store, c: string) {
    && c in st.changes && c in after.changes && after.changes[c] == st.changes[c]
    && (Unrefuted(after, c, st.changes[c].currentTree) <==> Unrefuted(st, c, st.changes[c].currentTree))
  }

  lemma GateAndRefutation(plat: Platform, st: Store, cid: string, tree: string, paths: seq<string>, c: string)
    requires Keyed(st) && cid in st.changes && c in st.changes && c != cid
    ensures KeepsRefutation(st, Gate(plat, st, cid, tree, paths), c)
  {
    GateShape(plat, st, cid, tree, paths);
    GateKeepsOthers(plat, st, cid, tree, paths, c);
    UnrefutedFrame(st, Gate(plat, st, cid, tree, paths), c, st.changes[c].currentTree);
  }

  /** Saving evidence for one change says nothing about another. */
  lemma SaveForOther(cfg: Config, st: Store, op: Op, c: string)
    requires Keyed(st) && SavedRow(cfg, st, op).Some? && FreshEvidence(cfg, st, op)
    requires c in st.changes && SavedRow(cfg, st, op).value.changeId != c
    ensures KeepsRefutation(st, Saved(st, op), c)
  {
    SavedShape(cfg, st, op);
    SameTermsSameDuties(st, Saved(st, op), c);
    UnrefutedFrame(st, Saved(st, op), c, st.changes[c].currentTree);
  }

  /** A fresh row on the current tree refutes its own change exactly if it fails a required obligation. */
  lemma SaveForSame(st: Store, after: Store, e: Evidence)
    requires OnlySaves(st, after, e) && e.id !in st.evidence
    ensures var tree := st.changes[e.changeId].currentTree;
            Unrefuted(after, e.changeId, tree) <==>
            && Unrefuted(st, e.changeId, tree)
            && !(e.result == "failed" && RequiredOf(st.obligations, e.changeId, e.obligationId))
  {
    var c := e.changeId;
    SameTermsSameDuties(st, after, c);
    forall o
      ensures HasResult(after.evidence, c, o, e.tree, "failed") <==>
              HasResult(st.evidence, c, o, e.tree, "failed") || (e.result == "failed" && e.obligationId == o)
    {
      assert after.evidence == st.evidence[e.id := e];
      if HasResult(st.evidence, c, o, e.tree, "failed") {
        var id :| id in st.evidence && Shows(st.evidence[id], c, o, e.tree, "failed");
        assert id in after.evidence && after.evidence[id] == st.evidence[id];
      }
      if e.result == "failed" && e.obligationId == o {
        assert Shows(after.evidence[e.id], c, o, e.tree, "failed");
      }
    }
  }

  lemma EvidenceStepExactly(cfg: Config, st: Store, op: Op, c: string)
    requires Backed(st) && SavedRow(cfg, st, op).Some? && FreshEvidence(cfg, st, op) && !Gates(cfg, st, op, c)
    requires c in Step(cfg, st, op).changes && ReadyToCommit(Step(cfg, st, op).changes[c].status)
    ensures c in st.changes && Step(cfg, st, op).changes[c] == st.changes[c]
    ensures var tree := st.changes[c].currentTree;
            Unrefuted(Step(cfg, st, op), c, tree) <==> Unrefuted(st, c, tree) && !LeavesRefuted(cfg, st, op, c)
  {
    SavedShape(cfg, st, op);
    var e, view := SavedRow(cfg, st, op).value, ViewOf(op).value;
    if e.changeId == c {
      SaveForSame(st, Saved(st, op), e);
    } else if view.read.Tree? {
      GateShape(cfg.plat, Saved(st, op), e.changeId, view.read.hash, view.paths);
      SaveForOther(cfg, st, op, c);
      GateAndRefutation(cfg.plat, Saved(st, op), e.changeId, view.read.hash, view.paths, c);
    } else {
      SaveForOther(cfg, st, op, c);
    }
  }

  lemma CreateStepExactly(cfg: Config, st: Store, op: Op, c: string)
    requires Backed(st) && op.OpCreate? && ErrorOf(cfg, st, op).None?
    requires c in Step(cfg, st, op).changes && ReadyToCommit(Step(cfg, st, op).changes[c].status)
    ensures KeepsRefutation(st, Step(cfg, st, op), c)
  {
    CreatedKeepsOthers(cfg, st, op.req, OrElse(op.req.changeId, op.generated), op.read.hash, op.paths, c);
    UnrefutedFrame(st, Step(cfg, st, op), c, st.changes[c].currentTree);
  }

  /**
   * A change ready to commit after an operation was either just found so by its gate, and then nothing refutes it; or
   * it was ready before with the same row, and is refuted exactly if it was or the operation leaves it refuted.
   */
  lemma StepExactly(cfg: Config, st: Store, op: Op, c: string)
    requires Backed(st) && FreshEvidence(cfg, st, op)
    requires c in Step(cfg, st, op).changes && ReadyToCommit(Step(cfg, st, op).changes[c].status)
    ensures var after := Step(cfg, st, op);
            if Gates(cfg, st, op, c) then Unrefuted(after, c, after.changes[c].currentTree)
            else && c in st.changes && after.changes[c] == st.changes[c]
                 && (Unrefuted(after, c, st.changes[c].currentTree) <==>
                     Unrefuted(st, c, st.changes[c].currentTree) && !LeavesRefuted(cfg, st, op, c))
  {
    if Gates(cfg, st, op, c) {
      GatedIsUnrefuted(cfg, st, op, c);
    } else if SavedRow(cfg, st, op).Some? {
      EvidenceStepExactly(cfg, st, op, c);
    } else if ErrorOf(cfg, st, op).None? {
      if op.OpCreate? {
        CreateStepExactly(cfg, st, op, c);
      } else if op.OpEvaluate? {
        GateShape(cfg.plat, st, op.cid, op.view.read.hash, op.view.paths);
        GateAndRefutation(cfg.plat, st, op.cid, op.view.read.hash, op.view.paths, c);
      }
    }
  }

  lemma GatedIsUnrefuted(cfg: Config, st: Store, op: Op, c: string)
    requires Backed(st) && Gates(cfg, st, op, c)
    ensures var after := Step(cfg, st, op);
            && c in after.changes
            && (ReadyToCommit(after.changes[c].status) ==> Unrefuted(after, c, after.changes[c].currentTree))
  {
    var view := ViewOf(op).value;
    if SavedRow(cfg, st, op).Some? {
      SavedShape(cfg, st, op);
      SavingKeepsBacked(cfg, st, op);
    }
    GateRestores(cfg.plat, AtGate(cfg, st, op), c, view.read.hash, view.paths);
  }

  // ---------------------------------------------------------------- runs

  lemma {:induction false} RunKeeps(cfg: Config, ops: seq<Op>)
    ensures Backed(Run(cfg, ops))
  {
    if ops != [] {
      RunKeeps(cfg, ops[..|ops| - 1]);
      StepKeepsBacked(cfg, Run(cfg, ops[..|ops| - 1]), ops[|ops| - 1]);
    }
  }

  /** Every operation of the run saves evidence under a fresh id. */
  ghost predicate FreshRun(cfg: Config, ops: seq<Op>) {
    ops == []
    || (FreshRun(cfg, ops[..|ops| - 1]) && FreshEvidence(cfg, Run(cfg, ops[..|ops| - 1]), ops[|ops| - 1]))
  }

  /** Some operation left `c` refuted, and no gate evaluation of `c` has completed since. */
  ghost predicate Tainted(cfg: Config, ops: seq<Op>, c: string) {
    && ops != []
    && var before, op := ops[..|ops| - 1], ops[|ops| - 1];
    && !Gates(cfg, Run(cfg, before), op, c)
    && (LeavesRefuted(cfg, Run(cfg, before), op, c) || Tainted(cfg, before, c))
  }

  /** In any run with fresh evidence ids, a change ready to commit is free of failing evidence unless it is tainted. */
  lemma {:induction false} UnrefutedExactly(cfg: Config, ops: seq<Op>, c: string)
    requires FreshRun(cfg, ops) && c in Run(cfg, ops).changes && ReadyToCommit(Run(cfg, ops).changes[c].status)
    ensures Unrefuted(Run(cfg, ops), c, Run(cfg, ops).changes[c].currentTree) <==> !Tainted(cfg, ops, c)
  {
    var before, op := ops[..|ops| - 1], ops[|ops| - 1];
    RunKeeps(cfg, before);
    StepExactly(cfg, Run(cfg, before), op, c);
    if !Gates(cfg, Run(cfg, before), op, c) {
      UnrefutedExactly(cfg, before, c);
    }
  }

  ghost predicate BecomesCommitted(before: Store, after: Store, c: string) {
    && c in before.changes && before.changes[c].status != Committed
    && c in after.changes && after.changes[c].status == Committed
  }

  ghost predicate NoneCommitted(before: Store, after: Store) {
    forall c :: c in after.changes && after.changes[c].status == Committed ==>
      c in before.changes && before.changes[c].status == Committed
  }

  lemma GateNeverCommits(plat: Platform, st: Store, cid: string, tree: string, paths: seq<string>)
    requires Keyed(st) && cid in st.changes
    ensures NoneCommitted(st, Gate(plat, st, cid, tree, paths))
  {
  }

  lemma EvidenceStepNeverCommits(cfg: Config, st: Store, op: Op)
    requires Keyed(st) && SavedRow(cfg, st, op).Some?
    ensures NoneCommitted(st, Step(cfg, st, op))
  {
    SavedShape(cfg, st, op);
    var e, view := SavedRow(cfg, st, op).value, ViewOf(op).value;
    assert NoneCommitted(st, Saved(st, op));
    if view.read.Tree? {
      GateNeverCommits(cfg.plat, Saved(st, op), e.changeId, view.read.hash, view.paths);
    }
  }

  /** Only `CommitChange` on that very change makes it committed. */
  lemma OnlyCommitCommits(cfg: Config, st: Store, op: Op, c: string)
    requires Keyed(st) && BecomesCommitted(st, Step(cfg, st, op), c)
    ensures op.OpCommit? && op.cid == c && CommitError(cfg, st, c, op.actor, op.read) == None
  {
    if SavedRow(cfg, st, op).Some? {
      EvidenceStepNeverCommits(cfg, st, op);
    } else if ErrorOf(cfg, st, op).None? && op.OpEvaluate? {
      GateNeverCommits(cfg.plat, st, op.cid, op.view.read.hash, op.view.paths);
    }
  }

  /**
   * The commit guarantee. In any run, with the worktree changing arbitrarily between any two reads and any number of
   * changes sharing it: whenever a change becomes committed, the hash read at that moment is its current and its
   * verified tree, every required obligation (and there is an obligation) has valid passing evidence for exactly that
   * tree, the caller may act for the author and the author may write; and, with fresh evidence ids, a required
   * obligation has valid failing evidence for that tree exactly if the change is tainted.
   */
  lemma CommitGuarantee(cfg: Config, ops: seq<Op>, op: Op, c: string)
    requires BecomesCommitted(Run(cfg, ops), Step(cfg, Run(cfg, ops), op), c)
    ensures op.OpCommit? && op.cid == c && op.read.Tree?
    ensures var after := Step(cfg, Run(cfg, ops), op);
            (&& after.changes[c].currentTree == op.read.hash && after.changes[c].verifiedTree == op.read.hash
             && Proved(after, c, op.read.hash)
             && (FreshRun(cfg, ops) ==> (Unrefuted(after, c, op.read.hash) <==> !Tainted(cfg, ops, c)))
             && MayActFor(op.actor, after.changes[c].author) && MayWrite(cfg, after.changes[c].author))
  {
    var st := Run(cfg, ops);
    RunKeeps(cfg, ops);
    OnlyCommitCommits(cfg, st, op, c);
    var after := Step(cfg, st, op);
    ProvedFrame(st, after, c, op.read.hash);
    UnrefutedFrame(st, after, c, op.read.hash);
    if FreshRun(cfg, ops) {
      UnrefutedExactly(cfg, ops, c);
    }
  }

  // ---------------------------------------------------------------- where the guarantee ends

  /**
   * The exception is real: from any proved change, submit failing evidence while the gate's read of the tree fails,
   * then commit on the same tree. The change is committed with failing evidence for a required obligation.
   */
  lemma CommitDespiteFailure(cfg: Config, st: Store, ev: Evidence, generated: string, actor: string, gitSha: string,
                             stamp: string)
    requires Backed(st) && ev.changeId in st.changes && ReadyToCommit(st.changes[ev.changeId].status)
    requires RequiredOf(st.obligations, ev.changeId, ev.obligationId) && ev.obligationId != ""
    requires ev.result == "failed" && ev.tree == st.changes[ev.changeId].currentTree
    requires ev.kind == "test_result" && OrElse(ev.id, generated) !in st.evidence
    requires MayActFor(actor, st.changes[ev.changeId].author) && MayWrite(cfg, st.changes[ev.changeId].author)
    ensures var submit := OpSubmit(ev, generated, Tree(ev.tree), GateView(Unreadable, []));
            var commit := OpCommit(ev.changeId, actor, Tree(ev.tree), gitSha, stamp);
            var mid := Step(cfg, st, submit);
            var end := Step(cfg, mid, commit);
            && LeavesRefuted(cfg, st, submit, ev.changeId)
            && BecomesCommitted(mid, end, ev.changeId) && !Unrefuted(end, ev.changeId, ev.tree)
  {
    var submit := OpSubmit(ev, generated, Tree(ev.tree), GateView(Unreadable, []));
    var commit := OpCommit(ev.changeId, actor, Tree(ev.tree), gitSha, stamp);
    SavedShape(cfg, st, submit);
    var mid := Step(cfg, st, submit);
    var end := Step(cfg, mid, commit);
    var id := OrElse(ev.id, generated);
    SameTermsSameDuties(st, mid, ev.changeId);
    assert RequiredOf(mid.obligations, ev.changeId, ev.obligationId);
    assert Shows(end.evidence[id], ev.changeId, ev.obligationId, ev.tree, "failed");
  }

  lemma GateAndFinal(plat: Platform, st: Store, cid: string, tree: string, paths: seq<string>, c: string)
    requires Keyed(st) && cid in st.changes && c in st.changes && IsFinal(st.changes[c].status)
    ensures var after := Gate(plat, st, cid, tree, paths);
            && c in after.changes
            && after.changes[c].status ==
               if c == cid && Verdict(Refreshed(plat, st, c, tree, paths), c, tree) then Committable
               else st.changes[c].status
  {
    GateShape(plat, st, cid, tree, paths);
  }

  /** The same for the operations that save evidence: only running a proof saves any for a final change. */
  lemma FinalAfterEvidence(cfg: Config, st: Store, op: Op, c: string)
    requires Keyed(st) && c in st.changes && IsFinal(st.changes[c].status) && SavedRow(cfg, st, op).Some?
    ensures var after, seen, view := Step(cfg, st, op), Saved(st, op), ViewOf(op).value;
            && c in after.changes && c in seen.changes && (Gates(cfg, st, op, c) ==> op.OpExecute?)
            && after.changes[c].status ==
               if Gates(cfg, st, op, c)
                  && Verdict(Refreshed(cfg.plat, seen, c, view.read.hash, view.paths), c, view.read.hash)
               then Committable else st.changes[c].status
  {
    SavedShape(cfg, st, op);
    var e, view := SavedRow(cfg, st, op).value, ViewOf(op).value;
    if view.read.Tree? {
      GateAndFinal(cfg.plat, Saved(st, op), e.changeId, view.read.hash, view.paths, c);
    }
  }

  /**
   * Exactly when a committed or aborted change, whose id is not used again, gets another status: when a completed gate
   * evaluation (asked for directly, or by running a proof) finds, in the store it starts from, that the verdict on the
   * tree it reads is positive. The change is then committable.
   */
  lemma FinalChangesLeaveExactly(cfg: Config, st: Store, op: Op, c: string)
    requires Keyed(st) && c in st.changes && IsFinal(st.changes[c].status)
    requires !(op.OpCreate? && OrElse(op.req.changeId, op.generated) == c)
    ensures var after, seen, view := Step(cfg, st, op), AtGate(cfg, st, op), ViewOf(op);
            && c in after.changes && c in seen.changes && (Gates(cfg, st, op, c) ==> op.OpEvaluate? || op.OpExecute?)
            && after.changes[c].status ==
               if Gates(cfg, st, op, c)
                  && Verdict(Refreshed(cfg.plat, seen, c, view.value.read.hash, view.value.paths), c,
                             view.value.read.hash)
               then Committable else st.changes[c].status
  {
    if SavedRow(cfg, st, op).Some? {
      FinalAfterEvidence(cfg, st, op, c);
    } else if ErrorOf(cfg, st, op).None? && op.OpEvaluate? {
      GateAndFinal(cfg.plat, st, op.cid, op.view.read.hash, op.view.paths, c);
    }
  }

  lemma AbortKeepsVerdict(cfg: Config, st: Store, c: string, actor: string)
    requires Keyed(st) && c in st.changes && AbortError(st, c, actor) == None
    ensures var after := Step(cfg, st, OpAbort(c, actor));
            && Keyed(after) && c in after.changes && after.changes[c] == st.changes[c].(status := Aborted)
            && (Verdict(after, c, st.changes[c].currentTree) <==> Verdict(st, c, st.changes[c].currentTree))
  {
    VerdictIgnoresStatuses(st, Step(cfg, st, OpAbort(c, actor)), c, st.changes[c].currentTree);
  }

  lemma RegatedWithVerdict(cfg: Config, st: Store, c: string)
    requires Keyed(st) && c in st.changes && Verdict(st, c, st.changes[c].currentTree)
    ensures var tree := st.changes[c].currentTree;
            var after := Step(cfg, st, OpEvaluate(c, GateView(Tree(tree), [])));
            && Keyed(after) && c in after.changes
            && after.changes[c] == st.changes[c].(status := Committable, verifiedTree := tree)
  {
    var tree := st.changes[c].currentTree;
    assert Refreshed(cfg.plat, st, c, tree, []) == st;
    GateShape(cfg.plat, st, c, tree, []);
  }

  /** An aborted change whose proofs hold on its tree is committable once its gate is evaluated, and then committed. */
  lemma AbortedCanBeCommitted(cfg: Config, st: Store, c: string, actor: string, gitSha: string, stamp: string)
    requires Keyed(st) && c in st.changes && st.changes[c].status == Aborted
    requires Verdict(st, c, st.changes[c].currentTree)
    requires MayActFor(actor, st.changes[c].author) && MayWrite(cfg, st.changes[c].author)
    ensures var tree := st.changes[c].currentTree;
            var regated := Step(cfg, st, OpEvaluate(c, GateView(Tree(tree), [])));
            && c in regated.changes && regated.changes[c].status == Committable
            && BecomesCommitted(regated, Step(cfg, regated, OpCommit(c, actor, Tree(tree), gitSha, stamp)), c)
  {
    RegatedWithVerdict(cfg, st, c);
  }

  // ---------------------------------------------------------------- survival of evidence

  /** Rows stay, their content is fixed, and validity once lost never returns. */
  ghost predicate OnlyLosesValidity(before: Store, after: Store) {
    forall e :: e in before.evidence ==>
      && e in after.evidence
      && after.evidence[e].(valid := true) == before.evidence[e].(valid := true)
      && (after.evidence[e].valid ==> before.evidence[e].valid)
  }

  lemma GateOnlyLosesValidity(plat: Platform, st: Store, cid: string, tree: string, paths: seq<string>)
    requires Keyed(st) && cid in st.changes
    ensures OnlyLosesValidity(st, Gate(plat, st, cid, tree, paths))
  {
  }

  lemma EvidenceStepOnlyLosesValidity(cfg: Config, st: Store, op: Op)
    requires Keyed(st) && SavedRow(cfg, st, op).Some? && FreshEvidence(cfg, st, op)
    ensures OnlyLosesValidity(st, Step(cfg, st, op))
  {
    SavedShape(cfg, st, op);
    var e, view := SavedRow(cfg, st, op).value, ViewOf(op).value;
    assert OnlyLosesValidity(st, Saved(st, op));
    if view.read.Tree? {
      GateOnlyLosesValidity(cfg.plat, Saved(st, op), e.changeId, view.read.hash, view.paths);
    }
  }

  lemma StepOnlyLosesValidity(cfg: Config, st: Store, op: Op)
    requires Keyed(st) && FreshEvidence(cfg, st, op)
    ensures OnlyLosesValidity(st, Step(cfg, st, op))
  {
    if SavedRow(cfg, st, op).Some? {
      EvidenceStepOnlyLosesValidity(cfg, st, op);
    } else if ErrorOf(cfg, st, op).None? && op.OpEvaluate? {
      GateOnlyLosesValidity(cfg.plat, st, op.cid, op.view.read.hash, op.view.paths);
    }
  }

  /** Over any run with fresh evidence ids, evidence that was invalid at some point is invalid from then on. */
  lemma {:induction false} ValidityNeverReturns(cfg: Config, ops: seq<Op>, n: nat)
    requires n <= |ops| && FreshRun(cfg, ops)
    ensures OnlyLosesValidity(Run(cfg, ops[..n]), Run(cfg, ops))
  {
    RunKeeps(cfg, ops);
    if n == |ops| {
      assert ops[..n] == ops;
    } else {
      var before := ops[..|ops| - 1];
      assert before[..n] == ops[..n];
      RunKeeps(cfg, before);
      ValidityNeverReturns(cfg, before, n);
      StepOnlyLosesValidity(cfg, Run(cfg, before), ops[|ops| - 1]);
    }
  }

  lemma GateSurvival(plat: Platform, st: Store, cid: string, tree: string, paths: seq<string>, e: string)
    requires Keyed(st) && cid in st.changes && tree != st.changes[cid].currentTree
    requires e in st.evidence && st.evidence[e].valid
    ensures var after, oid := Gate(plat, st, cid, tree, paths), st.evidence[e].obligationId;
            e in after.evidence
            && (after.evidence[e].valid <==>
                  st.evidence[e].changeId != cid
                  || (ObligationOf(st.obligations, cid, oid) && st.obligations[oid].scope != []
                      && forall i, j :: 0 <= i < |paths| && 0 <= j < |st.obligations[oid].scope| ==>
                           !ScopeMatches(plat, st.obligations[oid].scope[j], paths[i])))
  {
    RefreshedShape(plat, st, cid, tree, paths);
    GateShape(plat, st, cid, tree, paths);
  }

  /** An operation that completes a gate evaluation ends with it. */
  lemma GateEndsStep(cfg: Config, st: Store, op: Op, cid: string)
    requires Keyed(st) && Gates(cfg, st, op, cid)
    ensures var seen, view := AtGate(cfg, st, op), ViewOf(op).value;
            && Keyed(seen) && cid in seen.changes
            && Step(cfg, st, op) == Gate(cfg.plat, seen, cid, view.read.hash, view.paths)
  {
    if SavedRow(cfg, st, op).Some? {
      SavedShape(cfg, st, op);
    }
  }

  /**
   * When a gate evaluation, asked for directly or run behind saved evidence, sees a moved tree, then of the valid
   * evidence in the store it starts from exactly that of other changes stays valid, and that whose obligation has a
   * non-empty scope which no changed path touches.
   */
  lemma SurvivalExactly(cfg: Config, st: Store, op: Op, cid: string, e: string)
    requires Keyed(st) && Gates(cfg, st, op, cid)
    requires var seen, view := AtGate(cfg, st, op), ViewOf(op).value;
             && cid in seen.changes && view.read.hash != seen.changes[cid].currentTree
             && e in seen.evidence && seen.evidence[e].valid
    ensures var after, seen, view := Step(cfg, st, op), AtGate(cfg, st, op), ViewOf(op).value;
            var oid := seen.evidence[e].obligationId;
            e in after.evidence
            && (after.evidence[e].valid <==>
                  seen.evidence[e].changeId != cid
                  || (ObligationOf(seen.obligations, cid, oid) && seen.obligations[oid].scope != []
                      && forall i, j :: 0 <= i < |view.paths| && 0 <= j < |seen.obligations[oid].scope| ==>
                           !ScopeMatches(cfg.plat, seen.obligations[oid].scope[j], view.paths[i])))
  {
    var seen, view := AtGate(cfg, st, op), ViewOf(op).value;
    GateEndsStep(cfg, st, op, cid);
    GateSurvival(cfg.plat, seen, cid, view.read.hash, view.paths, e);
  }
}
