/**
 * What each operation of the coordinator answers and which rows it writes, read off the rows before and after it:
 * internal/collaboration/meshcommit.go, seen from outside.
 */
module MeshLifecycle {
  import opened Text
  import opened PathPatterns
  import opened MeshStore
  import opened MeshGate
  import opened MeshSpec
  import opened MeshTheorems

  // ---------------------------------------------------------------- refusals

  /** Agents are registered, and this one is not, is external, or may not write. */
  predicate Barred(cfg: Config, participant: string) {
    && cfg.agents != map[]
    && (participant !in cfg.agents || cfg.agents[participant].external || !cfg.agents[participant].writable)
  }

  predicate Foreign(actor: string, author: string) {
    actor != author && exists i :: 0 <= i < |actor| && !IsSpace(actor[i])
  }

  predicate WrongWriter(cfg: Config, req: CreateRequest) {
    && req.spaceId != "" && req.spaceId in cfg.writers
    && cfg.writers[req.spaceId] != "" && cfg.writers[req.spaceId] != req.author
  }

  /** What must be the case for an operation to be refused with this error. */
  predicate Reason(cfg: Config, st: Store, op: Op, e: Error) {
    match op
    case OpCreate(req, _, read, _) =>
      || (e == EmptyTitle && IsBlank(req.title))
      || (e == EmptyAuthor && IsBlank(req.author))
      || (e == PolicyDenied && (Barred(cfg, req.author) || WrongWriter(cfg, req)))
      || (e == TreeUnreadable && read.Unreadable?)
    case OpPrepare(c, actor, read) =>
      if c !in st.changes then e == ChangeNotFound
      else
        || (e == PolicyDenied && Foreign(actor, st.changes[c].author))
        || (e == Finalized && st.changes[c].status in {Committed, Aborted})
        || (e == TreeUnreadable && read.Unreadable?)
    case OpSubmit(ev, _, read, _) =>
      if ev.changeId !in st.changes then e == ChangeNotFound
      else
        var row := st.changes[ev.changeId];
        || (e == Finalized && row.status in {Committed, Aborted})
        || (e == SelfReview && ev.kind in {"peer_review", "security_audit", "independent_review"}
            && ev.source == row.author)
        || (e == TreeUnreadable && read.Unreadable?)
        || (e == TreeMismatch && (ev.tree != row.currentTree || (read.Tree? && read.hash != row.currentTree)))
    case OpExecute(c, o, _, read, _, _) =>
      if c !in st.changes then e == ChangeNotFound
      else if o !in st.obligations then e == ObligationNotFound
      else
        || (e == TreeUnreadable && read.Unreadable?)
        || (e == TreeMismatch && read.Tree? && read.hash != st.changes[c].currentTree)
    case OpEvaluate(c, view) =>
      if c !in st.changes then e == ChangeNotFound else e == TreeUnreadable && view.read.Unreadable?
    case OpCommit(c, actor, read, _, _) =>
      if c !in st.changes then e == ChangeNotFound
      else
        var row := st.changes[c];
        if row.status == Committed then false
        else if row.status == Aborted then e == Finalized
        else if row.status !in {Committable, Verified} then e == NotCommittable
        else
          || (e == PolicyDenied && (Foreign(actor, row.author) || Barred(cfg, row.author)))
          || (e == TreeUnreadable && read.Unreadable?)
          || (e == TreeMismatch && read.Tree?
              && (read.hash != row.currentTree || (row.verifiedTree != "" && read.hash != row.verifiedTree)))
    case OpAbort(c, actor) =>
      if c !in st.changes then e == ChangeNotFound
      else
        || (e == PolicyDenied && Foreign(actor, st.changes[c].author))
        || (e == Finalized && st.changes[c].status == Committed)
  }

  /**
   * An operation is refused if and only if there is a reason to, and then with an error whose reason applies; and a
   * refused operation changes nothing.
   */
  lemma RefusedExactly(cfg: Config, st: Store, op: Op)
    ensures ErrorOf(cfg, st, op).Some? <==> exists e :: Reason(cfg, st, op, e)
    ensures ErrorOf(cfg, st, op).Some? ==> Reason(cfg, st, op, ErrorOf(cfg, st, op).value) && Step(cfg, st, op) == st
  {
    ErrorHasReason(cfg, st, op);
    if e :| Reason(cfg, st, op, e) {
      ReasonRefuses(cfg, st, op, e);
    }
  }

  lemma ErrorHasReason(cfg: Config, st: Store, op: Op)
    ensures ErrorOf(cfg, st, op).Some? ==> Reason(cfg, st, op, ErrorOf(cfg, st, op).value)
  {
  }

  lemma ReasonRefuses(cfg: Config, st: Store, op: Op, e: Error)
    requires Reason(cfg, st, op, e)
    ensures ErrorOf(cfg, st, op).Some?
  {
  }

  // ---------------------------------------------------------------- running a proof

  /** The command was empty, or ended as expected; an execution error counts as exit code 1 at least. */
  predicate EndsAsExpected(o: Obligation, run: CommandRun) {
    || o.command == ""
    || (if run.failed && run.exitCode == 0 then 1 else run.exitCode) == o.expectedExitCode
  }

  ghost predicate NoPassYet(st: Store, oid: string, tree: string) {
    forall e :: e in st.evidence && st.evidence[e].obligationId == oid && st.evidence[e].valid
                && st.evidence[e].tree == tree
                ==> st.evidence[e].result != "passed"
  }

  /** What a gate evaluation that may follow leaves of the evidence table. */
  lemma GateKeepsContent(plat: Platform, st: Store, cid: string, view: GateView)
    requires Keyed(st) && cid in st.changes
    ensures var after := TryGate(plat, st, cid, view).evidence;
            && after.Keys == st.evidence.Keys
            && (forall e :: e in st.evidence ==> after[e].(valid := true) == st.evidence[e].(valid := true))
            && (view.read.Unreadable? || view.read.hash == st.changes[cid].currentTree ==> after == st.evidence)
  {
    if view.read.Tree? {
      RefreshedShape(plat, st, cid, view.read.hash, view.paths);
      GateShape(plat, st, cid, view.read.hash, view.paths);
    }
  }

  /**
   * A proof that is executed leaves one new row: for this change, obligation and tree, passed if the command is empty
   * or ended with the expected exit code, and failed otherwise. The row is valid as long as the gate that follows does
   * not see another tree. Earlier rows keep their content.
   */
  lemma ExecutionIsRecorded(cfg: Config, st: Store, cid: string, oid: string, generated: string, run: CommandRun,
                            view: GateView)
    requires Keyed(st) && cid in st.changes && oid in st.obligations && generated !in st.evidence
    requires NoPassYet(st, oid, st.changes[cid].currentTree)
    ensures var tree, o := st.changes[cid].currentTree, st.obligations[oid];
            var after := Step(cfg, st, OpExecute(cid, oid, generated, Tree(tree), run, view));
            var row := Evidence(generated, cid, oid, tree, "harnessmesh", o.kind,
                                if EndsAsExpected(o, run) then "passed" else "failed", true);
            && after.evidence.Keys == st.evidence.Keys + {generated}
            && after.evidence[generated].(valid := true) == row
            && (view.read.Unreadable? || view.read.hash == tree ==>
                  after.evidence == st.evidence[generated := row])
  {
    var tree := st.changes[cid].currentTree;
    var op := OpExecute(cid, oid, generated, Tree(tree), run, view);
    assert !HasCachedProof(st, oid, tree);
    SavedShape(cfg, st, op);
    GateKeepsContent(cfg.plat, Saved(st, op), cid, view);
  }

  /**
   * Evidence that is accepted is saved as it was given, under its own id or else a new one, and as valid. Under an id
   * that is taken only the validity of the earlier row is written.
   */
  lemma SubmissionIsRecorded(cfg: Config, st: Store, ev: Evidence, generated: string, read: HashRead, view: GateView)
    requires Keyed(st) && ErrorOf(cfg, st, OpSubmit(ev, generated, read, view)) == None
    ensures var after := Step(cfg, st, OpSubmit(ev, generated, read, view));
            var id := if ev.id == "" then generated else ev.id;
            var row := if id in st.evidence then st.evidence[id].(valid := true) else ev.(id := id, valid := true);
            && after.evidence.Keys == st.evidence.Keys + {id}
            && after.evidence[id].(valid := true) == row
            && (view.read.Unreadable? || view.read.hash == st.changes[ev.changeId].currentTree ==>
                  after.evidence == st.evidence[id := row])
  {
    var op := OpSubmit(ev, generated, read, view);
    SavedShape(cfg, st, op);
    GateKeepsContent(cfg.plat, Saved(st, op), ev.changeId, view);
  }

  /** With valid passing evidence for the obligation on the tree, from whichever change, nothing is run or written. */
  lemma PassedProofIsNotRunAgain(cfg: Config, st: Store, cid: string, oid: string, generated: string, run: CommandRun,
                                 view: GateView)
    requires cid in st.changes && oid in st.obligations && !NoPassYet(st, oid, st.changes[cid].currentTree)
    ensures Step(cfg, st, OpExecute(cid, oid, generated, Tree(st.changes[cid].currentTree), run, view)) == st
  {
    var tree := st.changes[cid].currentTree;
    var e :| e in st.evidence && st.evidence[e].obligationId == oid && st.evidence[e].valid
             && st.evidence[e].tree == tree && st.evidence[e].result == "passed";
    assert IsCachedProof(st.evidence[e], oid, tree);
  }

  /** A required command that does not end as expected keeps the change from being committed, once the gate saw it. */
  lemma FailedRunBlocks(cfg: Config, st: Store, cid: string, oid: string, generated: string, run: CommandRun,
                        paths: seq<string>)
    requires Keyed(st) && cid in st.changes && RequiredOf(st.obligations, cid, oid) && generated !in st.evidence
    requires NoPassYet(st, oid, st.changes[cid].currentTree) && !EndsAsExpected(st.obligations[oid], run)
    ensures var tree := st.changes[cid].currentTree;
            var after := Step(cfg, st, OpExecute(cid, oid, generated, Tree(tree), run, GateView(Tree(tree), paths)));
            cid in after.changes && after.changes[cid].status !in {Committable, Verified}
  {
    var tree := st.changes[cid].currentTree;
    var view := GateView(Tree(tree), paths);
    var op := OpExecute(cid, oid, generated, Tree(tree), run, view);
    ExecutionIsRecorded(cfg, st, cid, oid, generated, run, view);
    assert !HasCachedProof(st, oid, tree);
    SavedShape(cfg, st, op);
    var saved := Saved(st, op);
    GateShape(cfg.plat, saved, cid, tree, paths);
    GateVerdict(cfg.plat, saved, cid, tree, paths);
    var after := Step(cfg, st, op);
    SameTermsSameObligations(st.obligations, saved.obligations, cid, oid);
    SameTermsSameObligations(saved.obligations, after.obligations, cid, oid);
    assert Shows(after.evidence[generated], cid, oid, tree, "failed");
  }

  // ---------------------------------------------------------------- the row of a change

  /** The row after a gate evaluation that may have read the tree; `proved` is what it found. */
  function Decided(row: Change, view: GateView, proved: bool): Change {
    match view.read
    case Unreadable => row
    case Tree(hash) =>
      if proved then row.(currentTree := hash, verifiedTree := hash, status := Committable)
      else row.(currentTree := hash, status := if row.status in {Committable, Verified} then Blocked else row.status)
  }

  ghost predicate ProvedOn(st: Store, c: string, read: HashRead) {
    read.Tree? && Proved(st, c, read.hash) && Unrefuted(st, c, read.hash)
  }

  /** The row of an existing change after an operation that is not refused. */
  ghost function RowAfter(st: Store, op: Op, after: Store, c: string): Change
    requires c in st.changes
  {
    var row := st.changes[c];
    match op
    case OpCreate(req, generated, read, _) =>
      if (if req.changeId == "" then generated else req.changeId) != c || read.Unreadable? then row
      else Change(c, req.title, row.author, Draft, req.baseCommit, read.hash, read.hash, "", "")
    case OpPrepare(cid, _, read) =>
      if cid != c || read.Unreadable? then row else row.(currentTree := read.hash, status := Prepared)
    case OpSubmit(ev, _, _, view) =>
      if ev.changeId != c then row
      else
        var begun := if row.status in {Draft, Prepared} then row.(status := UnderVerification) else row;
        Decided(begun, view, ProvedOn(after, c, view.read))
    case OpExecute(cid, oid, _, _, _, view) =>
      if cid != c || !NoPassYet(st, oid, row.currentTree) then row
      else Decided(row, view, ProvedOn(after, c, view.read))
    case OpEvaluate(cid, view) =>
      if cid != c then row else Decided(row, view, ProvedOn(after, c, view.read))
    case OpCommit(cid, _, _, gitSha, stamp) =>
      if cid != c || row.status == Committed then row
      else
        var short := if |row.currentTree| > 8 then row.currentTree[..8] else row.currentTree;
        row.(status := Committed, commitSha := if gitSha != "" then gitSha else "commit_" + short + "_" + stamp)
    case OpAbort(cid, _) => if cid != c then row else row.(status := Aborted)
  }

  lemma DecidedByGate(plat: Platform, st: Store, cid: string, view: GateView, c: string)
    requires Keyed(st) && cid in st.changes && c in st.changes
    ensures var after := TryGate(plat, st, cid, view);
            c in after.changes
            && after.changes[c] ==
               if c != cid then st.changes[c] else Decided(st.changes[c], view, ProvedOn(after, c, view.read))
  {
    if view.read.Tree? {
      var seen := Refreshed(plat, st, cid, view.read.hash, view.paths);
      GateShape(plat, st, cid, view.read.hash, view.paths);
      VerdictIgnoresStatuses(seen, Gate(plat, st, cid, view.read.hash, view.paths), cid, view.read.hash);
    }
  }

  lemma RowAfterEvidence(cfg: Config, st: Store, op: Op, c: string)
    requires Keyed(st) && SavedRow(cfg, st, op).Some? && c in st.changes
    ensures var after := Step(cfg, st, op);
            c in after.changes && after.changes[c] == RowAfter(st, op, after, c)
  {
    SavedShape(cfg, st, op);
    DecidedByGate(cfg.plat, Saved(st, op), SavedRow(cfg, st, op).value.changeId, ViewOf(op).value, c);
  }

  /**
   * The life of a change. Every operation that is not refused leaves exactly this row, and only for the change it is
   * about: a draft on creation, with the author of the first creation; prepared on the tree read; under verification
   * with its first evidence; committable on the tree read if a completed gate evaluation finds it proved and unrefuted
   * there, blocked if it was ready to commit and is not any more, and otherwise as it was; committed with its commit
   * id; or aborted.
   */
  lemma RowsExactly(cfg: Config, st: Store, op: Op, c: string)
    requires Keyed(st) && ErrorOf(cfg, st, op) == None
    ensures var after := Step(cfg, st, op);
            && (c in st.changes ==> c in after.changes && after.changes[c] == RowAfter(st, op, after, c))
            && (c !in st.changes ==>
                  (c in after.changes <==>
                   op.OpCreate? && c == (if op.req.changeId == "" then op.generated else op.req.changeId)))
            && (c in after.changes && c !in st.changes ==>
                  after.changes[c] == Change(c, op.req.title, op.req.author, Draft, op.req.baseCommit,
                                             op.read.hash, op.read.hash, "", ""))
  {
    if c in st.changes && SavedRow(cfg, st, op).Some? {
      RowAfterEvidence(cfg, st, op, c);
    } else if c in st.changes && op.OpEvaluate? {
      DecidedByGate(cfg.plat, st, op.cid, op.view, c);
    }
    if c !in st.changes {
      NoOtherRow(cfg, st, op, c);
    }
  }

  lemma NoOtherRow(cfg: Config, st: Store, op: Op, c: string)
    requires Keyed(st) && ErrorOf(cfg, st, op) == None && c !in st.changes
    ensures c in Step(cfg, st, op).changes ==> op.OpCreate?
  {
    if SavedRow(cfg, st, op).Some? {
      SavedShape(cfg, st, op);
      var e, view := SavedRow(cfg, st, op).value, ViewOf(op).value;
      if view.read.Tree? {
        GateShape(cfg.plat, Saved(st, op), e.changeId, view.read.hash, view.paths);
      }
    } else if op.OpEvaluate? {
      GateShape(cfg.plat, st, op.cid, op.view.read.hash, op.view.paths);
    }
  }

  /** Only `AbortChange` on that very change makes it aborted, and it always does. */
  lemma OnlyAbortAborts(cfg: Config, st: Store, op: Op, c: string)
    requires Keyed(st) && c in st.changes && st.changes[c].status != Aborted
    ensures var after := Step(cfg, st, op);
            c in after.changes
            && (after.changes[c].status == Aborted <==>
                op.OpAbort? && op.cid == c && st.changes[c].status != Committed
                && !Foreign(op.actor, st.changes[c].author))
  {
    RefusedExactly(cfg, st, op);
    if ErrorOf(cfg, st, op) == None {
      RowsExactly(cfg, st, op, c);
    }
  }
}
