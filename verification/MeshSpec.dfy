/** The operations of the MeshCommit coordinator (internal/collaboration/meshcommit.go) as steps on the store. */
module MeshSpec {
  import opened Text
  import opened PathPatterns
  import opened ProofPolicy
  import opened MeshStore
  import opened MeshGate

  datatype Agent = Agent(external: bool, writable: bool)

  /** `policy` is None without a configuration; `writers` maps a space to its designated writer. */
  datatype Config = Config(
    plat: Platform, policy: Option<ChangeControl>, agents: map<string, Agent>, writers: map<string, string>)

  datatype Error =
    | ChangeNotFound | ObligationNotFound | EmptyTitle | EmptyAuthor | PolicyDenied | Finalized
    | SelfReview | TreeUnreadable | TreeMismatch | NotCommittable

  datatype CreateRequest = CreateRequest(
    changeId: string, spaceId: string, title: string, author: string, baseCommit: string)

  /** What the environment shows one gate evaluation: its own read of the tree, and the diff if the tree moved. */
  datatype GateView = GateView(read: HashRead, paths: seq<string>)

  /** How a verification command ended; `failed` is an execution error apart from the exit code. */
  datatype CommandRun = CommandRun(exitCode: int, failed: bool)

  datatype Op =
    | OpCreate(req: CreateRequest, generated: string, read: HashRead, paths: seq<string>)
    | OpPrepare(cid: string, actor: string, read: HashRead)
    | OpSubmit(ev: Evidence, generated: string, read: HashRead, view: GateView)
    | OpExecute(cid: string, oid: string, generated: string, read: HashRead, run: CommandRun, view: GateView)
    | OpEvaluate(cid: string, view: GateView)
    | OpCommit(cid: string, actor: string, read: HashRead, gitSha: string, stamp: string)
    | OpAbort(cid: string, actor: string)

  predicate IsFinal(status: ChangeStatus) {
    status in {Committed, Aborted}
  }

  /** Without registered agents nothing is enforced; otherwise only a managed, writable agent may act. */
  predicate MayWrite(cfg: Config, participant: string) {
    || |cfg.agents| == 0
    || (participant in cfg.agents && !cfg.agents[participant].external && cfg.agents[participant].writable)
  }

  /** A blank actor is the trusted local operator; anyone else must be the author. */
  predicate MayActFor(actor: string, author: string) {
    IsBlank(actor) || actor == author
  }

  // ---------------------------------------------------------------- create

  function CreateError(cfg: Config, req: CreateRequest, read: HashRead): Option<Error> {
    if IsBlank(req.title) then Some(EmptyTitle)
    else if IsBlank(req.author) then Some(EmptyAuthor)
    else if !MayWrite(cfg, req.author) then Some(PolicyDenied)
    else if req.spaceId != "" && req.spaceId in cfg.writers && cfg.writers[req.spaceId] != ""
         && cfg.writers[req.spaceId] != req.author then Some(PolicyDenied)
    else if read.Unreadable? then Some(TreeUnreadable)
    else None
  }

  const DEFAULT_SPEC := Spec("unit_tests", "default_verification", true, [], "", 0)

  function LockedSpecs(cfg: Config, paths: seq<string>): seq<Spec> {
    var specs := match cfg.policy
                 case None => []
                 case Some(cc) => Resolve(cfg.plat, cc, paths);
    if specs == [] then [DEFAULT_SPEC] else specs
  }

  function ObligationId(cid: string, name: string): string {
    "obl_" + cid + "_" + name
  }

  function ObligationFor(cid: string, s: Spec): Obligation {
    Obligation(ObligationId(cid, s.name), cid, s.kind, s.name, s.required, Pending, s.scope, s.command,
               s.expectedExitCode, "")
  }

  function SaveSpecs(obligations: map<string, Obligation>, cid: string, specs: seq<Spec>): map<string, Obligation> {
    if specs == [] then obligations
    else SaveObligation(SaveSpecs(obligations, cid, specs[..|specs| - 1]), ObligationFor(cid, specs[|specs| - 1]))
  }

  function NewChange(req: CreateRequest, cid: string, tree: string): Change {
    Change(cid, req.title, req.author, Draft, req.baseCommit, tree, tree, "", "")
  }

  function Created(cfg: Config, st: Store, req: CreateRequest, cid: string, tree: string, paths: seq<string>): Store {
    st.(changes := SaveChange(st.changes, NewChange(req, cid, tree)),
        obligations := SaveSpecs(st.obligations, cid, LockedSpecs(cfg, paths)))
  }

  // ---------------------------------------------------------------- prepare

  function PrepareError(st: Store, cid: string, actor: string, read: HashRead): Option<Error> {
    if cid !in st.changes then Some(ChangeNotFound)
    else if !MayActFor(actor, st.changes[cid].author) then Some(PolicyDenied)
    else if IsFinal(st.changes[cid].status) then Some(Finalized)
    else if read.Unreadable? then Some(TreeUnreadable)
    else None
  }

  // ---------------------------------------------------------------- gate

  /** One gate evaluation; a failed read of the tree leaves everything as it is. */
  ghost function TryGate(plat: Platform, st: Store, cid: string, view: GateView): Store {
    if cid in st.changes && view.read.Tree? then Gate(plat, st, cid, view.read.hash, view.paths) else st
  }

  function GateError(st: Store, cid: string, view: GateView): Option<Error> {
    if cid !in st.changes then Some(ChangeNotFound)
    else if view.read.Unreadable? then Some(TreeUnreadable)
    else None
  }

  // ---------------------------------------------------------------- submit

  function SubmitError(st: Store, ev: Evidence, read: HashRead): Option<Error> {
    if ev.changeId !in st.changes then Some(ChangeNotFound)
    else
      var c := st.changes[ev.changeId];
      if IsFinal(c.status) then Some(Finalized)
      else if ev.kind in {"peer_review", "security_audit", "independent_review"} && ev.source == c.author
      then Some(SelfReview)
      else if read.Unreadable? then Some(TreeUnreadable)
      else if ev.tree != c.currentTree || read.hash != c.currentTree then Some(TreeMismatch)
      else None
  }

  /** The store between the save of submitted evidence and the gate evaluation that follows it. */
  function Submitted(st: Store, ev: Evidence, generated: string): Store
    requires ev.changeId in st.changes
  {
    var id := OrElse(ev.id, generated);
    var c := st.changes[ev.changeId];
    Store(if c.status in {Prepared, Draft}
          then SaveChange(st.changes, c.(status := UnderVerification)) else st.changes,
          if ev.obligationId == "" then st.obligations
          else SetStatus(st.obligations, ev.obligationId, if ev.result == "passed" then Passed else Failed, id),
          SaveEvidence(st.evidence, ev.(id := id, valid := true)))
  }

  // ---------------------------------------------------------------- execute

  function ExecuteError(st: Store, cid: string, oid: string, read: HashRead): Option<Error> {
    if cid !in st.changes then Some(ChangeNotFound)
    else if oid !in st.obligations then Some(ObligationNotFound)
    else if read.Unreadable? then Some(TreeUnreadable)
    else if read.hash != st.changes[cid].currentTree then Some(TreeMismatch)
    else None
  }

  /** Valid passing evidence for the obligation on this tree, whichever change it was recorded for. */
  predicate IsCachedProof(e: Evidence, oid: string, tree: string) {
    e.obligationId == oid && e.valid && e.tree == tree && e.result == "passed"
  }

  ghost predicate HasCachedProof(st: Store, oid: string, tree: string) {
    exists e :: e in st.evidence && IsCachedProof(st.evidence[e], oid, tree)
  }

  /** An obligation without a command passes; an execution error with exit code 0 counts as exit code 1. */
  function ExitCode(o: Obligation, run: CommandRun): int {
    if o.command == "" then o.expectedExitCode
    else if run.failed && run.exitCode == 0 then 1
    else run.exitCode
  }

  function ProofRow(c: Change, o: Obligation, oid: string, generated: string, run: CommandRun): Evidence {
    Evidence(generated, c.id, oid, c.currentTree, "harnessmesh", o.kind,
             if ExitCode(o, run) != o.expectedExitCode then "failed" else "passed", true)
  }

  function Executed(st: Store, cid: string, oid: string, generated: string, run: CommandRun): Store
    requires cid in st.changes && oid in st.obligations
  {
    var e := ProofRow(st.changes[cid], st.obligations[oid], oid, generated, run);
    st.(obligations := SetStatus(st.obligations, oid, if e.result == "failed" then Failed else Passed, generated),
        evidence := SaveEvidence(st.evidence, e))
  }

  // ---------------------------------------------------------------- commit and abort

  function CommitError(cfg: Config, st: Store, cid: string, actor: string, read: HashRead): Option<Error> {
    if cid !in st.changes then Some(ChangeNotFound)
    else
      var c := st.changes[cid];
      if c.status == Committed then None
      else if c.status == Aborted then Some(Finalized)
      else if c.status !in {Committable, Verified} then Some(NotCommittable)
      else if !MayActFor(actor, c.author) then Some(PolicyDenied)
      else if !MayWrite(cfg, c.author) then Some(PolicyDenied)
      else if read.Unreadable? then Some(TreeUnreadable)
      else if read.hash != c.currentTree then Some(TreeMismatch)
      else if c.verifiedTree != "" && read.hash != c.verifiedTree then Some(TreeMismatch)
      else None
  }

  /** Git's commit id, or the fallback made of the tree hash and a time stamp. */
  function CommitSha(c: Change, gitSha: string, stamp: string): string {
    if gitSha != "" then gitSha
    else "commit_" + (if |c.currentTree| < 8 then c.currentTree else c.currentTree[..8]) + "_" + stamp
  }

  function AfterCommit(c: Change, gitSha: string, stamp: string): Change {
    if c.status == Committed then c else c.(status := Committed, commitSha := CommitSha(c, gitSha, stamp))
  }

  function AbortError(st: Store, cid: string, actor: string): Option<Error> {
    if cid !in st.changes then Some(ChangeNotFound)
    else if !MayActFor(actor, st.changes[cid].author) then Some(PolicyDenied)
    else if st.changes[cid].status == Committed then Some(Finalized)
    else None
  }

  // ---------------------------------------------------------------- one step, and runs

  function ErrorOf(cfg: Config, st: Store, op: Op): Option<Error> {
    match op
    case OpCreate(req, _, read, _) => CreateError(cfg, req, read)
    case OpPrepare(cid, actor, read) => PrepareError(st, cid, actor, read)
    case OpSubmit(ev, _, read, _) => SubmitError(st, ev, read)
    case OpExecute(cid, oid, _, read, _, _) => ExecuteError(st, cid, oid, read)
    case OpEvaluate(cid, view) => GateError(st, cid, view)
    case OpCommit(cid, actor, read, _, _) => CommitError(cfg, st, cid, actor, read)
    case OpAbort(cid, actor) => AbortError(st, cid, actor)
  }

  /** The store after one operation; a refused operation changes nothing. */
  ghost function Step(cfg: Config, st: Store, op: Op): Store {
    if ErrorOf(cfg, st, op).Some? then st
    else
      match op
      case OpCreate(req, generated, read, paths) =>
        Created(cfg, st, req, OrElse(req.changeId, generated), read.hash, paths)
      case OpPrepare(cid, _, read) =>
        st.(changes := SaveChange(st.changes, st.changes[cid].(currentTree := read.hash, status := Prepared)))
      case OpSubmit(ev, generated, _, view) =>
        TryGate(cfg.plat, Submitted(st, ev, generated), ev.changeId, view)
      case OpExecute(cid, oid, generated, _, run, view) =>
        if HasCachedProof(st, oid, st.changes[cid].currentTree) then st
        else TryGate(cfg.plat, Executed(st, cid, oid, generated, run), cid, view)
      case OpEvaluate(cid, view) => TryGate(cfg.plat, st, cid, view)
      case OpCommit(cid, _, _, gitSha, stamp) =>
        st.(changes := SaveChange(st.changes, AfterCommit(st.changes[cid], gitSha, stamp)))
      case OpAbort(cid, _) =>
        st.(changes := SaveChange(st.changes, st.changes[cid].(status := Aborted)))
  }

  /** The store after a run of operations on an empty store; every tree read in it is arbitrary. */
  ghost function Run(cfg: Config, ops: seq<Op>): Store {
    if ops == [] then EMPTY_STORE else Step(cfg, Run(cfg, ops[..|ops| - 1]), ops[|ops| - 1])
  }
}
