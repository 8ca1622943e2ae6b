/** The rows MeshCommit keeps, and the store operations it uses (internal/store/store.go). */
module MeshStore {
  import opened Text

  datatype ChangeStatus =
    | Draft | Prepared | UnderVerification | Blocked | Verified | Committable | Committed | Aborted

  datatype ProofStatus = Pending | Running | Passed | Failed | Stale | Waived | RequiresHuman

  datatype Change = Change(
    id: string, title: string, author: string, status: ChangeStatus, baseCommit: string,
    baseTree: string, currentTree: string, verifiedTree: string, commitSha: string)

  datatype Obligation = Obligation(
    id: string, changeId: string, kind: string, name: string, required: bool, status: ProofStatus,
    scope: seq<string>, command: string, expectedExitCode: int, currentEvidence: string)

  datatype Evidence = Evidence(
    id: string, changeId: string, obligationId: string, tree: string, source: string, kind: string,
    result: string, valid: bool)

  /** The three tables, keyed by their primary keys. */
  datatype Store = Store(
    changes: map<string, Change>, obligations: map<string, Obligation>, evidence: map<string, Evidence>)

  const EMPTY_STORE := Store(map[], map[], map[])

  /** One read of the worktree's tree hash; the worktree may change between any two of them, and a read may fail. */
  datatype HashRead = Unreadable | Tree(hash: string)

  // ---------------------------------------------------------------- single-row writes

  /** `SaveMeshChange`: on a conflict every column but the author is overwritten. */
  function SaveChange(changes: map<string, Change>, c: Change): map<string, Change> {
    changes[c.id := if c.id in changes then c.(author := changes[c.id].author) else c]
  }

  /** `SaveProofObligation`: on a conflict only status and current evidence are overwritten. */
  function SaveObligation(obligations: map<string, Obligation>, o: Obligation): map<string, Obligation> {
    obligations[o.id :=
      if o.id in obligations
      then obligations[o.id].(status := o.status, currentEvidence := o.currentEvidence)
      else o]
  }

  /** `SaveChangeEvidence`: on a conflict only the validity is overwritten. */
  function SaveEvidence(evidence: map<string, Evidence>, e: Evidence): map<string, Evidence> {
    evidence[e.id := if e.id in evidence then evidence[e.id].(valid := e.valid) else e]
  }

  /** `UpdateProofObligationStatus`: no row, no effect. */
  function SetStatus(obligations: map<string, Obligation>, id: string, status: ProofStatus, evidenceId: string)
    : map<string, Obligation>
  {
    if id in obligations
    then obligations[id := obligations[id].(status := status, currentEvidence := evidenceId)]
    else obligations
  }

  // ---------------------------------------------------------------- what evidence proves

  /** Row `e` is un-invalidated evidence with the given result, for this obligation of this change on this tree. */
  predicate Shows(e: Evidence, cid: string, oid: string, tree: string, result: string) {
    e.valid && e.changeId == cid && e.obligationId == oid && e.tree == tree && e.result == result
  }

  ghost predicate HasResult(evidence: map<string, Evidence>, cid: string, oid: string, tree: string, result: string) {
    exists id :: id in evidence && Shows(evidence[id], cid, oid, tree, result)
  }

  /** `o` is a required obligation of change `cid`. */
  predicate RequiredOf(obligations: map<string, Obligation>, cid: string, o: string) {
    o in obligations && obligations[o].changeId == cid && obligations[o].required
  }

  predicate ObligationOf(obligations: map<string, Obligation>, cid: string, o: string) {
    o in obligations && obligations[o].changeId == cid
  }

  /** At least one obligation, and every required one has valid passing evidence on exactly this tree. */
  ghost predicate Proved(st: Store, cid: string, tree: string) {
    && (exists o :: ObligationOf(st.obligations, cid, o))
    && (forall o :: RequiredOf(st.obligations, cid, o) ==> HasResult(st.evidence, cid, o, tree, "passed"))
  }

  /** No required obligation has valid failing evidence on this tree. */
  ghost predicate Unrefuted(st: Store, cid: string, tree: string) {
    forall o :: RequiredOf(st.obligations, cid, o) ==> !HasResult(st.evidence, cid, o, tree, "failed")
  }

  // ---------------------------------------------------------------- row sets

  /** The rows agree with their keys: primary keys of the three tables. */
  ghost predicate Keyed(st: Store) {
    && (forall c :: c in st.changes ==> st.changes[c].id == c)
    && (forall o :: o in st.obligations ==> st.obligations[o].id == o)
    && (forall e :: e in st.evidence ==> st.evidence[e].id == e)
  }

  /** Some listing of a set without repetition: what a query without a fixed tie order returns. */
  ghost predicate Lists(rows: seq<string>, ids: set<string>) {
    && (forall r :: r in rows <==> r in ids)
    && Distinct(rows)
  }

  method ListIds(ids: set<string>) returns (rows: seq<string>)
    ensures Lists(rows, ids)
  {
    rows := [];
    var left := ids;
    while left != {}
      invariant left <= ids
      invariant Lists(rows, ids - left)
      decreases left
    {
      var r :| r in left;
      left := left - {r};
      rows := rows + [r];
    }
    assert ids - left == ids;
  }
}
