/** Evidence invalidation and the change gate of internal/collaboration/meshcommit.go, as functions on the store. */
module MeshGate {
  import opened PathPatterns
  import opened MeshStore

  // ---------------------------------------------------------------- invalidation

  /** Evidence is invalidated unless its obligation exists, has a scope, and the scope is untouched. */
  predicate MustInvalidate(plat: Platform, obligations: map<string, Obligation>, e: Evidence, paths: seq<string>) {
    || !ObligationOf(obligations, e.changeId, e.obligationId)
    || obligations[e.obligationId].scope == []
    || ScopeTouched(plat, obligations[e.obligationId].scope, paths)
  }

  predicate Doomed(plat: Platform, st: Store, cid: string, paths: seq<string>, id: string) {
    && id in st.evidence && st.evidence[id].valid && st.evidence[id].changeId == cid
    && MustInvalidate(plat, st.obligations, st.evidence[id], paths)
  }

  predicate HitBy(evidence: map<string, Evidence>, dead: set<string>, o: string) {
    o != "" && exists id :: id in dead && id in evidence && evidence[id].obligationId == o
  }

  /** The store once the evidence rows `dead` are invalidated and their obligations marked stale. */
  function WithInvalidated(st: Store, dead: set<string>): Store {
    st.(evidence := map id | id in st.evidence ::
          if id in dead then st.evidence[id].(valid := false) else st.evidence[id],
        obligations := map o | o in st.obligations ::
          if HitBy(st.evidence, dead, o)
          then st.obligations[o].(status := Stale, currentEvidence := "")
          else st.obligations[o])
  }

  function AfterInvalidation(plat: Platform, st: Store, cid: string, paths: seq<string>): Store {
    WithInvalidated(st, set id | id in st.evidence && Doomed(plat, st, cid, paths, id))
  }

  /** `InvalidateChangeEvidence` on one row, then the stale mark on its obligation. */
  function InvalidateRow(st: Store, id: string): Store
    requires id in st.evidence
  {
    var e := st.evidence[id];
    st.(evidence := st.evidence[id := e.(valid := false)],
        obligations := if e.obligationId == "" then st.obligations
                       else SetStatus(st.obligations, e.obligationId, Stale, ""))
  }

  lemma HitByOneMore(evidence: map<string, Evidence>, dead: set<string>, id: string, o: string)
    requires id in evidence
    ensures HitBy(evidence, dead + {id}, o) <==> HitBy(evidence, dead, o) || (o != "" && o == evidence[id].obligationId)
  {
    if o != "" && o == evidence[id].obligationId {
      assert id in dead + {id};
    } else if HitBy(evidence, dead, o) {
      var d :| d in dead && d in evidence && evidence[d].obligationId == o;
      assert d in dead + {id};
    }
  }

  /** Invalidating rows one by one amounts to invalidating the set of them. */
  lemma InvalidateOneMore(st: Store, dead: set<string>, id: string)
    requires id in st.evidence && Keyed(st)
    ensures WithInvalidated(st, dead + {id}) == InvalidateRow(WithInvalidated(st, dead), id)
  {
    var was, now := WithInvalidated(st, dead), WithInvalidated(st, dead + {id});
    var after := InvalidateRow(was, id);
    forall o | o in st.obligations
      ensures o in after.obligations && now.obligations[o] == after.obligations[o]
    {
      HitByOneMore(st.evidence, dead, id, o);
    }
    assert after.obligations.Keys == now.obligations.Keys;
    assert now.obligations == after.obligations;
    assert now.evidence == after.evidence;
  }

  // ---------------------------------------------------------------- the verdict

  datatype Class = InFailed | InPassed | InStale | InPending

  /** The gate's grading of one obligation: failing evidence wins over passing, both win over the stored status. */
  ghost function Classify(st: Store, cid: string, tree: string, o: string): Class
    requires o in st.obligations
  {
    if HasResult(st.evidence, cid, o, tree, "failed") then InFailed
    else if HasResult(st.evidence, cid, o, tree, "passed") then InPassed
    else if st.obligations[o].status == Stale then InStale
    else InPending
  }

  function Grade(o: Obligation, c: Class): Obligation {
    match c
    case InFailed => o.(status := Failed, currentEvidence := "")
    case InPassed => o.(status := Passed, currentEvidence := "")
    case InStale => o
    case InPending => o.(status := Pending, currentEvidence := "")
  }

  ghost function WithGrades(st: Store, cid: string, tree: string, ids: set<string>): Store {
    st.(obligations := map o | o in st.obligations ::
      if o in ids then Grade(st.obligations[o], Classify(st, cid, tree, o)) else st.obligations[o])
  }

  function ObligationIds(st: Store, cid: string): set<string> {
    set o | o in st.obligations && st.obligations[o].changeId == cid
  }

  function EvidenceIds(st: Store, cid: string): set<string> {
    set e | e in st.evidence && st.evidence[e].changeId == cid
  }

  ghost predicate Verdict(st: Store, cid: string, tree: string) {
    Proved(st, cid, tree) && Unrefuted(st, cid, tree)
  }

  /** The change row after the verdict: promoted with the verified tree, or demoted if it was committable. */
  function Promote(c: Change, committable: bool): Change {
    if committable then c.(status := Committable, verifiedTree := c.currentTree)
    else if c.status in {Committable, Verified} then c.(status := Blocked)
    else c
  }

  /** The store after the gate noticed tree `tree`: a moved tree invalidates evidence and becomes the current one. */
  function Refreshed(plat: Platform, st: Store, cid: string, tree: string, paths: seq<string>): Store
    requires cid in st.changes
  {
    if tree == st.changes[cid].currentTree then st
    else
      var inv := AfterInvalidation(plat, st, cid, paths);
      inv.(changes := SaveChange(inv.changes, st.changes[cid].(currentTree := tree)))
  }

  /** What one completed gate evaluation does to the store. */
  ghost function Gate(plat: Platform, st: Store, cid: string, tree: string, paths: seq<string>): Store
    requires cid in st.changes
  {
    var seen := Refreshed(plat, st, cid, tree, paths);
    var graded := WithGrades(seen, cid, tree, ObligationIds(seen, cid));
    graded.(changes := graded.changes[cid := Promote(seen.changes[cid], Verdict(seen, cid, tree))])
  }

  // ---------------------------------------------------------------- lemmas about the gate

  /** The columns of an obligation that no operation after its creation writes. */
  function Terms(o: Obligation): Obligation {
    o.(status := Pending, currentEvidence := "")
  }

  ghost predicate SameTerms(before: map<string, Obligation>, after: map<string, Obligation>) {
    && before.Keys == after.Keys
    && forall o :: o in before ==> Terms(after[o]) == Terms(before[o])
  }

  /** What invalidation and the move of the current tree do: only validity bits, statuses and one tree hash change. */
  lemma RefreshedShape(plat: Platform, st: Store, cid: string, tree: string, paths: seq<string>)
    requires Keyed(st) && cid in st.changes
    ensures var after := Refreshed(plat, st, cid, tree, paths);
            (&& Keyed(after)
             && after.changes == st.changes[cid := st.changes[cid].(currentTree := tree)]
             && SameTerms(st.obligations, after.obligations)
             && after.evidence.Keys == st.evidence.Keys
             && (forall e :: e in st.evidence ==>
                   after.evidence[e] == if tree != st.changes[cid].currentTree && Doomed(plat, st, cid, paths, e)
                                        then st.evidence[e].(valid := false) else st.evidence[e]))
  {
  }

  lemma GradesShape(st: Store, cid: string, tree: string, ids: set<string>)
    requires Keyed(st)
    ensures var after := WithGrades(st, cid, tree, ids);
            Keyed(after) && after.changes == st.changes && after.evidence == st.evidence
            && SameTerms(st.obligations, after.obligations)
  {
  }

  lemma SameTermsSameObligations(before: map<string, Obligation>, after: map<string, Obligation>, cid: string,
                                 o: string)
    requires SameTerms(before, after)
    ensures ObligationOf(after, cid, o) <==> ObligationOf(before, cid, o)
    ensures RequiredOf(after, cid, o) <==> RequiredOf(before, cid, o)
    ensures o in before ==> after[o].scope == before[o].scope && after[o].command == before[o].command
  {
  }

  /** The stored statuses play no part in the verdict. */
  lemma VerdictIgnoresStatuses(st: Store, after: Store, cid: string, tree: string)
    requires after.evidence == st.evidence && SameTerms(st.obligations, after.obligations)
    ensures Proved(after, cid, tree) <==> Proved(st, cid, tree)
    ensures Unrefuted(after, cid, tree) <==> Unrefuted(st, cid, tree)
  {
    forall o
      ensures ObligationOf(after.obligations, cid, o) <==> ObligationOf(st.obligations, cid, o)
      ensures RequiredOf(after.obligations, cid, o) <==> RequiredOf(st.obligations, cid, o)
    {
      SameTermsSameObligations(st.obligations, after.obligations, cid, o);
    }
  }

  lemma GateShape(plat: Platform, st: Store, cid: string, tree: string, paths: seq<string>)
    requires Keyed(st) && cid in st.changes
    ensures var seen, after := Refreshed(plat, st, cid, tree, paths), Gate(plat, st, cid, tree, paths);
            (&& Keyed(after)
             && after.changes ==
                st.changes[cid := Promote(st.changes[cid].(currentTree := tree), Verdict(seen, cid, tree))]
             && after.evidence == seen.evidence
             && SameTerms(st.obligations, after.obligations)
             && SameTerms(seen.obligations, after.obligations))
  {
    RefreshedShape(plat, st, cid, tree, paths);
    var seen := Refreshed(plat, st, cid, tree, paths);
    GradesShape(seen, cid, tree, ObligationIds(seen, cid));
  }

  /** Committable after the gate means exactly that the verdict holds, in the store the gate leaves behind. */
  lemma GateVerdict(plat: Platform, st: Store, cid: string, tree: string, paths: seq<string>)
    requires Keyed(st) && cid in st.changes
    ensures var after := Gate(plat, st, cid, tree, paths);
            (&& cid in after.changes
             && (after.changes[cid].status == Committable <==> Verdict(after, cid, tree))
             && (after.changes[cid].status == Committable ==> after.changes[cid].verifiedTree == tree)
             && after.changes[cid].status != Verified
             && after.changes[cid].currentTree == tree)
  {
    GateShape(plat, st, cid, tree, paths);
    VerdictIgnoresStatuses(Refreshed(plat, st, cid, tree, paths), Gate(plat, st, cid, tree, paths), cid, tree);
  }

  /** A second evaluation on the same tree, with nothing in between, changes nothing at all. */
  lemma GateIsIdempotent(plat: Platform, st: Store, cid: string, tree: string, paths: seq<string>, paths': seq<string>)
    requires Keyed(st) && cid in st.changes
    ensures var once := Gate(plat, st, cid, tree, paths);
            cid in once.changes && Gate(plat, once, cid, tree, paths') == once
  {
    var seen, once := Refreshed(plat, st, cid, tree, paths), Gate(plat, st, cid, tree, paths);
    GateShape(plat, st, cid, tree, paths);
    GateVerdict(plat, st, cid, tree, paths);
    GateVerdict(plat, once, cid, tree, paths');
    assert Refreshed(plat, once, cid, tree, paths') == once;
    RegradingChangesNothing(seen, once, cid, tree);
    assert Promote(once.changes[cid], Verdict(once, cid, tree)) == once.changes[cid];
  }

  lemma RegradingChangesNothing(st: Store, after: Store, cid: string, tree: string)
    requires SameTerms(st.obligations, after.obligations)
    requires after.evidence == st.evidence
    requires after.obligations == WithGrades(st, cid, tree, ObligationIds(st, cid)).obligations
    ensures WithGrades(after, cid, tree, ObligationIds(after, cid)) == after
  {
  }

  /**
   * Path-scoped survival never carries a proof to a new tree: if no evidence was recorded for the tree the gate
   * sees, any required obligation keeps the change from being committable.
   */
  lemma NewTreeNeedsNewEvidence(plat: Platform, st: Store, cid: string, tree: string, paths: seq<string>, o: string)
    requires Keyed(st) && cid in st.changes && RequiredOf(st.obligations, cid, o)
    requires forall e :: e in st.evidence && st.evidence[e].changeId == cid ==> st.evidence[e].tree != tree
    ensures cid in Gate(plat, st, cid, tree, paths).changes
    ensures Gate(plat, st, cid, tree, paths).changes[cid].status != Committable
  {
    var after := Gate(plat, st, cid, tree, paths);
    RefreshedShape(plat, st, cid, tree, paths);
    GateShape(plat, st, cid, tree, paths);
    GateVerdict(plat, st, cid, tree, paths);
    SameTermsSameObligations(st.obligations, after.obligations, cid, o);
    assert !HasResult(after.evidence, cid, o, tree, "passed");
  }
}
