/** The coordinator itself: `MeshCommitCoordinator` of internal/collaboration/meshcommit.go, loop by loop. */
module MeshCommit {
  import opened Text
  import opened PathPatterns
  import opened ProofPolicy
  import opened MeshStore
  import opened MeshGate
  import opened MeshSpec
  import opened MeshTheorems

  datatype GateResult = GateResult(
    committable: bool, currentTree: string, verifiedTree: string,
    passed: seq<string>, pending: seq<string>, failed: seq<string>, stale: seq<string>)

  /** The ids of `rows` that the gate grades as `class`, in order. */
  ghost function OfClass(st: Store, cid: string, tree: string, rows: seq<string>, cls: Class): seq<string> {
    if rows == [] then []
    else
      var last := rows[|rows| - 1];
      OfClass(st, cid, tree, rows[..|rows| - 1], cls)
      + (if last in st.obligations && Classify(st, cid, tree, last) == cls then [last] else [])
  }

  ghost predicate FourClasses(st: Store, cid: string, tree: string, rows: seq<string>,
                              passed: seq<string>, pending: seq<string>, failed: seq<string>, stale: seq<string>)
  {
    && passed == OfClass(st, cid, tree, rows, InPassed) && failed == OfClass(st, cid, tree, rows, InFailed)
    && stale == OfClass(st, cid, tree, rows, InStale) && pending == OfClass(st, cid, tree, rows, InPending)
  }

  lemma OneMoreRow(st: Store, cid: string, tree: string, rows: seq<string>, i: nat)
    requires i < |rows| && rows[i] in st.obligations
    ensures forall cls :: (
      OfClass(st, cid, tree, rows[..i + 1], cls)
      == OfClass(st, cid, tree, rows[..i], cls) + (if Classify(st, cid, tree, rows[i]) == cls then [rows[i]] else []))
  {
    assert rows[..i + 1][..i] == rows[..i];
  }

  /** The four lists of a gate result are the four classes, over one listing of the change's obligations. */
  ghost predicate ReportsClasses(r: GateResult, st: Store, cid: string, tree: string) {
    exists rows ::
      && Lists(rows, ObligationIds(st, cid))
      && FourClasses(st, cid, tree, rows, r.passed, r.pending, r.failed, r.stale)
  }

  lemma {:induction false} OfClassExact(st: Store, cid: string, tree: string, rows: seq<string>, cls: Class)
    requires forall r :: r in rows ==> r in st.obligations
    requires Distinct(rows)
    ensures forall r :: r in OfClass(st, cid, tree, rows, cls) <==> r in rows && Classify(st, cid, tree, r) == cls
    ensures Distinct(OfClass(st, cid, tree, rows, cls))
  {
    if rows != [] {
      var front, last := rows[..|rows| - 1], rows[|rows| - 1];
      OfClassExact(st, cid, tree, front, cls);
      assert rows == front + [last] && last !in front;
    }
  }

  lemma ClassCount(st: Store, cid: string, tree: string, rows: seq<string>, cls: Class, o: string)
    requires forall r :: r in rows ==> r in st.obligations
    requires Distinct(rows)
    ensures multiset(OfClass(st, cid, tree, rows, cls))[o]
         == if o in rows && Classify(st, cid, tree, o) == cls then 1 else 0
  {
  }

  /** The lists partition the obligations of the change: each is in exactly one list, exactly once. */
  lemma ListsPartition(r: GateResult, st: Store, cid: string, tree: string, o: string)
    requires ReportsClasses(r, st, cid, tree)
    ensures o in ObligationIds(st, cid)
       <==> multiset(r.passed)[o] + multiset(r.failed)[o] + multiset(r.stale)[o] + multiset(r.pending)[o] == 1
    ensures o !in ObligationIds(st, cid)
       <==> multiset(r.passed)[o] + multiset(r.failed)[o] + multiset(r.stale)[o] + multiset(r.pending)[o] == 0
  {
    var rows :|
      && Lists(rows, ObligationIds(st, cid))
      && FourClasses(st, cid, tree, rows, r.passed, r.pending, r.failed, r.stale);
    assert forall x :: x in rows ==> x in st.obligations;
    ClassCount(st, cid, tree, rows, InPassed, o);
    ClassCount(st, cid, tree, rows, InFailed, o);
    ClassCount(st, cid, tree, rows, InStale, o);
    ClassCount(st, cid, tree, rows, InPending, o);
  }

  // ---------------------------------------------------------------- the evidence index of one gate evaluation

  /** Some indexed row for obligation `oid` has this result. */
  predicate Indexed(index: map<string, seq<Evidence>>, oid: string, result: string) {
    oid in index && exists i :: 0 <= i < |index[oid]| && index[oid][i].result == result
  }

  ghost predicate ShownBy(evidence: map<string, Evidence>, rows: seq<string>, cid: string, oid: string, tree: string,
                          result: string)
  {
    exists id :: id in rows && id in evidence && Shows(evidence[id], cid, oid, tree, result)
  }

  function AddTo(index: map<string, seq<Evidence>>, e: Evidence): map<string, seq<Evidence>> {
    index[e.obligationId := (if e.obligationId in index then index[e.obligationId] else []) + [e]]
  }

  lemma AddToIndexes(index: map<string, seq<Evidence>>, e: Evidence, oid: string, result: string)
    ensures Indexed(AddTo(index, e), oid, result)
       <==> Indexed(index, oid, result) || (e.obligationId == oid && e.result == result)
  {
    var after := AddTo(index, e);
    if oid == e.obligationId {
      var was := if oid in index then index[oid] else [];
      assert after[oid] == was + [e];
      if Indexed(index, oid, result) {
        var i :| 0 <= i < |was| && was[i].result == result;
        assert after[oid][i].result == result;
      }
      if e.result == result {
        assert after[oid][|was|].result == result;
      }
    }
  }

  // ---------------------------------------------------------------- the coordinator

  ghost predicate Fulfilled(st: Store, cid: string, tree: string, o: string) {
    o in st.obligations && (st.obligations[o].required ==> Classify(st, cid, tree, o) == InPassed)
  }

  class MeshCommitCoordinator {
    const cfg: Config
    var db: Store

    constructor (cfg: Config)
      ensures this.cfg == cfg && db == EMPTY_STORE && Keyed(db)
    {
      this.cfg := cfg;
      db := EMPTY_STORE;
    }

    method CreateChange(req: CreateRequest, generated: string, read: HashRead, paths: seq<string>)
      returns (r: Result<Change, Error>)
      requires Keyed(db)
      modifies this
      ensures db == Step(cfg, old(db), OpCreate(req, generated, read, paths)) && Keyed(db)
      ensures match CreateError(cfg, req, read)
              case Some(e) => r == Err(e)
              case None => r == Ok(NewChange(req, OrElse(req.changeId, generated), read.hash))
    {
      StepKeepsKeyed(cfg, db, OpCreate(req, generated, read, paths));
      if IsBlank(req.title) { return Err(EmptyTitle); }
      if IsBlank(req.author) { return Err(EmptyAuthor); }
      if !MayWrite(cfg, req.author) { return Err(PolicyDenied); }
      if req.spaceId != "" && req.spaceId in cfg.writers {
        var writer := cfg.writers[req.spaceId];
        if writer != "" && writer != req.author { return Err(PolicyDenied); }
      }
      var cid := if req.changeId == "" then generated else req.changeId;
      if read.Unreadable? { return Err(TreeUnreadable); }
      var specs := [];
      if cfg.policy.Some? {
        specs := ResolveProofPolicy(cfg.plat, cfg.policy.value, paths);
      }
      if |specs| == 0 {
        specs := [DEFAULT_SPEC];
      }
      var chg := NewChange(req, cid, read.hash);
      var saved := SaveObligations(cid, specs);
      db := db.(changes := SaveChange(db.changes, chg), obligations := saved);
      return Ok(chg);
    }

    /** The obligations table with one row saved for each specification. */
    method SaveObligations(cid: string, specs: seq<Spec>) returns (saved: map<string, Obligation>)
      ensures saved == SaveSpecs(db.obligations, cid, specs)
    {
      saved := db.obligations;
      for i := 0 to |specs|
        invariant saved == SaveSpecs(db.obligations, cid, specs[..i])
      {
        assert specs[..i + 1][..i] == specs[..i];
        saved := SaveObligation(saved, ObligationFor(cid, specs[i]));
      }
      assert specs[..|specs|] == specs;
    }

    method PrepareChange(cid: string, actor: string, read: HashRead) returns (r: Result<Change, Error>)
      requires Keyed(db)
      modifies this
      ensures db == Step(cfg, old(db), OpPrepare(cid, actor, read)) && Keyed(db)
      ensures match PrepareError(old(db), cid, actor, read)
              case Some(e) => r == Err(e)
              case None => cid in db.changes && r == Ok(db.changes[cid])
    {
      StepKeepsKeyed(cfg, db, OpPrepare(cid, actor, read));
      if cid !in db.changes { return Err(ChangeNotFound); }
      var chg := db.changes[cid];
      if !IsBlank(actor) && actor != chg.author { return Err(PolicyDenied); }
      if chg.status == Committed || chg.status == Aborted { return Err(Finalized); }
      if read.Unreadable? { return Err(TreeUnreadable); }
      if read.hash != chg.currentTree {
        chg := chg.(currentTree := read.hash);
      }
      chg := chg.(status := Prepared);
      db := db.(changes := SaveChange(db.changes, chg));
      return Ok(chg);
    }

    method SubmitEvidence(ev: Evidence, generated: string, read: HashRead, view: GateView)
      returns (r: Result<GateResult, Error>)
      requires Keyed(db)
      modifies this
      ensures db == Step(cfg, old(db), OpSubmit(ev, generated, read, view)) && Keyed(db)
      ensures match SubmitError(old(db), ev, read)
              case Some(e) => r == Err(e)
              case None => (r.Ok? <==> view.read.Tree?)
                           && (r.Ok? ==> r.value.committable == Verdict(db, ev.changeId, view.read.hash))
    {
      StepKeepsKeyed(cfg, db, OpSubmit(ev, generated, read, view));
      if ev.changeId !in db.changes { return Err(ChangeNotFound); }
      var chg := db.changes[ev.changeId];
      if chg.status == Committed || chg.status == Aborted { return Err(Finalized); }
      if ev.kind == "peer_review" || ev.kind == "security_audit" || ev.kind == "independent_review" {
        if ev.source == chg.author { return Err(SelfReview); }
      }
      if read.Unreadable? { return Err(TreeUnreadable); }
      if ev.tree != chg.currentTree || read.hash != chg.currentTree { return Err(TreeMismatch); }
      SaveSubmitted(ev, generated, chg);
      r := EvaluateGateLocked(ev.changeId, view);
    }

    method SaveSubmitted(ev: Evidence, generated: string, chg: Change)
      requires Keyed(db) && ev.changeId in db.changes && chg == db.changes[ev.changeId]
      modifies this
      ensures db == Submitted(old(db), ev, generated) && Keyed(db)
    {
      var row := ev.(id := if ev.id == "" then generated else ev.id, valid := true);
      db := db.(evidence := SaveEvidence(db.evidence, row));
      if row.obligationId != "" {
        db := db.(obligations :=
          SetStatus(db.obligations, row.obligationId, if row.result == "passed" then Passed else Failed, row.id));
      }
      if chg.status == Prepared || chg.status == Draft {
        db := db.(changes := SaveChange(db.changes, chg.(status := UnderVerification)));
      }
    }

    method ExecuteProof(cid: string, oid: string, generated: string, read: HashRead, run: CommandRun, view: GateView)
      returns (r: Result<Evidence, Error>)
      requires Keyed(db)
      modifies this
      ensures db == Step(cfg, old(db), OpExecute(cid, oid, generated, read, run, view)) && Keyed(db)
      ensures match ExecuteError(old(db), cid, oid, read)
              case Some(e) => r == Err(e)
              case None =>
                r.Ok?
                && if HasCachedProof(old(db), oid, old(db).changes[cid].currentTree)
                   then IsCachedProof(r.value, oid, old(db).changes[cid].currentTree)
                   else r.value == ProofRow(old(db).changes[cid], old(db).obligations[oid], oid, generated, run)
    {
      StepKeepsKeyed(cfg, db, OpExecute(cid, oid, generated, read, run, view));
      if cid !in db.changes { return Err(ChangeNotFound); }
      var chg := db.changes[cid];
      if oid !in db.obligations { return Err(ObligationNotFound); }
      var obl := db.obligations[oid];
      if read.Unreadable? { return Err(TreeUnreadable); }
      if read.hash != chg.currentTree { return Err(TreeMismatch); }
      var cached := FindCachedProof(oid, chg.currentTree);
      if cached.Some? { return Ok(cached.value); }
      var ev := RunProof(chg, obl, generated, run);
      var _ := EvaluateGateLocked(cid, view);
      return Ok(ev);
    }

    /** Runs the command of an obligation and saves the evidence it gives. */
    method RunProof(chg: Change, obl: Obligation, generated: string, run: CommandRun) returns (ev: Evidence)
      requires Keyed(db)
      requires chg.id in db.changes && chg == db.changes[chg.id]
      requires obl.id in db.obligations && obl == db.obligations[obl.id]
      modifies this
      ensures ev == ProofRow(chg, obl, obl.id, generated, run)
      ensures db == Executed(old(db), chg.id, obl.id, generated, run) && Keyed(db)
    {
      db := db.(obligations := SetStatus(db.obligations, obl.id, Running, ""));
      var exitCode := obl.expectedExitCode;
      if obl.command != "" {
        exitCode := run.exitCode;
        if run.failed && exitCode == 0 {
          exitCode := 1;
        }
      }
      var result, status := "passed", Passed;
      if exitCode != obl.expectedExitCode {
        result, status := "failed", Failed;
      }
      ev := Evidence(generated, chg.id, obl.id, chg.currentTree, "harnessmesh", obl.kind, result, true);
      db := db.(evidence := SaveEvidence(db.evidence, ev));
      db := db.(obligations := SetStatus(db.obligations, obl.id, status, ev.id));
    }

    method FindCachedProof(oid: string, tree: string) returns (r: Option<Evidence>)
      ensures r.Some? <==> HasCachedProof(db, oid, tree)
      ensures r.Some? ==> IsCachedProof(r.value, oid, tree)
    {
      var rows := ListIds(set e | e in db.evidence && db.evidence[e].obligationId == oid);
      for i := 0 to |rows|
        invariant forall e :: e in rows[..i] && e in db.evidence ==> !IsCachedProof(db.evidence[e], oid, tree)
      {
        assert rows[i] in rows;
        var ev := db.evidence[rows[i]];
        if ev.valid && ev.tree == tree && ev.result == "passed" { return Some(ev); }
      }
      assert rows[..|rows|] == rows;
      return None;
    }

    /** The nested loops over changed paths and scope patterns. */
    method Overlaps(scope: seq<string>, paths: seq<string>) returns (hit: bool)
      ensures hit == ScopeTouched(cfg.plat, scope, paths)
    {
      hit := false;
      var i := 0;
      while i < |paths| && !hit
        invariant 0 <= i <= |paths|
        invariant hit ==> ScopeTouched(cfg.plat, scope, paths)
        invariant !hit ==> forall k, j :: 0 <= k < i && 0 <= j < |scope| ==> !ScopeMatches(cfg.plat, scope[j], paths[k])
      {
        var j := 0;
        while j < |scope| && !hit
          invariant 0 <= j <= |scope|
          invariant hit ==> ScopeTouched(cfg.plat, scope, paths)
          invariant !hit ==> forall k :: 0 <= k < j ==> !ScopeMatches(cfg.plat, scope[k], paths[i])
        {
          hit := ScopeMatches(cfg.plat, scope[j], paths[i]);
          j := j + 1;
        }
        i := i + 1;
      }
    }

    method InvalidateStaleEvidence(cid: string, paths: seq<string>)
      requires Keyed(db)
      modifies this
      ensures db == AfterInvalidation(cfg.plat, old(db), cid, paths)
    {
      ghost var st := db;
      ghost var dead: set<string> := {};
      var rows := ListIds(EvidenceIds(db, cid));
      var allEv := db.evidence;
      var oblMap := db.obligations;
      assert WithInvalidated(st, dead) == st;
      for i := 0 to |rows|
        invariant forall id :: id in dead <==> id in rows[..i] && Doomed(cfg.plat, st, cid, paths, id)
        invariant db == WithInvalidated(st, dead)
      {
        assert rows[i] in rows;
        var ev := allEv[rows[i]];
        if !ev.valid { continue; }
        var shouldInvalidate := true;
        if ev.obligationId in oblMap && oblMap[ev.obligationId].changeId == cid {
          var scope := oblMap[ev.obligationId].scope;
          if |scope| != 0 {
            shouldInvalidate := Overlaps(scope, paths);
          }
        }
        if shouldInvalidate {
          InvalidateOneMore(st, dead, rows[i]);
          dead := dead + {rows[i]};
          db := InvalidateRow(db, ev.id);
        }
      }
      assert rows[..|rows|] == rows;
      assert dead == set id | id in st.evidence && Doomed(cfg.plat, st, cid, paths, id);
    }

    /** `validEvByObl`: the valid evidence on the current tree, by obligation. */
    method IndexEvidence(cid: string, tree: string) returns (index: map<string, seq<Evidence>>)
      ensures forall oid, result :: Indexed(index, oid, result) <==> HasResult(db.evidence, cid, oid, tree, result)
    {
      var rows := ListIds(EvidenceIds(db, cid));
      index := map[];
      for i := 0 to |rows|
        invariant forall oid, result ::
                    Indexed(index, oid, result) <==> ShownBy(db.evidence, rows[..i], cid, oid, tree, result)
      {
        assert rows[i] in rows;
        var ev := db.evidence[rows[i]];
        ghost var before := index;
        if ev.valid && ev.tree == tree {
          index := AddTo(index, ev);
        }
        forall oid, result
          ensures Indexed(index, oid, result) <==> ShownBy(db.evidence, rows[..i + 1], cid, oid, tree, result)
        {
          AddToIndexes(before, ev, oid, result);
          ShownByOneMore(db.evidence, rows, i, cid, oid, tree, result);
        }
      }
      assert rows[..|rows|] == rows;
    }

    static lemma ShownByOneMore(evidence: map<string, Evidence>, rows: seq<string>, i: nat, cid: string, oid: string,
                                tree: string, result: string)
      requires i < |rows| && rows[i] in evidence
      ensures ShownBy(evidence, rows[..i + 1], cid, oid, tree, result)
         <==> ShownBy(evidence, rows[..i], cid, oid, tree, result) || Shows(evidence[rows[i]], cid, oid, tree, result)
    {
    }

    /** The inner loop over one obligation's evidence. */
    static method Tally(evList: seq<Evidence>) returns (hasPass: bool, hasFail: bool)
      ensures hasPass <==> exists i :: 0 <= i < |evList| && evList[i].result == "passed"
      ensures hasFail <==> exists i :: 0 <= i < |evList| && evList[i].result == "failed"
    {
      hasPass, hasFail := false, false;
      for i := 0 to |evList|
        invariant hasPass <==> exists k :: 0 <= k < i && evList[k].result == "passed"
        invariant hasFail <==> exists k :: 0 <= k < i && evList[k].result == "failed"
      {
        if evList[i].result == "passed" {
          hasPass := true;
        } else if evList[i].result == "failed" {
          hasFail := true;
        }
      }
    }

    /** One turn of the loop over the obligations: grade it from the index and write the status back. */
    method GradeOne(cid: string, tree: string, oid: string, index: map<string, seq<Evidence>>,
                    ghost st: Store, ghost graded: set<string>)
      returns (cls: Class)
      requires db == WithGrades(st, cid, tree, graded) && oid in st.obligations && oid !in graded
      requires forall result :: Indexed(index, oid, result) <==> HasResult(st.evidence, cid, oid, tree, result)
      modifies this
      ensures cls == Classify(st, cid, tree, oid)
      ensures db == WithGrades(st, cid, tree, graded + {oid})
    {
      var obl := db.obligations[oid];
      assert obl == st.obligations[oid];
      var hasPass, hasFail := Tally(if oid in index then index[oid] else []);
      assert hasFail == Indexed(index, oid, "failed") && hasPass == Indexed(index, oid, "passed");
      if hasFail {
        cls := InFailed;
        db := db.(obligations := SetStatus(db.obligations, oid, Failed, ""));
      } else if hasPass {
        cls := InPassed;
        db := db.(obligations := SetStatus(db.obligations, oid, Passed, ""));
      } else if obl.status == Stale {
        cls := InStale;
      } else {
        cls := InPending;
        db := db.(obligations := SetStatus(db.obligations, oid, Pending, ""));
      }
      assert db.obligations == WithGrades(st, cid, tree, graded + {oid}).obligations;
    }

    /** The loop over the obligations: grades are collected in lists and written back to the rows. */
    method GradeObligations(cid: string, tree: string)
      returns (ok: bool, passed: seq<string>, pending: seq<string>, failed: seq<string>, stale: seq<string>)
      requires Keyed(db)
      modifies this
      ensures db == WithGrades(old(db), cid, tree, ObligationIds(old(db), cid))
      ensures ok <==> Verdict(old(db), cid, tree)
      ensures ReportsClasses(GateResult(ok, "", "", passed, pending, failed, stale), old(db), cid, tree)
    {
      ghost var st := db;
      var rows := ListIds(ObligationIds(db, cid));
      var index := IndexEvidence(cid, tree);
      passed, pending, failed, stale := [], [], [], [];
      var allRequiredPassed := true;
      ghost var graded: set<string> := {};
      assert WithGrades(st, cid, tree, {}) == st;
      for i := 0 to |rows|
        invariant forall r :: r in graded <==> r in rows[..i]
        invariant db == WithGrades(st, cid, tree, graded)
        invariant allRequiredPassed <==> forall r :: r in rows[..i] ==> Fulfilled(st, cid, tree, r)
        invariant FourClasses(st, cid, tree, rows[..i], passed, pending, failed, stale)
      {
        assert rows[i] in rows && rows[..i + 1] == rows[..i] + [rows[i]];
        OneMoreRow(st, cid, tree, rows, i);
        var oid := rows[i];
        assert oid !in graded;
        var required := db.obligations[oid].required;
        var cls := GradeOne(cid, tree, oid, index, st, graded);
        graded := graded + {oid};
        match cls {
          case InFailed => failed := failed + [oid];
          case InPassed => passed := passed + [oid];
          case InStale => stale := stale + [oid];
          case InPending => pending := pending + [oid];
        }
        if required && cls != InPassed {
          allRequiredPassed := false;
        }
      }
      assert rows[..|rows|] == rows;
      assert graded == ObligationIds(st, cid);
      ok := allRequiredPassed && |rows| > 0;
      VerdictByClasses(st, cid, tree, rows);
    }

    static lemma VerdictByClasses(st: Store, cid: string, tree: string, rows: seq<string>)
      requires Lists(rows, ObligationIds(st, cid))
      ensures Verdict(st, cid, tree) <==> |rows| > 0 && forall r :: r in rows ==> Fulfilled(st, cid, tree, r)
    {
      assert forall o :: ObligationOf(st.obligations, cid, o) <==> o in rows;
      assert forall o :: RequiredOf(st.obligations, cid, o) <==> o in rows && st.obligations[o].required;
      if |rows| > 0 {
        assert rows[0] in rows;
      }
    }

    /** The first step of the gate: a moved tree invalidates evidence and becomes the current one. */
    method RefreshTree(cid: string, tree: string, paths: seq<string>)
      requires Keyed(db) && cid in db.changes
      modifies this
      ensures db == Refreshed(cfg.plat, old(db), cid, tree, paths)
    {
      var chg := db.changes[cid];
      if tree != chg.currentTree {
        InvalidateStaleEvidence(cid, paths);
        chg := chg.(currentTree := tree);
        db := db.(changes := SaveChange(db.changes, chg));
      }
    }

    method EvaluateGateLocked(cid: string, view: GateView) returns (r: Result<GateResult, Error>)
      requires Keyed(db)
      modifies this
      ensures db == TryGate(cfg.plat, old(db), cid, view) && Keyed(db)
      ensures match GateError(old(db), cid, view)
              case Some(e) => r == Err(e)
              case None =>
                && r.Ok? && r.value.committable == Verdict(db, cid, view.read.hash)
                && cid in db.changes && r.value.currentTree == view.read.hash
                && r.value.verifiedTree == db.changes[cid].verifiedTree
                && ReportsClasses(r.value, Refreshed(cfg.plat, old(db), cid, view.read.hash, view.paths), cid,
                                  view.read.hash)
    {
      if cid !in db.changes { return Err(ChangeNotFound); }
      var chg := db.changes[cid];
      if view.read.Unreadable? { return Err(TreeUnreadable); }
      var tree := view.read.hash;
      RefreshTree(cid, tree, view.paths);
      chg := chg.(currentTree := tree);
      ghost var seen := db;
      RefreshedShape(cfg.plat, old(db), cid, tree, view.paths);
      var ok, passed, pending, failed, stale := GradeObligations(cid, tree);
      if ok {
        chg := chg.(status := Committable, verifiedTree := chg.currentTree);
        db := db.(changes := SaveChange(db.changes, chg));
      } else if chg.status == Committable || chg.status == Verified {
        chg := chg.(status := Blocked);
        db := db.(changes := SaveChange(db.changes, chg));
      }
      assert chg == Promote(seen.changes[cid], Verdict(seen, cid, tree));
      assert db == Gate(cfg.plat, old(db), cid, tree, view.paths);
      GateShape(cfg.plat, old(db), cid, tree, view.paths);
      VerdictIgnoresStatuses(seen, db, cid, tree);
      r := Ok(GateResult(ok, chg.currentTree, chg.verifiedTree, passed, pending, failed, stale));
      SameLists(GateResult(ok, "", "", passed, pending, failed, stale), r.value, seen, cid, tree);
    }

    static lemma SameLists(a: GateResult, b: GateResult, st: Store, cid: string, tree: string)
      requires ReportsClasses(a, st, cid, tree)
      requires a.passed == b.passed && a.pending == b.pending && a.failed == b.failed && a.stale == b.stale
      ensures ReportsClasses(b, st, cid, tree)
    {
    }

    method CommitChange(cid: string, actor: string, read: HashRead, gitSha: string, stamp: string)
      returns (r: Result<Change, Error>)
      requires Keyed(db)
      modifies this
      ensures db == Step(cfg, old(db), OpCommit(cid, actor, read, gitSha, stamp)) && Keyed(db)
      ensures match CommitError(cfg, old(db), cid, actor, read)
              case Some(e) => r == Err(e)
              case None => cid in db.changes && r == Ok(db.changes[cid])
    {
      StepKeepsKeyed(cfg, db, OpCommit(cid, actor, read, gitSha, stamp));
      if cid !in db.changes { return Err(ChangeNotFound); }
      var chg := db.changes[cid];
      if chg.status == Committed { return Ok(chg); }
      if chg.status == Aborted { return Err(Finalized); }
      if chg.status != Committable && chg.status != Verified { return Err(NotCommittable); }
      if !IsBlank(actor) && actor != chg.author { return Err(PolicyDenied); }
      if !MayWrite(cfg, chg.author) { return Err(PolicyDenied); }
      if read.Unreadable? { return Err(TreeUnreadable); }
      if read.hash != chg.currentTree || (chg.verifiedTree != "" && read.hash != chg.verifiedTree) {
        return Err(TreeMismatch);
      }
      var sha := gitSha;
      if sha == "" {
        sha := "commit_" + (if |chg.currentTree| < 8 then chg.currentTree else chg.currentTree[..8]) + "_" + stamp;
      }
      chg := chg.(status := Committed, commitSha := sha);
      db := db.(changes := SaveChange(db.changes, chg));
      return Ok(chg);
    }

    method AbortChange(cid: string, actor: string) returns (r: Result<Change, Error>)
      requires Keyed(db)
      modifies this
      ensures db == Step(cfg, old(db), OpAbort(cid, actor)) && Keyed(db)
      ensures match AbortError(old(db), cid, actor)
              case Some(e) => r == Err(e)
              case None => cid in db.changes && r == Ok(db.changes[cid])
    {
      StepKeepsKeyed(cfg, db, OpAbort(cid, actor));
      if cid !in db.changes { return Err(ChangeNotFound); }
      var chg := db.changes[cid];
      if !IsBlank(actor) && actor != chg.author { return Err(PolicyDenied); }
      if chg.status == Committed { return Err(Finalized); }
      chg := chg.(status := Aborted);
      db := db.(changes := SaveChange(db.changes, chg));
      return Ok(chg);
    }
  }
}
