/** Concrete runs and configurations that show where the guarantees of MeshCommit end. */
module MeshWitness {
  import opened Text
  import opened PathPatterns
  import opened ProofPolicy
  import opened MeshStore
  import opened MeshGate
  import opened MeshSpec
  import opened MeshTheorems

  const SOLE_OBLIGATION := "obl_c_default_verification"

  function StandaloneConfig(plat: Platform): Config {
    Config(plat, None, map[], map[])
  }

  const CREATE_OP := OpCreate(CreateRequest("c", "", "title", "codex", "base"), "", Tree("t"), [])

  function EvidenceOf(id: string, result: string): Evidence {
    Evidence(id, "c", SOLE_OBLIGATION, "t", "runner", "test_result", result, true)
  }

  function SubmitOp(id: string, result: string, read: HashRead): Op {
    OpSubmit(EvidenceOf(id, result), "", Tree("t"), GateView(read, []))
  }

  lemma SavesDefaultSpec()
    ensures SaveSpecs(map[], "c", [DEFAULT_SPEC]) == map[SOLE_OBLIGATION := ObligationFor("c", DEFAULT_SPEC)]
  {
    assert [DEFAULT_SPEC][..0] == [];
    assert SaveSpecs(map[], "c", []) == map[];
    assert ObligationId("c", "default_verification") == SOLE_OBLIGATION;
  }

  lemma CreateIsAccepted(plat: Platform)
    ensures CreateError(StandaloneConfig(plat), CREATE_OP.req, CREATE_OP.read) == None
  {
    assert !IsSpace("title"[0]) && !IsSpace("codex"[0]);
  }

  lemma AfterCreate(plat: Platform)
    ensures Run(StandaloneConfig(plat), [CREATE_OP])
         == DraftStore()
  {
    var cfg, ops := StandaloneConfig(plat), [CREATE_OP];
    assert Run(cfg, ops) == Step(cfg, EMPTY_STORE, CREATE_OP) by {
      assert ops[..|ops| - 1] == [];
    }
    CreateIsAccepted(plat);
    SavesDefaultSpec();
  }

  lemma SoleProofSuffices(st: Store)
    requires RequiredOf(st.obligations, "c", SOLE_OBLIGATION) && st.obligations.Keys == {SOLE_OBLIGATION}
    requires st.evidence == map["e1" := EvidenceOf("e1", "passed")]
    ensures Verdict(st, "c", "t")
  {
    assert ObligationOf(st.obligations, "c", SOLE_OBLIGATION);
    assert Shows(st.evidence["e1"], "c", SOLE_OBLIGATION, "t", "passed");
  }

  const DRAFT_ROW := Change("c", "title", "codex", Draft, "base", "t", "t", "", "")

  function DraftStore(): Store {
    Store(map["c" := DRAFT_ROW], map[SOLE_OBLIGATION := ObligationFor("c", DEFAULT_SPEC)], map[])
  }

  lemma SubmitIsAccepted()
    ensures SubmitError(DraftStore(), EvidenceOf("e1", "passed"), Tree("t")) == None
  {
  }

  /** The store with the change proved once, before the gate looks at it. */
  lemma SavedPass()
    ensures var saved := Submitted(DraftStore(), EvidenceOf("e1", "passed"), "");
            saved.changes == map["c" := DRAFT_ROW.(status := UnderVerification)]
            && saved.evidence == map["e1" := EvidenceOf("e1", "passed")]
  {
  }

  lemma SubmittedKeepsDuty(st: Store, ev: Evidence, generated: string, o: string)
    requires Keyed(st) && ev.changeId in st.changes && ev.tree == st.changes[ev.changeId].currentTree
    requires RequiredOf(st.obligations, ev.changeId, o)
    ensures var saved := Submitted(st, ev, generated);
            && Keyed(saved) && saved.obligations.Keys == st.obligations.Keys
            && RequiredOf(saved.obligations, ev.changeId, o)
  {
  }

  lemma DraftStoreShape()
    ensures Keyed(DraftStore()) && RequiredOf(DraftStore().obligations, "c", SOLE_OBLIGATION)
  {
    assert ObligationId("c", "default_verification") == SOLE_OBLIGATION;
  }

  lemma AfterPass(plat: Platform)
    ensures var st := Run(StandaloneConfig(plat), [CREATE_OP, SubmitOp("e1", "passed", Tree("t"))]);
            && "c" in st.changes && st.changes["c"].status == Committable && st.changes["c"].currentTree == "t"
            && st.changes["c"].author == "codex"
            && RequiredOf(st.obligations, "c", SOLE_OBLIGATION) && st.evidence.Keys == {"e1"} && Verdict(st, "c", "t")
  {
    var cfg, submit := StandaloneConfig(plat), SubmitOp("e1", "passed", Tree("t"));
    var saved := Submitted(DraftStore(), EvidenceOf("e1", "passed"), "");
    assert Run(cfg, [CREATE_OP, submit]) == Step(cfg, DraftStore(), submit) by {
      var ops := [CREATE_OP, submit];
      assert ops[..|ops| - 1] == [CREATE_OP];
      AfterCreate(plat);
    }
    SubmitIsAccepted();
    SavedPass();
    DraftStoreShape();
    SubmittedKeepsDuty(DraftStore(), EvidenceOf("e1", "passed"), "", SOLE_OBLIGATION);
    SoleProofSuffices(saved);
    GateOfSaved(plat, saved);
  }

  lemma GateOfSaved(plat: Platform, saved: Store)
    requires Keyed(saved) && Verdict(saved, "c", "t") && RequiredOf(saved.obligations, "c", SOLE_OBLIGATION)
    requires saved.changes == map["c" := DRAFT_ROW.(status := UnderVerification)]
    ensures var st := Gate(plat, saved, "c", "t", []);
            && "c" in st.changes && st.changes["c"].status == Committable && st.changes["c"].currentTree == "t"
            && st.changes["c"].author == "codex"
            && RequiredOf(st.obligations, "c", SOLE_OBLIGATION) && st.evidence == saved.evidence
            && Verdict(st, "c", "t")
  {
    assert Refreshed(plat, saved, "c", "t", []) == saved;
    GateShape(plat, saved, "c", "t", []);
    GateVerdict(plat, saved, "c", "t", []);
  }

  /**
   * A whole run from the empty store that commits a change although its one required obligation has valid failing
   * evidence on the committed tree: the gate's read of the tree failed right after that evidence was saved.
   */
  lemma RefutedCommitIsReachable(plat: Platform)
    ensures var ops := [CREATE_OP, SubmitOp("e1", "passed", Tree("t")), SubmitOp("e2", "failed", Unreadable)];
            var commit := OpCommit("c", "", Tree("t"), "sha", "");
            var before := Run(StandaloneConfig(plat), ops);
            var after := Step(StandaloneConfig(plat), before, commit);
            BecomesCommitted(before, after, "c") && !Unrefuted(after, "c", "t")
  {
    var cfg := StandaloneConfig(plat);
    var pass, fail := SubmitOp("e1", "passed", Tree("t")), SubmitOp("e2", "failed", Unreadable);
    var ops := [CREATE_OP, pass, fail];
    assert ops[..2] == [CREATE_OP, pass];
    AfterPass(plat);
    RunKeeps(cfg, [CREATE_OP, pass]);
    CommitDespiteFailure(cfg, Run(cfg, [CREATE_OP, pass]), EvidenceOf("e2", "failed"), "", "", "sha", "");
  }

  lemma AfterAbort(plat: Platform)
    ensures var st := Run(StandaloneConfig(plat), [CREATE_OP, SubmitOp("e1", "passed", Tree("t")), OpAbort("c", "")]);
            && Keyed(st) && "c" in st.changes && st.changes["c"].status == Aborted
            && st.changes["c"].currentTree == "t" && st.changes["c"].author == "codex" && Verdict(st, "c", "t")
  {
    var cfg := StandaloneConfig(plat);
    var front, abort := [CREATE_OP, SubmitOp("e1", "passed", Tree("t"))], OpAbort("c", "");
    var ops := [CREATE_OP, SubmitOp("e1", "passed", Tree("t")), abort];
    assert ops[..|ops| - 1] == front;
    AfterPass(plat);
    RunKeeps(cfg, front);
    AbortKeepsVerdict(cfg, Run(cfg, front), "c", "");
  }

  /**
   * A whole run from the empty store that commits an aborted change: it was proved, then aborted, and an evaluation of
   * its gate on the same tree made it committable again.
   */
  lemma AbortedIsNotTerminal(plat: Platform)
    ensures var ops := [CREATE_OP, SubmitOp("e1", "passed", Tree("t")), OpAbort("c", "")];
            var evaluate, commit := OpEvaluate("c", GateView(Tree("t"), [])), OpCommit("c", "", Tree("t"), "sha", "");
            var aborted := Run(StandaloneConfig(plat), ops);
            var regated := Step(StandaloneConfig(plat), aborted, evaluate);
            && "c" in aborted.changes && aborted.changes["c"].status == Aborted
            && BecomesCommitted(regated, Step(StandaloneConfig(plat), regated, commit), "c")
  {
    AfterAbort(plat);
    var ops := [CREATE_OP, SubmitOp("e1", "passed", Tree("t")), OpAbort("c", "")];
    AbortedCanBeCommitted(StandaloneConfig(plat), Run(StandaloneConfig(plat), ops), "c", "", "sha", "");
  }

  // ---------------------------------------------------------------- one row per specification?

  ghost predicate EachHasItsRow(rows: map<string, Obligation>, cid: string, specs: seq<Spec>) {
    forall i :: 0 <= i < |specs| ==>
      ObligationId(cid, specs[i].name) in rows
      && rows[ObligationId(cid, specs[i].name)] == ObligationFor(cid, specs[i])
  }

  lemma ObligationIdInjective(cid: string, a: string, b: string)
    requires ObligationId(cid, a) == ObligationId(cid, b)
    ensures a == b
  {
    assert a == ObligationId(cid, a)[|"obl_" + cid + "_"|..];
    assert b == ObligationId(cid, b)[|"obl_" + cid + "_"|..];
  }

  /** The row saved under a name is that of the first specification with the name. */
  lemma {:induction false} FirstOfNameWins(rows: map<string, Obligation>, cid: string, specs: seq<Spec>, i: nat)
    requires i < |specs|
    requires forall s :: s in specs ==> ObligationId(cid, s.name) !in rows
    requires forall k :: 0 <= k < i ==> specs[k].name != specs[i].name
    ensures var id := ObligationId(cid, specs[i].name);
            id in SaveSpecs(rows, cid, specs) && SaveSpecs(rows, cid, specs)[id] == ObligationFor(cid, specs[i])
  {
    var front, last := specs[..|specs| - 1], specs[|specs| - 1];
    if i < |front| {
      FirstOfNameWins(rows, cid, front, i);
    } else {
      NoRowWithoutSpec(rows, cid, front, last.name);
    }
  }

  lemma {:induction false} NoRowWithoutSpec(rows: map<string, Obligation>, cid: string, specs: seq<Spec>, name: string)
    requires ObligationId(cid, name) !in rows && forall s :: s in specs ==> s.name != name
    ensures ObligationId(cid, name) !in SaveSpecs(rows, cid, specs)
  {
    if specs != [] {
      NoRowWithoutSpec(rows, cid, specs[..|specs| - 1], name);
      var last := specs[|specs| - 1];
      assert last in specs;
      if ObligationId(cid, last.name) == ObligationId(cid, name) {
        ObligationIdInjective(cid, last.name, name);
      }
    }
  }

  /**
   * For specifications of distinct types and a change id used for the first time, every locked specification gets an
   * obligation row of its own exactly when no two of them share a name.
   */
  lemma PolicyIsStoredExactly(rows: map<string, Obligation>, cid: string, specs: seq<Spec>)
    requires forall s :: s in specs ==> ObligationId(cid, s.name) !in rows
    requires forall i, j :: 0 <= i < j < |specs| ==> specs[i].kind != specs[j].kind
    ensures EachHasItsRow(SaveSpecs(rows, cid, specs), cid, specs)
       <==> forall i, j :: 0 <= i < j < |specs| ==> specs[i].name != specs[j].name
  {
    var saved := SaveSpecs(rows, cid, specs);
    if i, j :| 0 <= i < j < |specs| && specs[i].name == specs[j].name {
      assert ObligationFor(cid, specs[i]).kind != ObligationFor(cid, specs[j]).kind;
      assert ObligationId(cid, specs[i].name) == ObligationId(cid, specs[j].name);
    } else {
      forall i | 0 <= i < |specs|
        ensures ObligationId(cid, specs[i].name) in saved
        ensures saved[ObligationId(cid, specs[i].name)] == ObligationFor(cid, specs[i])
      {
        FirstOfNameWins(rows, cid, specs, i);
      }
    }
  }

  /**
   * Two configured default proofs with one name: "unit tests" is titled like the built-in "unit_tests", and of the two
   * specifications the policy resolves to, one loses its row.
   */
  lemma NamesCanClash(plat: Platform, cid: string, paths: seq<string>)
    requires plat.lowerTrim("unit-tests") == "unit-tests" && plat.lowerTrim("unit tests") == "unit tests"
    requires plat.title("unit tests") == "Unit Tests"
    ensures var cc := ChangeControl(Some(["unit-tests", "unit tests"]), []);
            var specs := Resolve(plat, cc, paths);
            && |specs| == 2 && specs[0].kind != specs[1].kind
            && LockedSpecs(Config(plat, Some(cc), map[], map[]), paths) == specs
            && !EachHasItsRow(SaveSpecs(map[], cid, specs), cid, specs)
  {
    NormalNames(plat);
    var cc := ChangeControl(Some(["unit-tests", "unit tests"]), []);
    var ds := [Demand("unit_tests", []), Demand("unit tests", [])];
    assert DemandsOf(plat, Defaults(cc), []) == ds;
    assert Demands(plat, cc, paths) == ds + RuleDemands(plat, [], paths) == ds;
    KindsOfTwo(ds[0], ds[1]);
    ScopesOfTwo(ds[0], ds[1]);
    var specs := [SpecFor(plat, "unit_tests", []), SpecFor(plat, "unit tests", [])];
    assert SpecsOf(plat, ds) == specs;
    TwoOfOneName(cid, specs);
  }

  lemma NormalNames(plat: Platform)
    requires plat.lowerTrim("unit-tests") == "unit-tests" && plat.lowerTrim("unit tests") == "unit tests"
    requires plat.title("unit tests") == "Unit Tests"
    ensures NormalizeObligationType(plat, "unit-tests") == "unit_tests" != "unit tests"
    ensures NormalizeObligationType(plat, "unit tests") == "unit tests"
    ensures SpecFor(plat, "unit tests", []).name == SpecFor(plat, "unit_tests", []).name
  {
    assert ReplaceAll("unit-tests", '-', '_') == "unit_tests";
    assert ReplaceAll("unit tests", '-', '_') == "unit tests";
    assert ReplaceAll("unit tests", '_', ' ') == "unit tests";
    assert "unit_tests"[4] != "unit tests"[4];
  }

  lemma KindsOfTwo(a: Demand, b: Demand)
    requires a.kind != "" && b.kind != "" && a.kind != b.kind
    ensures Kinds([a, b]) == [a.kind, b.kind]
  {
    assert [a, b][..1] == [a] && [a][..0] == [];
    assert Kinds([a]) == [] + [a.kind] == [a.kind];
  }

  lemma ScopesOfTwo(a: Demand, b: Demand)
    requires a.scope == [] && b.scope == []
    ensures forall kind :: ScopeOf([a, b], kind) == []
  {
    assert [a, b][..1] == [a] && [a][..0] == [];
    assert forall kind :: ScopeOf([a], kind) == [];
  }

  lemma TwoOfOneName(cid: string, specs: seq<Spec>)
    requires |specs| == 2 && specs[0].kind != specs[1].kind && specs[0].name == specs[1].name
    ensures !EachHasItsRow(SaveSpecs(map[], cid, specs), cid, specs)
  {
    PolicyIsStoredExactly(map[], cid, specs);
  }
}
