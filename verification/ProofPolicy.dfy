/** Which proofs a change owes: `ResolveProofPolicy` of internal/config/config.go. */
module ProofPolicy {
  import opened Text
  import opened PathPatterns

  datatype Rule = Rule(paths: seq<string>, require: seq<string>)

  datatype ChangeControl = ChangeControl(defaultProofs: Option<seq<string>>, rules: seq<Rule>)

  datatype Spec = Spec(
    kind: string, name: string, required: bool, scope: seq<string>, command: string, expectedExitCode: int)

  /** One `addProof` call: a normalised proof type and the scope it comes with. */
  datatype Demand = Demand(kind: string, scope: seq<string>)

  function ReplaceAll(s: string, from: char, to: char): string {
    seq(|s|, i requires 0 <= i < |s| => if s[i] == from then to else s[i])
  }

  function NormalizeObligationType(plat: Platform, name: string): string {
    var s := ReplaceAll(plat.lowerTrim(name), '-', '_');
    if s in {"unit_test", "unit_tests", "unittest", "unittests"} then "unit_tests"
    else if s in {"race", "race_detector", "race_detect"} then "race_detector"
    else if s in {"build", "compile"} then "build"
    else if s in {"lint", "vet"} then "lint"
    else if s in {"independent_review", "peer_review", "review"} then "independent_review"
    else if s in {"security_review", "security_scan", "security", "security_audit"} then "security_review"
    else if s in {"architecture_review", "architecture"} then "architecture_review"
    else s
  }

  function SpecFor(plat: Platform, kind: string, scope: seq<string>): Spec {
    match kind
    case "unit_tests" => Spec(kind, "Unit Tests", true, scope, "go test ./...", 0)
    case "race_detector" => Spec(kind, "Race Detector", true, scope, "go test -race ./...", 0)
    case "build" => Spec(kind, "Build", true, scope, "go build ./...", 0)
    case "lint" => Spec(kind, "Code Analysis", true, scope, "go vet ./...", 0)
    case "independent_review" => Spec(kind, "Independent Peer Review", true, scope, "", 0)
    case "security_review" => Spec(kind, "Security Review", true, scope, "", 0)
    case "architecture_review" => Spec(kind, "Architecture Review", true, scope, "", 0)
    case _ => Spec(kind, plat.title(ReplaceAll(kind, '_', ' ')), true, scope, "", 0)
  }

  function Defaults(cc: ChangeControl): seq<string> {
    match cc.defaultProofs
    case None => ["unit-tests", "independent-review"]
    case Some(proofs) => proofs
  }

  predicate RuleMatches(plat: Platform, rule: Rule, paths: seq<string>) {
    || rule.paths == []
    || exists i, j :: 0 <= i < |rule.paths| && 0 <= j < |paths| && MatchPathPattern(plat, rule.paths[i], paths[j])
  }

  function DemandsOf(plat: Platform, names: seq<string>, scope: seq<string>): seq<Demand> {
    seq(|names|, i requires 0 <= i < |names| => Demand(NormalizeObligationType(plat, names[i]), scope))
  }

  function DemandsOfRule(plat: Platform, rule: Rule, paths: seq<string>): seq<Demand> {
    if RuleMatches(plat, rule, paths) then DemandsOf(plat, rule.require, rule.paths) else []
  }

  /** The demands of the rules that match, in order. */
  function RuleDemands(plat: Platform, rules: seq<Rule>, paths: seq<string>): seq<Demand> {
    if rules == [] then []
    else
      var last := rules[|rules| - 1];
      RuleDemands(plat, rules[..|rules| - 1], paths) + DemandsOfRule(plat, last, paths)
  }

  function Demands(plat: Platform, cc: ChangeControl, paths: seq<string>): seq<Demand> {
    DemandsOf(plat, Defaults(cc), []) + RuleDemands(plat, cc.rules, paths)
  }

  /** The non-empty types, each at its first occurrence. */
  function Kinds(ds: seq<Demand>): seq<string> {
    if ds == [] then []
    else
      var before := Kinds(ds[..|ds| - 1]);
      var kind := ds[|ds| - 1].kind;
      if kind == "" || kind in before then before else before + [kind]
  }

  /** All scopes demanded for one type, in order. */
  function ScopeOf(ds: seq<Demand>, kind: string): seq<string> {
    if ds == [] then []
    else
      ScopeOf(ds[..|ds| - 1], kind) + (if ds[|ds| - 1].kind == kind then ds[|ds| - 1].scope else [])
  }

  function SpecsOf(plat: Platform, ds: seq<Demand>): seq<Spec> {
    var kinds := Kinds(ds);
    seq(|kinds|, i requires 0 <= i < |kinds| => SpecFor(plat, kinds[i], ScopeOf(ds, kinds[i])))
  }

  function Resolve(plat: Platform, cc: ChangeControl, paths: seq<string>): seq<Spec> {
    SpecsOf(plat, Demands(plat, cc, paths))
  }

  // ---------------------------------------------------------------- the loops of the source

  method TestRule(plat: Platform, rule: Rule, paths: seq<string>) returns (matched: bool)
    ensures matched == RuleMatches(plat, rule, paths)
  {
    matched := |rule.paths| == 0;
    var i := 0;
    while i < |rule.paths| && !matched
      invariant 0 <= i <= |rule.paths|
      invariant matched ==> RuleMatches(plat, rule, paths)
      invariant !matched ==> rule.paths != []
      invariant !matched ==> forall k, j :: 0 <= k < i && 0 <= j < |paths| ==>
                               !MatchPathPattern(plat, rule.paths[k], paths[j])
    {
      var j := 0;
      while j < |paths| && !matched
        invariant 0 <= j <= |paths|
        invariant matched ==> RuleMatches(plat, rule, paths)
        invariant !matched ==> forall k :: 0 <= k < j ==> !MatchPathPattern(plat, rule.paths[i], paths[k])
      {
        matched := MatchPathPattern(plat, rule.paths[i], paths[j]);
        j := j + 1;
      }
      i := i + 1;
    }
  }

  lemma RuleDemandsStep(plat: Platform, rules: seq<Rule>, i: nat, paths: seq<string>)
    requires i < |rules|
    ensures RuleDemands(plat, rules[..i + 1], paths)
         == RuleDemands(plat, rules[..i], paths) + DemandsOfRule(plat, rules[i], paths)
  {
    assert rules[..i + 1][..i] == rules[..i];
  }

  lemma KindsSnoc(ds: seq<Demand>, d: Demand)
    ensures Kinds(ds + [d]) == if d.kind == "" || d.kind in Kinds(ds) then Kinds(ds) else Kinds(ds) + [d.kind]
    ensures forall k :: ScopeOf(ds + [d], k) == ScopeOf(ds, k) + (if d.kind == k then d.scope else [])
  {
  }

  /** The variables that the `addProof` closure of the source captures and updates. */
  datatype Collected = Collected(proofTypes: seq<string>, seen: set<string>, scopes: map<string, seq<string>>)

  ghost predicate Collects(c: Collected, ds: seq<Demand>) {
    && c.proofTypes == Kinds(ds)
    && (forall k :: k in c.seen <==> k in c.proofTypes)
    && (forall k :: k in c.scopes ==> k != "")
    && (forall k :: k != "" ==> ScopeOf(ds, k) == if k in c.scopes then c.scopes[k] else [])
  }

  method AddProof(c: Collected, norm: string, scope: seq<string>, ghost ds: seq<Demand>) returns (c': Collected)
    requires Collects(c, ds)
    ensures Collects(c', ds + [Demand(norm, scope)])
  {
    KindsSnoc(ds, Demand(norm, scope));
    var proofTypes, seen, scopes := c.proofTypes, c.seen, c.scopes;
    if norm != "" {
      if norm !in seen {
        seen := seen + {norm};
        proofTypes := proofTypes + [norm];
      }
      if |scope| > 0 {
        scopes := scopes[norm := (if norm in scopes then scopes[norm] else []) + scope];
      }
    }
    c' := Collected(proofTypes, seen, scopes);
  }

  method AddProofs(plat: Platform, c: Collected, names: seq<string>, scope: seq<string>, ghost ds: seq<Demand>)
    returns (c': Collected)
    requires Collects(c, ds)
    ensures Collects(c', ds + DemandsOf(plat, names, scope))
  {
    c' := c;
    ghost var added := DemandsOf(plat, names, scope);
    assert ds + added[..0] == ds;
    for i := 0 to |names|
      invariant Collects(c', ds + added[..i])
    {
      c' := AddProof(c', NormalizeObligationType(plat, names[i]), scope, ds + added[..i]);
      assert ds + added[..i] + [added[i]] == ds + added[..i + 1];
    }
    assert added[..|names|] == added;
  }

  method AddRules(plat: Platform, c: Collected, rules: seq<Rule>, paths: seq<string>, ghost ds: seq<Demand>)
    returns (c': Collected)
    requires Collects(c, ds)
    ensures Collects(c', ds + RuleDemands(plat, rules, paths))
  {
    c' := c;
    ghost var all := ds;
    for i := 0 to |rules|
      invariant all == ds + RuleDemands(plat, rules[..i], paths)
      invariant Collects(c', all)
    {
      RuleDemandsStep(plat, rules, i, paths);
      var matched := TestRule(plat, rules[i], paths);
      if matched {
        c' := AddProofs(plat, c', rules[i].require, rules[i].paths, all);
        all := all + DemandsOf(plat, rules[i].require, rules[i].paths);
      }
    }
    assert rules[..|rules|] == rules;
  }

  method ResolveProofPolicy(plat: Platform, cc: ChangeControl, affectedPaths: seq<string>) returns (specs: seq<Spec>)
    ensures specs == Resolve(plat, cc, affectedPaths)
  {
    var c := AddProofs(plat, Collected([], {}, map[]), Defaults(cc), [], []);
    c := AddRules(plat, c, cc.rules, affectedPaths, [] + DemandsOf(plat, Defaults(cc), []));
    specs := BuildSpecs(plat, c, [] + DemandsOf(plat, Defaults(cc), []) + RuleDemands(plat, cc.rules, affectedPaths));
    assert [] + DemandsOf(plat, Defaults(cc), []) == DemandsOf(plat, Defaults(cc), []);
  }

  /** The last step of the source: one specification for each collected type. */
  method BuildSpecs(plat: Platform, c: Collected, ghost ds: seq<Demand>) returns (specs: seq<Spec>)
    requires Collects(c, ds)
    ensures specs == SpecsOf(plat, ds)
  {
    specs := [];
    KindsAreDemanded(ds);
    for i := 0 to |c.proofTypes|
      invariant |SpecsOf(plat, ds)| == |c.proofTypes|
      invariant specs == SpecsOf(plat, ds)[..i]
    {
      var kind := c.proofTypes[i];
      assert kind in c.proofTypes;
      specs := specs + [SpecFor(plat, kind, if kind in c.scopes then c.scopes[kind] else [])];
    }
  }

  // ---------------------------------------------------------------- what the policy demands

  /** The types are distinct, non-empty, and exactly the demanded ones. */
  lemma {:induction false} KindsAreDemanded(ds: seq<Demand>)
    ensures forall k :: k in Kinds(ds) <==> k != "" && Demanded(ds, k)
    ensures forall i, j :: 0 <= i < j < |Kinds(ds)| ==> Kinds(ds)[i] != Kinds(ds)[j]
  {
    if ds != [] {
      var front, last := ds[..|ds| - 1], ds[|ds| - 1].kind;
      KindsAreDemanded(front);
      forall k | k in Kinds(ds)
        ensures k != "" && Demanded(ds, k)
      {
        if k in Kinds(front) {
          var i :| 0 <= i < |front| && front[i].kind == k;
          assert ds[i].kind == k;
        } else {
          assert ds[|ds| - 1].kind == k;
        }
      }
      forall i | 0 <= i < |ds| && ds[i].kind != ""
        ensures ds[i].kind in Kinds(ds)
      {
        assert i < |front| ==> front[i] == ds[i];
      }
    }
  }

  ghost predicate Names(plat: Platform, names: seq<string>, kind: string) {
    exists q :: q in names && NormalizeObligationType(plat, q) == kind
  }

  /** The rule has no paths, or one of them matches an affected path. */
  ghost predicate Applies(plat: Platform, r: Rule, paths: seq<string>) {
    r.paths == [] || exists p, q :: p in r.paths && q in paths && MatchPathPattern(plat, p, q)
  }

  ghost predicate RulesAskFor(plat: Platform, rules: seq<Rule>, paths: seq<string>, kind: string) {
    exists r :: r in rules && Applies(plat, r, paths) && Names(plat, r.require, kind)
  }

  /**
   * Does the configuration ask for proof type `kind` when these paths are affected? Without configured defaults, unit
   * tests and an independent review are the defaults.
   */
  ghost predicate AsksFor(plat: Platform, cc: ChangeControl, paths: seq<string>, kind: string) {
    var defaults := if cc.defaultProofs.Some? then cc.defaultProofs.value else ["unit-tests", "independent-review"];
    Names(plat, defaults, kind) || RulesAskFor(plat, cc.rules, paths, kind)
  }

  lemma AppliesExactly(plat: Platform, r: Rule, paths: seq<string>)
    ensures RuleMatches(plat, r, paths) <==> Applies(plat, r, paths)
  {
    if p, q :| p in r.paths && q in paths && MatchPathPattern(plat, p, q) {
      var i :| 0 <= i < |r.paths| && r.paths[i] == p;
      var j :| 0 <= j < |paths| && paths[j] == q;
      assert MatchPathPattern(plat, r.paths[i], paths[j]);
    }
    if i, j :| 0 <= i < |r.paths| && 0 <= j < |paths| && MatchPathPattern(plat, r.paths[i], paths[j]) {
      assert r.paths[i] in r.paths && paths[j] in paths;
    }
  }

  ghost predicate Demanded(ds: seq<Demand>, kind: string) {
    exists i :: 0 <= i < |ds| && ds[i].kind == kind
  }

  lemma DemandedConcat(xs: seq<Demand>, ys: seq<Demand>, kind: string)
    ensures Demanded(xs + ys, kind) <==> Demanded(xs, kind) || Demanded(ys, kind)
  {
    if i :| 0 <= i < |xs| && xs[i].kind == kind {
      assert (xs + ys)[i].kind == kind;
    }
    if i :| 0 <= i < |ys| && ys[i].kind == kind {
      assert (xs + ys)[|xs| + i].kind == kind;
    }
  }

  lemma NamesDemanded(plat: Platform, names: seq<string>, scope: seq<string>, kind: string)
    ensures Demanded(DemandsOf(plat, names, scope), kind) <==> Names(plat, names, kind)
  {
    var ds := DemandsOf(plat, names, scope);
    assert forall i :: 0 <= i < |ds| ==> names[i] in names;
    if q :| q in names && NormalizeObligationType(plat, q) == kind {
      var i :| 0 <= i < |names| && names[i] == q;
      assert ds[i].kind == kind;
    }
  }

  lemma RulesAskSnoc(plat: Platform, front: seq<Rule>, last: Rule, paths: seq<string>, kind: string)
    ensures RulesAskFor(plat, front + [last], paths, kind) <==>
            RulesAskFor(plat, front, paths, kind) || (Applies(plat, last, paths) && Names(plat, last.require, kind))
  {
  }

  lemma RuleDemandsItsOwn(plat: Platform, rule: Rule, paths: seq<string>, kind: string)
    ensures Demanded(DemandsOfRule(plat, rule, paths), kind) <==>
            Applies(plat, rule, paths) && Names(plat, rule.require, kind)
  {
    AppliesExactly(plat, rule, paths);
    NamesDemanded(plat, rule.require, rule.paths, kind);
  }

  lemma {:induction false} RuleDemandsExact(plat: Platform, rules: seq<Rule>, paths: seq<string>, kind: string)
    ensures Demanded(RuleDemands(plat, rules, paths), kind) <==> RulesAskFor(plat, rules, paths, kind)
  {
    if rules != [] {
      var front, last := rules[..|rules| - 1], rules[|rules| - 1];
      assert rules == front + [last];
      RuleDemandsExact(plat, front, paths, kind);
      RuleDemandsItsOwn(plat, last, paths, kind);
      DemandedConcat(RuleDemands(plat, front, paths), DemandsOfRule(plat, last, paths), kind);
      RulesAskSnoc(plat, front, last, paths, kind);
    }
  }

  ghost predicate Specified(specs: seq<Spec>, kind: string) {
    exists i :: 0 <= i < |specs| && specs[i].kind == kind
  }

  /** A proof type gets a (required) specification exactly when a default or a matching rule asks for it. */
  lemma PolicyIsExact(plat: Platform, cc: ChangeControl, paths: seq<string>, kind: string)
    ensures Specified(Resolve(plat, cc, paths), kind) <==> kind != "" && AsksFor(plat, cc, paths, kind)
    ensures forall i :: 0 <= i < |Resolve(plat, cc, paths)| ==> Resolve(plat, cc, paths)[i].required
  {
    var ds := Demands(plat, cc, paths);
    KindsAreDemanded(ds);
    NamesDemanded(plat, Defaults(cc), [], kind);
    RuleDemandsExact(plat, cc.rules, paths, kind);
    DemandedConcat(DemandsOf(plat, Defaults(cc), []), RuleDemands(plat, cc.rules, paths), kind);
    SpecKinds(plat, ds, kind);
  }

  lemma SpecKinds(plat: Platform, ds: seq<Demand>, kind: string)
    ensures Specified(SpecsOf(plat, ds), kind) <==> kind in Kinds(ds)
    ensures forall i :: 0 <= i < |SpecsOf(plat, ds)| ==> SpecsOf(plat, ds)[i].required
  {
    var specs, kinds := SpecsOf(plat, ds), Kinds(ds);
    forall i | 0 <= i < |specs|
      ensures specs[i].kind == kinds[i] && specs[i].required
    {
      SpecOfKind(plat, kinds[i], ScopeOf(ds, kinds[i]));
    }
    if kind in kinds {
      var j :| 0 <= j < |kinds| && kinds[j] == kind;
      assert specs[j].kind == kind;
    }
  }

  lemma SpecOfKind(plat: Platform, kind: string, scope: seq<string>)
    ensures SpecFor(plat, kind, scope).kind == kind && SpecFor(plat, kind, scope).required
  {
  }

  /** Touching more paths never drops an obligation type. */
  lemma MorePathsMoreProofs(plat: Platform, cc: ChangeControl, fewer: seq<string>, more: seq<string>, kind: string)
    requires forall p :: p in fewer ==> p in more
    requires Specified(Resolve(plat, cc, fewer), kind)
    ensures Specified(Resolve(plat, cc, more), kind)
  {
    PolicyIsExact(plat, cc, fewer, kind);
    PolicyIsExact(plat, cc, more, kind);
    if r :| r in cc.rules && Applies(plat, r, fewer) && Names(plat, r.require, kind) {
      assert Applies(plat, r, more);
    }
  }

  // ---------------------------------------------------------------- scopes, types and commands

  /** Pattern `p` is among the paths of a rule that applies and requires the type. */
  ghost predicate Scopes(plat: Platform, rules: seq<Rule>, paths: seq<string>, kind: string, p: string) {
    exists r :: r in rules && Applies(plat, r, paths) && Names(plat, r.require, kind) && p in r.paths
  }

  lemma {:induction false} ScopeOfConcat(xs: seq<Demand>, ys: seq<Demand>, kind: string)
    ensures ScopeOf(xs + ys, kind) == ScopeOf(xs, kind) + ScopeOf(ys, kind)
  {
    if ys == [] {
      assert xs + ys == xs;
    } else {
      var front := ys[..|ys| - 1];
      assert (xs + ys)[..|xs + ys| - 1] == xs + front;
      ScopeOfConcat(xs, front, kind);
    }
  }

  lemma {:induction false} ScopeOfNames(plat: Platform, names: seq<string>, scope: seq<string>, kind: string, p: string)
    ensures p in ScopeOf(DemandsOf(plat, names, scope), kind) <==> Names(plat, names, kind) && p in scope
  {
    if names != [] {
      var front, last := names[..|names| - 1], names[|names| - 1];
      assert DemandsOf(plat, names, scope)[..|names| - 1] == DemandsOf(plat, front, scope);
      ScopeOfNames(plat, front, scope, kind, p);
      assert names == front + [last];
    }
  }

  lemma ScopesSnoc(plat: Platform, front: seq<Rule>, last: Rule, paths: seq<string>, kind: string, p: string)
    ensures Scopes(plat, front + [last], paths, kind, p) <==>
            || Scopes(plat, front, paths, kind, p)
            || (Applies(plat, last, paths) && Names(plat, last.require, kind) && p in last.paths)
  {
  }

  lemma {:induction false} ScopeOfRules(plat: Platform, rules: seq<Rule>, paths: seq<string>, kind: string, p: string)
    ensures p in ScopeOf(RuleDemands(plat, rules, paths), kind) <==> Scopes(plat, rules, paths, kind, p)
  {
    if rules != [] {
      var front, last := rules[..|rules| - 1], rules[|rules| - 1];
      ScopeOfRules(plat, front, paths, kind, p);
      ScopeOfConcat(RuleDemands(plat, front, paths), DemandsOfRule(plat, last, paths), kind);
      ScopeOfNames(plat, last.require, last.paths, kind, p);
      AppliesExactly(plat, last, paths);
      ScopesSnoc(plat, front, last, paths, kind, p);
      assert rules == front + [last];
    }
  }

  lemma ScopeOfDemands(plat: Platform, cc: ChangeControl, paths: seq<string>, kind: string, p: string)
    ensures p in ScopeOf(Demands(plat, cc, paths), kind) <==> Scopes(plat, cc.rules, paths, kind, p)
  {
    ScopeOfConcat(DemandsOf(plat, Defaults(cc), []), RuleDemands(plat, cc.rules, paths), kind);
    ScopeOfNames(plat, Defaults(cc), [], kind, p);
    ScopeOfRules(plat, cc.rules, paths, kind, p);
  }

  lemma SpecScope(plat: Platform, kind: string, scope: seq<string>)
    ensures SpecFor(plat, kind, scope).scope == scope
  {
  }

  /** A specification is scoped to exactly the paths of the rules that ask for it; defaults add none. */
  lemma ScopesAreExact(plat: Platform, cc: ChangeControl, paths: seq<string>, i: nat, p: string)
    requires i < |Resolve(plat, cc, paths)|
    ensures var s := Resolve(plat, cc, paths)[i];
            p in s.scope <==> Scopes(plat, cc.rules, paths, s.kind, p)
  {
    var ds := Demands(plat, cc, paths);
    var kind := Kinds(ds)[i];
    SpecOfKind(plat, kind, ScopeOf(ds, kind));
    SpecScope(plat, kind, ScopeOf(ds, kind));
    ScopeOfDemands(plat, cc, paths, kind, p);
  }

  /** Four types come with a command, with exit code 0 expected; all others are proved by evidence alone. */
  lemma CommandsExactly(plat: Platform, cc: ChangeControl, paths: seq<string>, i: nat)
    requires i < |Resolve(plat, cc, paths)|
    ensures var s := Resolve(plat, cc, paths)[i];
            && s.expectedExitCode == 0
            && s.command == (if s.kind == "unit_tests" then "go test ./..."
                             else if s.kind == "race_detector" then "go test -race ./..."
                             else if s.kind == "build" then "go build ./..."
                             else if s.kind == "lint" then "go vet ./..."
                             else "")
  {
    var kind := Kinds(Demands(plat, cc, paths))[i];
    SpecOfKind(plat, kind, ScopeOf(Demands(plat, cc, paths), kind));
  }

  /** Different spellings of a type, after trimming and with dashes as underscores, are one type. */
  lemma SpellingsExactly(plat: Platform, name: string)
    ensures var spelled := ReplaceAll(plat.lowerTrim(name), '-', '_');
            var kind := NormalizeObligationType(plat, name);
            && (kind == "unit_tests" <==> spelled in {"unit_test", "unit_tests", "unittest", "unittests"})
            && (kind == "race_detector" <==> spelled in {"race", "race_detector", "race_detect"})
            && (kind == "build" <==> spelled in {"build", "compile"})
            && (kind == "lint" <==> spelled in {"lint", "vet"})
            && (kind == "independent_review" <==> spelled in {"independent_review", "peer_review", "review"})
            && (kind == "security_review" <==>
                spelled in {"security_review", "security_scan", "security", "security_audit"})
            && (kind == "architecture_review" <==> spelled in {"architecture_review", "architecture"})
            && (kind == spelled || kind in {"unit_tests", "race_detector", "build", "lint", "independent_review",
                                            "security_review", "architecture_review"})
  {
  }
}
