/**
 * The cost cap that a reservation hands out (`maxCostUSD` in engine.go): what spending up to it does to the cost limit.
 * The cap is computed before the reservation's own estimate is charged, and nothing lowers it afterwards.
 */
module BudgetCaps {
  import opened Text
  import opened BudgetLedger
  import opened BudgetRuns

  const FINE := Faults(false, false)

  /** The budget a reservation on `id` finds, with the defaults applied. */
  function Granting(d: Defaults, l: Ledger, id: string): Budget
    requires Find(l, id).Some?
  {
    ReserveDefaults(d, Find(l, id).value)
  }

  /** A reservation on `id` is checked against a cost limit. */
  predicate Capped(d: Defaults, l: Ledger, id: string) {
    id != "" && Find(l, id).Some? && Granting(d, l, id).known && Granting(d, l, id).maxCost > 0
  }

  predicate HasLimit(l: Ledger, id: string, maxCost: int) {
    Find(l, id).Some? && Find(l, id).value.known && Find(l, id).value.maxCost == maxCost
  }

  /** The cap is what the limit leaves of what was used before, and covers the estimate. */
  lemma CapOfGrant(d: Defaults, l: Ledger, id: string, estIn: nat, reqOut: int, faults: Faults)
    requires Capped(d, l, id) && Reserve(d, l, id, estIn, reqOut, faults).1.Ok?
    ensures var (after, g) := Reserve(d, l, id, estIn, reqOut, faults);
            var b := Granting(d, l, id);
            && g.value.sessionId == id && g.value.maxCostUsd == b.maxCost - b.usedCost >= g.value.estCost > 0
            && HasLimit(after, id, b.maxCost)
            && Find(after, id).value.usedCost == b.usedCost + g.value.estCost
            && (forall other :: other != id ==> Find(after, other) == Find(l, other))
  {
    var b := Granting(d, l, id);
    var r := Grant(b, id, estIn, Requested(reqOut)).value;
    GrantFits(b, id, estIn, Requested(reqOut));
    forall other
      ensures Find(Put(l, id, Charge(b, r.estIn, r.estOut, r.estCost)), other) ==
              if other == id then Some(Charge(b, r.estIn, r.estOut, r.estCost)) else Find(l, other)
    {
      FindPut(l, id, Charge(b, r.estIn, r.estOut, r.estCost), other);
    }
  }

  /**
   * One commit, at whatever later ledger with the same limit: spending exactly the cap overruns the limit if and only
   * if more has been used by then than right after the grant.
   */
  lemma SpendingTheCapOverrunsExactly(d: Defaults, l: Ledger, id: string, estIn: nat, reqOut: int, faults: Faults,
                                      now: Ledger, input: int, output: int)
    requires Capped(d, l, id) && Reserve(d, l, id, estIn, reqOut, faults).1.Ok?
    requires HasLimit(now, id, Granting(d, l, id).maxCost)
    ensures var r := Reserve(d, l, id, estIn, reqOut, faults).1.value;
            var c := Commit(d, now, r, Usage(input, output, r.maxCostUsd), FINE);
            var b := Granting(d, l, id);
            && c.persisted && HasLimit(c.ledger, id, b.maxCost)
            && (Find(c.ledger, id).value.usedCost > b.maxCost <==>
                Find(now, id).value.usedCost > b.usedCost + r.estCost)
            && (Find(c.ledger, id).value.usedCost > b.maxCost ==> c.error.Some? && c.error.value.Exceeded?)
  {
    CapOfGrant(d, l, id, estIn, reqOut, faults);
    var r := Reserve(d, l, id, estIn, reqOut, faults).1.value;
    var after := Charge(Find(now, id).value, input - r.estIn, output - r.estOut, r.maxCostUsd - r.estCost);
    FindPut(now, id, after, id);
  }

  // ---------------------------------------------------------------- over runs

  lemma PutKeepsLimit(l: Ledger, other: string, b: Budget, id: string, maxCost: int)
    requires HasLimit(l, id, maxCost) && Find(l, other).Some?
    requires other == id ==> b.known && b.maxCost == maxCost
    ensures HasLimit(Put(l, other, b), id, maxCost)
  {
    FindPut(l, other, b, id);
  }

  /** No operation changes the limit of a budget that is tracked. */
  lemma StepKeepsLimit(d: Defaults, s: System, op: Op, id: string, maxCost: int)
    requires HasLimit(s.ledger, id, maxCost)
    ensures HasLimit(Step(d, s, op).ledger, id, maxCost)
  {
    match op
    case OpReserve(other, estIn, reqOut, faults) =>
      if Reserve(d, s.ledger, other, estIn, reqOut, faults).0 != s.ledger {
        var b := Granting(d, s.ledger, other);
        var r := Grant(b, other, estIn, Requested(reqOut)).value;
        PutKeepsLimit(s.ledger, other, Charge(b, r.estIn, r.estOut, r.estCost), id, maxCost);
      }
    case OpFail(_) =>
    case OpCommit(k, input, output, cost, faults) =>
      if InPhase(s, k, Running)
         && Commit(d, s.ledger, s.invocations[k].res, Usage(input, output, cost), faults).persisted
      {
        var r := s.invocations[k].res;
        var b := CommitDefaults(d, Find(s.ledger, r.sessionId).value);
        var after := Charge(b, input - r.estIn, output - r.estOut, cost - r.estCost);
        PutKeepsLimit(s.ledger, r.sessionId, after, id, maxCost);
      }
    case OpRollback(k, faults) =>
      if InPhase(s, k, Unwinding) && Rollback(s.ledger, s.invocations[k].res, faults).persisted {
        var r := s.invocations[k].res;
        var after := Charge(Find(s.ledger, r.sessionId).value, -r.estIn, -r.estOut, -r.estCost);
        PutKeepsLimit(s.ledger, r.sessionId, after, id, maxCost);
      }
  }

  /** An invocation that is still running is as it was when it was granted. */
  lemma StepKeepsRunning(d: Defaults, s: System, op: Op, k: nat)
    requires k < |s.invocations|
    ensures k < |Step(d, s, op).invocations|
    ensures InPhase(Step(d, s, op), k, Running) ==> Step(d, s, op).invocations[k] == s.invocations[k]
  {
  }

  lemma {:induction false} RunFromGrant(d: Defaults, start: Ledger, granted: seq<Op>, between: seq<Op>, k: nat,
                                        id: string, maxCost: int)
    requires k < |Run(d, start, granted).invocations| && HasLimit(Run(d, start, granted).ledger, id, maxCost)
    ensures var s, later := Run(d, start, granted), Run(d, start, granted + between);
            && k < |later.invocations| && HasLimit(later.ledger, id, maxCost)
            && (InPhase(later, k, Running) ==> later.invocations[k] == s.invocations[k])
  {
    if between == [] {
      assert granted + between == granted;
    } else {
      var front, op := between[..|between| - 1], between[|between| - 1];
      RunFromGrant(d, start, granted, front, k, id, maxCost);
      assert (granted + between)[..|granted + between| - 1] == granted + front;
      StepKeepsLimit(d, Run(d, start, granted + front), op, id, maxCost);
      StepKeepsRunning(d, Run(d, start, granted + front), op, k);
    }
  }

  /** What all invocations but the k-th hold and have spent of the cost of budget `id`. */
  function OthersCost(s: System, id: string, k: nat): int
    requires k < |s.invocations|
  {
    Shares(s.invocations, id).cost - Share(s.invocations[k], id).cost
  }

  /**
   * Over any run: an invocation that spends exactly its cap leaves the cost above the limit if and only if the other
   * invocations hold and have spent more when it commits than when it was granted.
   */
  lemma CapKeepsCeilingExactly(d: Defaults, start: Ledger, before: seq<Op>, id: string, estIn: nat, reqOut: int,
                               faults: Faults, between: seq<Op>, input: nat, output: nat)
    requires var s := Run(d, start, before);
             && Find(start, id).Some? && Capped(d, s.ledger, id)
             && Reserve(d, s.ledger, id, estIn, reqOut, faults).1.Ok?
             && var later := Run(d, start, before + [OpReserve(id, estIn, reqOut, faults)] + between);
             InPhase(later, |s.invocations|, Running)
    ensures var s := Run(d, start, before);
            var k, b := |s.invocations|, Granting(d, s.ledger, id);
            var later := Run(d, start, before + [OpReserve(id, estIn, reqOut, faults)] + between);
            var cap := later.invocations[k].res.maxCostUsd;
            && cap == b.maxCost - b.usedCost >= 0
            && var after := Step(d, later, OpCommit(k, input, output, cap, FINE));
            && HasLimit(after.ledger, id, b.maxCost)
            && (Find(after.ledger, id).value.usedCost > b.maxCost <==>
                OthersCost(later, id, k) > Shares(s.invocations, id).cost)
  {
    var s, op := Run(d, start, before), OpReserve(id, estIn, reqOut, faults);
    var k, b, granted := |s.invocations|, Granting(d, s.ledger, id), before + [op];
    assert granted[..|granted| - 1] == before;
    CapOfGrant(d, s.ledger, id, estIn, reqOut, faults);
    RunFromGrant(d, start, granted, between, k, id, b.maxCost);
    var later := Run(d, start, granted + between);
    LedgerIsConserved(d, start, before, id);
    LedgerIsConserved(d, start, granted + between, id);
    SpendingTheCapOverrunsExactly(d, s.ledger, id, estIn, reqOut, faults, later.ledger, input, output);
  }

  // ---------------------------------------------------------------- two invocations

  /**
   * Two invocations that reserve one after the other always end above the limit if each spends its cap, for the second
   * estimate is charged between the first grant and the first commit.
   */
  lemma CostCapsAloneBreakTheCeiling(d: Defaults, l: Ledger, id: string, in1: nat, out1: int, in2: nat, out2: int)
    requires Capped(d, l, id) && Reserve(d, l, id, in1, out1, FINE).1.Ok?
    requires Reserve(d, Reserve(d, l, id, in1, out1, FINE).0, id, in2, out2, FINE).1.Ok?
    ensures var (l1, g1) := Reserve(d, l, id, in1, out1, FINE);
            var (l2, g2) := Reserve(d, l1, id, in2, out2, FINE);
            var c1 := Commit(d, l2, g1.value, Usage(g1.value.estIn, g1.value.estOut, g1.value.maxCostUsd), FINE);
            var c2 := Commit(d, c1.ledger, g2.value, Usage(g2.value.estIn, g2.value.estOut, g2.value.maxCostUsd), FINE);
            var maxCost := Granting(d, l, id).maxCost;
            && Find(c1.ledger, id).Some? && Find(c1.ledger, id).value.usedCost > maxCost
            && Find(c2.ledger, id).Some? && Find(c2.ledger, id).value.usedCost > maxCost
  {
    var (l1, g1) := Reserve(d, l, id, in1, out1, FINE);
    CapOfGrant(d, l, id, in1, out1, FINE);
    var (l2, g2) := Reserve(d, l1, id, in2, out2, FINE);
    CapOfGrant(d, l1, id, in2, out2, FINE);
    SpendingTheCapOverrunsExactly(d, l, id, in1, out1, FINE, l2, g1.value.estIn, g1.value.estOut);
    var c1 := Commit(d, l2, g1.value, Usage(g1.value.estIn, g1.value.estOut, g1.value.maxCostUsd), FINE);
    SpendingTheCapOverrunsExactly(d, l1, id, in2, out2, FINE, c1.ledger, g2.value.estIn, g2.value.estOut);
  }

  // ---------------------------------------------------------------- runs from a configured limit

  /** A configuration with nothing but a cost limit. */
  function CostLimit(m: int): Defaults {
    Defaults(false, 0, 0, 0, m)
  }

  /** A ledger with one session, whose budget is not tracked yet. */
  function NewSession(id: string): Ledger {
    Ledger(map[id := Budget(false, false, 0, 0, 0, 0, 0, 0, 0, 0)], map[])
  }

  function Tracked(id: string, m: int, usedIn: int, usedOut: int, usedCost: int): Ledger {
    Ledger(map[id := Budget(true, false, 0, 0, 0, m, usedIn, usedOut, usedIn + usedOut, usedCost)], map[])
  }

  function Granted(id: string, estIn: int, estOut: int, cap: int): Invocation {
    Invocation(id, Reservation(id, estIn, estOut, CostOf(estIn, estOut), estOut, cap, false), Running, NO_USAGE)
  }

  lemma FirstGrant(id: string, m: int, estIn: nat, estOut: nat)
    requires id != "" && estOut > 0 && CostOf(estIn, estOut) <= m
    ensures Step(CostLimit(m), System(NewSession(id), []), OpReserve(id, estIn, estOut, FINE)) ==
            System(Tracked(id, m, estIn, estOut, CostOf(estIn, estOut)), [Granted(id, estIn, estOut, m)])
  {
  }

  lemma NextGrant(id: string, m: int, estIn: nat, estOut: nat, usedIn: int, usedOut: int, usedCost: int,
                  inv: Invocation)
    requires id != "" && m > 0 && estOut > 0 && usedCost + CostOf(estIn, estOut) <= m
    ensures Step(CostLimit(m), System(Tracked(id, m, usedIn, usedOut, usedCost), [inv]),
                 OpReserve(id, estIn, estOut, FINE)) ==
            System(Tracked(id, m, usedIn + estIn, usedOut + estOut, usedCost + CostOf(estIn, estOut)),
                   [inv, Granted(id, estIn, estOut, m - usedCost)])
  {
  }

  /** Committing the k-th of two grants with all its tokens and exactly its cap. */
  lemma CommitsCap(id: string, m: int, s: System, k: nat, estIn: nat, estOut: nat, cap: nat,
                   usedIn: int, usedOut: int, usedCost: int)
    requires id != "" && |s.invocations| == 2 && k < 2 && s.invocations[k] == Granted(id, estIn, estOut, cap)
    requires s.ledger == Tracked(id, m, usedIn, usedOut, usedCost)
    ensures var after := Step(CostLimit(m), s, OpCommit(k, estIn, estOut, cap, FINE));
            && after.ledger == Tracked(id, m, usedIn, usedOut, usedCost - CostOf(estIn, estOut) + cap)
            && |after.invocations| == 2 && after.invocations[1 - k] == s.invocations[1 - k]
  {
  }

  /** Two invocations reserve, and commit with all their tokens and exactly their cost caps. */
  function SpendingTheCaps(id: string, m: nat, estIn: nat, estOut: nat): seq<Op>
    requires CostOf(estIn, estOut) <= m
  {
    [OpReserve(id, estIn, estOut, FINE), OpReserve(id, estIn, estOut, FINE),
     OpCommit(0, estIn, estOut, m, FINE), OpCommit(1, estIn, estOut, m - CostOf(estIn, estOut), FINE)]
  }

  lemma AfterTwoGrants(id: string, m: nat, estIn: nat, estOut: nat)
    requires id != "" && estOut > 0 && 2 * CostOf(estIn, estOut) <= m
    ensures var cost := CostOf(estIn, estOut);
            Run(CostLimit(m), NewSession(id), SpendingTheCaps(id, m, estIn, estOut)[..2]) ==
            System(Tracked(id, m, estIn + estIn, estOut + estOut, cost + cost),
                   [Granted(id, estIn, estOut, m), Granted(id, estIn, estOut, m - cost)])
  {
    var ops := SpendingTheCaps(id, m, estIn, estOut);
    assert ops[..2][..1] == [ops[0]] && [ops[0]][..0] == [];
    FirstGrant(id, m, estIn, estOut);
    assert Run(CostLimit(m), NewSession(id), [ops[0]]) ==
           Step(CostLimit(m), Run(CostLimit(m), NewSession(id), []), ops[0]);
    NextGrant(id, m, estIn, estOut, estIn, estOut, CostOf(estIn, estOut), Granted(id, estIn, estOut, m));
  }

  /**
   * Whole runs from a configured cost limit and a new session: both invocations keep to their tokens and to their cost
   * caps, and what is spent in the end is twice the limit less one estimate. With a limit of 0.10 dollars and 100
   * tokens each way, the caps are 0.10 and 0.0982 dollars, and 0.1982 dollars are spent.
   */
  lemma CeilingIsBrokenWithinTheCaps(id: string, m: nat, estIn: nat, estOut: nat)
    requires id != "" && estOut > 0 && 2 * CostOf(estIn, estOut) <= m
    ensures var cost := CostOf(estIn, estOut);
            var spent := Run(CostLimit(m), NewSession(id), SpendingTheCaps(id, m, estIn, estOut)).ledger;
            spent == Tracked(id, m, 2 * estIn, 2 * estOut, 2 * m - cost) && 2 * m - cost > m
  {
    var d, l, ops, cost := CostLimit(m), NewSession(id), SpendingTheCaps(id, m, estIn, estOut), CostOf(estIn, estOut);
    AfterTwoGrants(id, m, estIn, estOut);
    var two := Run(d, l, ops[..2]);
    assert ops[..3][..2] == ops[..2] && ops[..4] == ops && ops[..4][..3] == ops[..3];
    CommitsCap(id, m, two, 0, estIn, estOut, m, estIn + estIn, estOut + estOut, cost + cost);
    var three := Run(d, l, ops[..3]);
    assert three == Step(d, two, ops[2]);
    CommitsCap(id, m, three, 1, estIn, estOut, m - cost, estIn + estIn, estOut + estOut, cost + m);
  }
}
