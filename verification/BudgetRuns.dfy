/** Many invocations on one ledger, in any interleaving: Ask, executeSingleReview and Converse of engine.go. */
module BudgetRuns {
  import opened Text
  import opened BudgetLedger

  /** Between reserve and commit; after an error, with the deferred rollback to come; after the function returned. */
  datatype Phase = Running | Unwinding | Returned

  /** `spent` is what the ledger was charged when the commit was written; `home` is the id reserved on. */
  datatype Invocation = Invocation(home: string, res: Reservation, phase: Phase, spent: Usage)

  datatype System = System(ledger: Ledger, invocations: seq<Invocation>)

  datatype Op =
    | OpReserve(id: string, estIn: nat, reqOut: int, faults: Faults)
    | OpFail(k: nat)
    | OpCommit(k: nat, input: nat, output: nat, cost: nat, faults: Faults)
    | OpRollback(k: nat, faults: Faults)

  const NO_USAGE := Usage(0, 0, 0)

  predicate InPhase(s: System, k: nat, phase: Phase) {
    k < |s.invocations| && s.invocations[k].phase == phase
  }

  /** One critical section (or failure) of one invocation; anything out of turn does not happen. */
  function Step(d: Defaults, s: System, op: Op): System {
    match op
    case OpReserve(id, estIn, reqOut, faults) =>
      (match Reserve(d, s.ledger, id, estIn, reqOut, faults)
       case (l, Err(_)) => System(l, s.invocations)
       case (l, Ok(r)) => System(l, s.invocations + [Invocation(id, r, Running, NO_USAGE)]))
    case OpFail(k) =>
      if !InPhase(s, k, Running) then s
      else s.(invocations := s.invocations[k := s.invocations[k].(phase := Unwinding)])
    case OpCommit(k, input, output, cost, faults) =>
      if !InPhase(s, k, Running) then s
      else
        var inv := s.invocations[k];
        var c := Commit(d, s.ledger, inv.res, Usage(input, output, cost), faults);
        System(c.ledger,
               s.invocations[k := Invocation(inv.home, c.res, if c.error.None? then Returned else Unwinding,
                                             if c.persisted then Usage(input, output, cost) else inv.spent)])
    case OpRollback(k, faults) =>
      if !InPhase(s, k, Unwinding) then s
      else
        var inv := s.invocations[k];
        var c := Rollback(s.ledger, inv.res, faults);
        System(c.ledger, s.invocations[k := inv.(res := c.res, phase := Returned)])
  }

  function Run(d: Defaults, start: Ledger, ops: seq<Op>): System {
    if ops == [] then System(start, []) else Step(d, Run(d, start, ops[..|ops| - 1]), ops[|ops| - 1])
  }

  // ---------------------------------------------------------------- what the invocations account for

  /** What an invocation holds of budget `id`: its undischarged estimate plus its settled usage. */
  function Share(inv: Invocation, id: string): Usage {
    if inv.home != id then NO_USAGE
    else Usage(inv.res.estIn + inv.spent.input, inv.res.estOut + inv.spent.output, inv.res.estCost + inv.spent.cost)
  }

  function Plus(a: Usage, b: Usage): Usage {
    Usage(a.input + b.input, a.output + b.output, a.cost + b.cost)
  }

  function Minus(a: Usage, b: Usage): Usage {
    Usage(a.input - b.input, a.output - b.output, a.cost - b.cost)
  }

  /** The shares of the first `n` invocations, added up. */
  function SharesUpTo(invs: seq<Invocation>, id: string, n: nat): Usage
    requires n <= |invs|
  {
    if n == 0 then NO_USAGE else Plus(SharesUpTo(invs, id, n - 1), Share(invs[n - 1], id))
  }

  function Shares(invs: seq<Invocation>, id: string): Usage {
    SharesUpTo(invs, id, |invs|)
  }

  lemma {:induction false} SharesOfPrefix(invs: seq<Invocation>, more: seq<Invocation>, id: string, n: nat)
    requires n <= |invs|
    ensures SharesUpTo(invs + more, id, n) == SharesUpTo(invs, id, n)
  {
    if n > 0 {
      SharesOfPrefix(invs, more, id, n - 1);
    }
  }

  lemma {:induction false} SharesUpdate(invs: seq<Invocation>, k: nat, inv: Invocation, id: string, n: nat)
    requires k < |invs| && n <= |invs|
    ensures SharesUpTo(invs[k := inv], id, n)
         == if n <= k then SharesUpTo(invs, id, n)
            else Plus(Minus(SharesUpTo(invs, id, n), Share(invs[k], id)), Share(inv, id))
  {
    if n > 0 {
      SharesUpdate(invs, k, inv, id, n - 1);
    }
  }

  function Used(b: Budget): Usage {
    Usage(b.usedIn, b.usedOut, b.usedCost)
  }

  /** A reservation belongs to the id it was made on until it is discharged, and then it holds nothing. */
  ghost predicate WellHeld(inv: Invocation, l: Ledger) {
    && (inv.res.sessionId == inv.home || inv.res.sessionId == "")
    && (inv.res.sessionId == "" || Find(l, inv.home).None? || !Find(l, inv.home).value.known ==>
          inv.res.estIn == 0 && inv.res.estOut == 0 && inv.res.estCost == 0)
    && (inv.res.sessionId != "" ==> inv.spent == NO_USAGE)
    && 0 <= inv.res.estIn && 0 <= inv.res.estOut && 0 <= inv.res.estCost
    && 0 <= inv.spent.input && 0 <= inv.spent.output && 0 <= inv.spent.cost
  }

  ghost predicate Held(s: System) {
    forall k :: 0 <= k < |s.invocations| ==> WellHeld(s.invocations[k], s.ledger)
  }

  /** The budgets of two ledgers have the same ids, and tracking never stops. */
  ghost predicate StaysKnown(before: Ledger, after: Ledger, id: string) {
    && (Find(after, id).Some? <==> Find(before, id).Some?)
    && (Find(before, id).Some? && Find(before, id).value.known ==> Find(after, id).value.known)
  }

  lemma PutStaysKnown(l: Ledger, id: string, b: Budget)
    requires Find(l, id).Some? && (Find(l, id).value.known ==> b.known)
    ensures forall other :: StaysKnown(l, Put(l, id, b), other)
  {
  }

  lemma HeldStays(inv: Invocation, before: Ledger, after: Ledger)
    requires WellHeld(inv, before) && StaysKnown(before, after, inv.home)
    ensures WellHeld(inv, after)
  {
  }

  // ---------------------------------------------------------------- one step, seen by one invocation

  /** A successful reservation: what it holds is what the ledger was charged. */
  lemma ReserveCharges(d: Defaults, l: Ledger, id: string, estIn: nat, reqOut: int, faults: Faults)
    requires Reserve(d, l, id, estIn, reqOut, faults).1.Ok?
    ensures var (after, r) := Reserve(d, l, id, estIn, reqOut, faults);
            && WellHeld(Invocation(id, r.value, Running, NO_USAGE), after)
            && (forall other :: StaysKnown(l, after, other))
            && (forall other :: Find(l, other).Some? ==>
                  Find(after, other).Some?
                  && Used(Find(after, other).value)
                    == Plus(Used(Find(l, other).value), Share(Invocation(id, r.value, Running, NO_USAGE), other)))
  {
    if id != "" && Find(l, id).Some? {
      var b := ReserveDefaults(d, Find(l, id).value);
      if b.known {
        var r := Grant(b, id, estIn, Requested(reqOut)).value;
        GrantFits(b, id, estIn, Requested(reqOut));
        var charged := Charge(b, r.estIn, r.estOut, r.estCost);
        PutStaysKnown(l, id, charged);
        forall other
          ensures Find(Put(l, id, charged), other) == if other == id then Some(charged) else Find(l, other)
        {
          FindPut(l, id, charged, other);
        }
      }
    }
  }

  /** What settling a reservation takes from its share, the ledger gets back, to the unit. */
  ghost predicate Balanced(l: Ledger, inv: Invocation, after: Ledger, inv': Invocation) {
    && inv'.home == inv.home
    && WellHeld(inv', after)
    && (forall id :: StaysKnown(l, after, id))
    && (forall id :: Find(l, id).Some? ==>
          Find(after, id).Some?
          && Used(Find(after, id).value) == Plus(Minus(Used(Find(l, id).value), Share(inv, id)), Share(inv', id)))
  }

  lemma PutBalances(l: Ledger, inv: Invocation, b: Budget, inv': Invocation)
    requires Find(l, inv.home).Some? && inv'.home == inv.home && WellHeld(inv', Put(l, inv.home, b))
    requires Find(l, inv.home).value.known ==> b.known
    requires Used(b)
          == Plus(Minus(Used(Find(l, inv.home).value), Share(inv, inv.home)), Share(inv', inv.home))
    ensures Balanced(l, inv, Put(l, inv.home, b), inv')
  {
  }

  lemma CommitBalances(d: Defaults, l: Ledger, inv: Invocation, input: nat, output: nat, cost: nat, faults: Faults,
                       phase: Phase)
    requires WellHeld(inv, l)
    ensures var c := Commit(d, l, inv.res, Usage(input, output, cost), faults);
            Balanced(l, inv, c.ledger,
                     Invocation(inv.home, c.res, phase, if c.persisted then Usage(input, output, cost) else inv.spent))
  {
    if Commit(d, l, inv.res, Usage(input, output, cost), faults).persisted {
      WrittenCommitBalances(d, l, inv, input, output, cost, faults, phase);
    }
  }

  lemma WrittenCommitBalances(d: Defaults, l: Ledger, inv: Invocation, input: nat, output: nat, cost: nat,
                              faults: Faults, phase: Phase)
    requires WellHeld(inv, l) && Commit(d, l, inv.res, Usage(input, output, cost), faults).persisted
    ensures var c := Commit(d, l, inv.res, Usage(input, output, cost), faults);
            Balanced(l, inv, c.ledger, Invocation(inv.home, c.res, phase, Usage(input, output, cost)))
  {
    var b := CommitDefaults(d, Find(l, inv.home).value);
    var after := Charge(b, input - inv.res.estIn, output - inv.res.estOut, cost - inv.res.estCost);
    var inv' := Invocation(inv.home, Discharged(inv.res), phase, Usage(input, output, cost));
    FindPut(l, inv.home, after, inv.home);
    PutBalances(l, inv, after, inv');
  }

  lemma RollbackBalances(l: Ledger, inv: Invocation, faults: Faults, phase: Phase)
    requires WellHeld(inv, l)
    ensures var c := Rollback(l, inv.res, faults);
            Balanced(l, inv, c.ledger, inv.(res := c.res, phase := phase))
  {
  }

  // ---------------------------------------------------------------- conservation

  /** Budget `id`: what was used at the start, plus the share of every invocation. */
  ghost predicate ConservedFor(start: Ledger, s: System, id: string) {
    && (Find(s.ledger, id).Some? <==> Find(start, id).Some?)
    && (Find(start, id).Some? ==>
          Used(Find(s.ledger, id).value) == Plus(Used(Find(start, id).value), Shares(s.invocations, id)))
  }

  /** The other invocations still hold what they held. */
  lemma HeldBesides(s: System, after: Ledger, k: int)
    requires Held(s) && forall id :: StaysKnown(s.ledger, after, id)
    ensures forall j :: 0 <= j < |s.invocations| && j != k ==> WellHeld(s.invocations[j], after)
  {
    forall j | 0 <= j < |s.invocations| && j != k
      ensures WellHeld(s.invocations[j], after)
    {
      assert StaysKnown(s.ledger, after, s.invocations[j].home);
      HeldStays(s.invocations[j], s.ledger, after);
    }
  }

  lemma BalancedConserves(start: Ledger, s: System, k: nat, after: Ledger, inv: Invocation, id: string)
    requires Held(s) && k < |s.invocations| && Balanced(s.ledger, s.invocations[k], after, inv)
    ensures Held(System(after, s.invocations[k := inv]))
    ensures ConservedFor(start, s, id) ==> ConservedFor(start, System(after, s.invocations[k := inv]), id)
  {
    SharesUpdate(s.invocations, k, inv, id, |s.invocations|);
    assert StaysKnown(s.ledger, after, id);
    HeldBesides(s, after, k);
  }

  lemma ReserveConserves(d: Defaults, start: Ledger, s: System, op: Op, id: string)
    requires Held(s) && op.OpReserve?
    ensures Held(Step(d, s, op))
    ensures ConservedFor(start, s, id) ==> ConservedFor(start, Step(d, s, op), id)
  {
    var (after, r) := Reserve(d, s.ledger, op.id, op.estIn, op.reqOut, op.faults);
    if r.Ok? {
      ReserveCharges(d, s.ledger, op.id, op.estIn, op.reqOut, op.faults);
      AddedConserves(start, s, after, Invocation(op.id, r.value, Running, NO_USAGE), id);
    }
  }

  lemma AddedConserves(start: Ledger, s: System, after: Ledger, inv: Invocation, id: string)
    requires Held(s) && WellHeld(inv, after) && forall other :: StaysKnown(s.ledger, after, other)
    requires Find(s.ledger, id).Some? ==>
      Find(after, id).Some? && Used(Find(after, id).value) == Plus(Used(Find(s.ledger, id).value), Share(inv, id))
    ensures Held(System(after, s.invocations + [inv]))
    ensures ConservedFor(start, s, id) ==> ConservedFor(start, System(after, s.invocations + [inv]), id)
  {
    SharesOfPrefix(s.invocations, [inv], id, |s.invocations|);
    HeldBesides(s, after, -1);
    assert StaysKnown(s.ledger, after, id);
  }

  lemma StepConserves(d: Defaults, start: Ledger, s: System, op: Op, id: string)
    requires Held(s)
    ensures Held(Step(d, s, op))
    ensures ConservedFor(start, s, id) ==> ConservedFor(start, Step(d, s, op), id)
  {
    var after := Step(d, s, op);
    match op
    case OpReserve(_, _, _, _) => ReserveConserves(d, start, s, op, id);
    case OpFail(k) =>
      if InPhase(s, k, Running) {
        BalancedConserves(start, s, k, s.ledger, after.invocations[k], id);
      }
    case OpCommit(k, input, output, cost, faults) =>
      if InPhase(s, k, Running) {
        CommitBalances(d, s.ledger, s.invocations[k], input, output, cost, faults, after.invocations[k].phase);
        BalancedConserves(start, s, k, after.ledger, after.invocations[k], id);
      }
    case OpRollback(k, faults) =>
      if InPhase(s, k, Unwinding) {
        RollbackBalances(s.ledger, s.invocations[k], faults, Returned);
        BalancedConserves(start, s, k, after.ledger, after.invocations[k], id);
      }
  }

  lemma {:induction false} RunHolds(d: Defaults, start: Ledger, ops: seq<Op>, id: string)
    ensures Held(Run(d, start, ops)) && ConservedFor(start, Run(d, start, ops), id)
  {
    if ops == [] {
    } else {
      RunHolds(d, start, ops[..|ops| - 1], id);
      StepConserves(d, start, Run(d, start, ops[..|ops| - 1]), ops[|ops| - 1], id);
    }
  }

  // ---------------------------------------------------------------- the total counter

  function Skew(b: Budget): int {
    b.usedTotal - b.usedIn - b.usedOut
  }

  lemma StepKeepsSkew(d: Defaults, s: System, op: Op, id: string)
    ensures var after := Step(d, s, op).ledger;
            (Find(after, id).Some? <==> Find(s.ledger, id).Some?)
            && (Find(s.ledger, id).Some? ==> Skew(Find(after, id).value) == Skew(Find(s.ledger, id).value))
  {
  }

  lemma {:induction false} RunKeepsSkew(d: Defaults, start: Ledger, ops: seq<Op>, id: string)
    ensures var after := Run(d, start, ops).ledger;
            (Find(after, id).Some? <==> Find(start, id).Some?)
            && (Find(start, id).Some? ==> Skew(Find(after, id).value) == Skew(Find(start, id).value))
  {
    if ops == [] {
    } else {
      RunKeepsSkew(d, start, ops[..|ops| - 1], id);
      StepKeepsSkew(d, Run(d, start, ops[..|ops| - 1]), ops[|ops| - 1], id);
    }
  }

  lemma {:induction false} SharesAreNotNegative(s: System, id: string, n: nat)
    requires Held(s) && n <= |s.invocations|
    ensures var u := SharesUpTo(s.invocations, id, n); 0 <= u.input && 0 <= u.output && 0 <= u.cost
  {
    if n > 0 {
      SharesAreNotNegative(s, id, n - 1);
      assert WellHeld(s.invocations[n - 1], s.ledger);
    }
  }

  /**
   * Conservation. Under any interleaving of reservations, failures, commits and rollbacks on any ids, with any store
   * accesses failing: every used counter is its starting value plus settled usage plus undischarged estimates, the
   * total counter stays the sum of input and output, and no counter turns negative.
   */
  lemma LedgerIsConserved(d: Defaults, start: Ledger, ops: seq<Op>, id: string)
    requires Find(start, id).Some?
    ensures var s := Run(d, start, ops);
            var b0 := Find(start, id).value;
            Find(s.ledger, id).Some?
            && var b := Find(s.ledger, id).value;
               && Used(b) == Plus(Used(b0), Shares(s.invocations, id))
               && (b0.usedTotal == b0.usedIn + b0.usedOut ==> b.usedTotal == b.usedIn + b.usedOut)
               && b0.usedIn <= b.usedIn && b0.usedOut <= b.usedOut && b0.usedCost <= b.usedCost
  {
    RunHolds(d, start, ops, id);
    RunKeepsSkew(d, start, ops, id);
    SharesAreNotNegative(Run(d, start, ops), id, |Run(d, start, ops).invocations|);
  }

  /**
   * No reservation is discharged twice. When `commitBudget` returns an error, the deferred rollback that follows, at
   * whatever later ledger, does nothing if the commit was written, and otherwise takes back exactly the estimate.
   */
  lemma DeferredRollback(d: Defaults, l: Ledger, r: Reservation, used: Usage, faults: Faults,
                         later: Ledger, faults': Faults)
    requires Commit(d, l, r, used, faults).error.Some?
    ensures var c := Commit(d, l, r, used, faults);
            var back := Rollback(later, c.res, faults');
            if c.persisted then back.ledger == later && back.error == None
            else c.ledger == l && c.res == r
                 && (back.persisted ==>
                       Find(back.ledger, r.sessionId)
                       == Some(Charge(Find(later, r.sessionId).value, -r.estIn, -r.estOut, -r.estCost)))
                 && (!back.persisted ==> back.ledger == later)
                 && (back.res.sessionId == "" <==> back.error == None)
  {
    var c := Commit(d, l, r, used, faults);
    if !c.persisted && Find(later, r.sessionId).Some? {
      FindPut(later, r.sessionId, Charge(Find(later, r.sessionId).value, -r.estIn, -r.estOut, -r.estCost), r.sessionId);
    }
  }

  // ---------------------------------------------------------------- the ceiling

  /** Every budget is within its limits, those the engine would apply to it included. */
  ghost predicate WithinLimits(d: Defaults, l: Ledger) {
    forall id :: Find(l, id).Some? ==> Overrun(ReserveDefaults(d, Find(l, id).value)) == None
  }

  /** The invocation used no more input, output and cost than it had reserved. */
  predicate Obedient(s: System, op: Op) {
    op.OpCommit? && InPhase(s, op.k, Running) ==>
      var r := s.invocations[op.k].res;
      op.input <= r.estIn && op.output <= r.estOut && op.cost <= r.estCost
  }

  predicate ObedientRun(d: Defaults, start: Ledger, ops: seq<Op>) {
    ops == []
    || (ObedientRun(d, start, ops[..|ops| - 1]) && Obedient(Run(d, start, ops[..|ops| - 1]), ops[|ops| - 1]))
  }

  lemma PutWithinLimits(d: Defaults, l: Ledger, id: string, b: Budget)
    requires WithinLimits(d, l) && Find(l, id).Some? && b.known && Overrun(b) == None
    ensures WithinLimits(d, Put(l, id, b))
  {
    forall other | Find(Put(l, id, b), other).Some?
      ensures Overrun(ReserveDefaults(d, Find(Put(l, id, b), other).value)) == None
    {
      FindPut(l, id, b, other);
    }
  }

  lemma SpendingLessFits(b: Budget, input: int, output: int, cost: int)
    requires Overrun(b) == None && input <= 0 && output <= 0 && cost <= 0
    ensures Overrun(Charge(b, input, output, cost)) == None
  {
  }

  lemma StepKeepsWithinLimits(d: Defaults, s: System, op: Op)
    requires WithinLimits(d, s.ledger) && Held(s) && Obedient(s, op)
    ensures WithinLimits(d, Step(d, s, op).ledger)
  {
    match op
    case OpReserve(id, estIn, reqOut, faults) =>
      var (after, r) := Reserve(d, s.ledger, id, estIn, reqOut, faults);
      if after != s.ledger {
        var b := ReserveDefaults(d, Find(s.ledger, id).value);
        var g := Grant(b, id, estIn, Requested(reqOut)).value;
        GrantFits(b, id, estIn, Requested(reqOut));
        PutWithinLimits(d, s.ledger, id, Charge(b, g.estIn, g.estOut, g.estCost));
      }
    case OpFail(_) =>
    case OpCommit(k, input, output, cost, faults) =>
      if InPhase(s, k, Running) {
        CommitWithinLimits(d, s.ledger, s.invocations[k], Usage(input, output, cost), faults);
      }
    case OpRollback(k, faults) =>
      if InPhase(s, k, Unwinding) {
        var inv := s.invocations[k];
        assert WellHeld(inv, s.ledger);
        if Rollback(s.ledger, inv.res, faults).persisted {
          var b := Find(s.ledger, inv.home).value;
          SpendingLessFits(b, -inv.res.estIn, -inv.res.estOut, -inv.res.estCost);
          PutWithinLimits(d, s.ledger, inv.home, Charge(b, -inv.res.estIn, -inv.res.estOut, -inv.res.estCost));
        }
      }
  }

  /** Staying within the reservation keeps the limits, and the commit reports no overrun. */
  lemma CommitWithinLimits(d: Defaults, l: Ledger, inv: Invocation, used: Usage, faults: Faults)
    requires WithinLimits(d, l) && WellHeld(inv, l)
    requires used.input <= inv.res.estIn && used.output <= inv.res.estOut && used.cost <= inv.res.estCost
    ensures var c := Commit(d, l, inv.res, used, faults);
            WithinLimits(d, c.ledger) && (c.error.Some? ==> !c.error.value.Exceeded?)
  {
    if Commit(d, l, inv.res, used, faults).persisted {
      var b := CommitDefaults(d, Find(l, inv.home).value);
      assert Overrun(b) == None;
      SpendingLessFits(b, used.input - inv.res.estIn, used.output - inv.res.estOut, used.cost - inv.res.estCost);
      PutWithinLimits(d, l, inv.home,
                      Charge(b, used.input - inv.res.estIn, used.output - inv.res.estOut, used.cost - inv.res.estCost));
    }
  }

  /**
   * The ceiling. If every invocation stays within its reservation, then in every reachable state every tracked
   * budget is at or below each of its configured maxima.
   */
  lemma {:induction false} CeilingHolds(d: Defaults, start: Ledger, ops: seq<Op>)
    requires WithinLimits(d, start) && ObedientRun(d, start, ops)
    ensures WithinLimits(d, Run(d, start, ops).ledger)
  {
    if ops == [] {
    } else {
      var before := ops[..|ops| - 1];
      CeilingHolds(d, start, before);
      RunHolds(d, start, before, "");
      StepKeepsWithinLimits(d, Run(d, start, before), ops[|ops| - 1]);
    }
  }
}
