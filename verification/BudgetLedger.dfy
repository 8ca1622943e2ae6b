/**
 * The budget ledger of internal/collaboration/engine.go: `reserveBudget`, `commitBudget`, `rollbackBudget`.
 * Costs are whole micro-dollars: 3 for an input token, 15 for an output token.
 */
module BudgetLedger {
  import opened Text

  datatype Budget = Budget(
    known: bool, strict: bool, maxIn: int, maxOut: int, maxTotal: int, maxCost: int,
    usedIn: int, usedOut: int, usedTotal: int, usedCost: int)

  /** The engine's configured limits, applied to budgets that are not tracked yet. */
  datatype Defaults = Defaults(strict: bool, maxIn: int, maxOut: int, maxTotal: int, maxCost: int)

  /** Budgets of sessions and of spaces; an id is looked up as a session first. */
  datatype Ledger = Ledger(sessions: map<string, Budget>, spaces: map<string, Budget>)

  datatype Reservation = Reservation(
    sessionId: string, estIn: int, estOut: int, estCost: int, maxTokens: int, maxCostUsd: int, strict: bool)

  datatype Usage = Usage(input: int, output: int, cost: int)

  /** Which of the two store accesses of an operation fail. */
  datatype Faults = Faults(lookup: bool, write: bool)

  datatype Metric = InputTokens | OutputTokens | TotalTokens | Cost

  datatype Error = LookupFailed | NotFound | WriteFailed | Exceeded(metric: Metric)

  const NO_RESERVATION := Reservation("", 0, 0, 0, 0, 0, false)

  const MIN_VIABLE_OUTPUT := 100

  // ---------------------------------------------------------------- the store

  function Find(l: Ledger, id: string): Option<Budget> {
    if id in l.sessions then Some(l.sessions[id])
    else if id in l.spaces then Some(l.spaces[id])
    else None
  }

  /** `UpdateBudget`: one transaction over the session row and the space row of this id. */
  function Put(l: Ledger, id: string, b: Budget): Ledger {
    Ledger(if id in l.sessions then l.sessions[id := b] else l.sessions,
           if id in l.spaces then l.spaces[id := b] else l.spaces)
  }

  lemma FindPut(l: Ledger, id: string, b: Budget, other: string)
    requires Find(l, id).Some?
    ensures Find(Put(l, id, b), other) == if other == id then Some(b) else Find(l, other)
  {
  }

  // ---------------------------------------------------------------- the arithmetic

  function CostOf(input: int, output: int): int {
    3 * input + 15 * output
  }

  predicate AnyLimit(d: Defaults) {
    d.maxCost > 0 || d.maxTotal > 0 || d.maxIn > 0 || d.maxOut > 0
  }

  function ReserveDefaults(d: Defaults, b: Budget): Budget {
    if !b.known && (AnyLimit(d) || d.strict)
    then b.(known := true, strict := d.strict, maxIn := d.maxIn, maxOut := d.maxOut, maxTotal := d.maxTotal,
            maxCost := d.maxCost)
    else b
  }

  /** On commit a strict ceiling alone does not start tracking, and is not copied. */
  function CommitDefaults(d: Defaults, b: Budget): Budget {
    if !b.known && AnyLimit(d)
    then b.(known := true, maxIn := d.maxIn, maxOut := d.maxOut, maxTotal := d.maxTotal, maxCost := d.maxCost)
    else b
  }

  function Charge(b: Budget, input: int, output: int, cost: int): Budget {
    b.(usedIn := b.usedIn + input, usedOut := b.usedOut + output,
       usedTotal := b.usedTotal + (input + output), usedCost := b.usedCost + cost)
  }

  function Requested(reqOut: int): int {
    if reqOut <= 0 then 1000 else reqOut
  }

  /** The output bound that fits the remaining output and total budgets, or the metric with no viable room. */
  function OutputBound(b: Budget, estIn: int, requested: int): Result<int, Metric> {
    var remOut := b.maxOut - b.usedOut;
    if b.maxOut > 0 && remOut < MIN_VIABLE_OUTPUT then Err(OutputTokens)
    else
      var target := if b.maxOut > 0 && remOut < requested then remOut else requested;
      var remTotal := b.maxTotal - b.usedTotal - estIn;
      if b.maxTotal > 0 && remTotal < MIN_VIABLE_OUTPUT then Err(TotalTokens)
      else Ok(if b.maxTotal > 0 && remTotal < target then remTotal else target)
  }

  /** The first limit that the used counters exceed. */
  function Overrun(b: Budget): Option<Metric> {
    if b.maxIn > 0 && b.usedIn > b.maxIn then Some(InputTokens)
    else if b.maxOut > 0 && b.usedOut > b.maxOut then Some(OutputTokens)
    else if b.maxTotal > 0 && b.usedTotal > b.maxTotal then Some(TotalTokens)
    else if b.maxCost > 0 && b.usedCost > b.maxCost then Some(Cost)
    else None
  }

  function Discharged(r: Reservation): Reservation {
    r.(sessionId := "", estIn := 0, estOut := 0, estCost := 0, maxTokens := 0, maxCostUsd := 0)
  }

  // ---------------------------------------------------------------- the three operations

  /** What a reservation asks of a tracked budget, if it fits. */
  function Grant(b: Budget, id: string, estIn: int, requested: int): Result<Reservation, Metric> {
    if b.maxIn > 0 && b.usedIn + estIn > b.maxIn then Err(InputTokens)
    else
      match OutputBound(b, estIn, requested)
      case Err(m) => Err(m)
      case Ok(target) =>
        var cost := CostOf(estIn, target);
        if b.maxCost > 0 && b.usedCost + cost > b.maxCost then Err(Cost)
        else Ok(Reservation(id, estIn, target, cost, target,
                            if b.maxCost > 0 then b.maxCost - b.usedCost else 0, b.strict))
  }

  /** The ledger after `reserveBudget`, and its reservation or error. */
  function Reserve(d: Defaults, l: Ledger, id: string, estIn: int, reqOut: int, faults: Faults)
    : (Ledger, Result<Reservation, Error>)
  {
    var untracked := Reservation(id, 0, 0, 0, Requested(reqOut), 0, false);
    if id == "" then (l, Ok(NO_RESERVATION))
    else if faults.lookup then (l, Err(LookupFailed))
    else if Find(l, id).None? then (l, Ok(untracked))
    else
      var b := ReserveDefaults(d, Find(l, id).value);
      if !b.known then (l, Ok(untracked))
      else
        match Grant(b, id, estIn, Requested(reqOut))
        case Err(m) => (l, Err(Exceeded(m)))
        case Ok(r) =>
          if faults.write then (l, Err(WriteFailed))
          else (Put(l, id, Charge(b, r.estIn, r.estOut, r.estCost)), Ok(r))
  }

  datatype Settlement = Settlement(ledger: Ledger, res: Reservation, persisted: bool, error: Option<Error>)

  /** `commitBudget`: the estimate is replaced by what was used, and only then is the reservation discharged. */
  function Commit(d: Defaults, l: Ledger, r: Reservation, used: Usage, faults: Faults): Settlement {
    if r.sessionId == "" then Settlement(l, r, false, None)
    else if faults.lookup then Settlement(l, r, false, Some(LookupFailed))
    else if Find(l, r.sessionId).None? then Settlement(l, r, false, Some(NotFound))
    else
      var b := CommitDefaults(d, Find(l, r.sessionId).value);
      if !b.known then Settlement(l, Discharged(r), false, None)
      else if faults.write then Settlement(l, r, false, Some(WriteFailed))
      else
        var after := Charge(b, used.input - r.estIn, used.output - r.estOut, used.cost - r.estCost);
        Settlement(Put(l, r.sessionId, after), Discharged(r), true,
                   if Overrun(after).Some? then Some(Exceeded(Overrun(after).value)) else None)
  }

  /** `rollbackBudget`: the estimate is taken back. */
  function Rollback(l: Ledger, r: Reservation, faults: Faults): Settlement {
    if r.sessionId == "" then Settlement(l, r, false, None)
    else if faults.lookup then Settlement(l, r, false, Some(LookupFailed))
    else if Find(l, r.sessionId).None? then Settlement(l, r, false, Some(NotFound))
    else
      var b := Find(l, r.sessionId).value;
      if !b.known then Settlement(l, Discharged(r).(strict := false), false, None)
      else if faults.write then Settlement(l, r, false, Some(WriteFailed))
      else Settlement(Put(l, r.sessionId, Charge(b, -r.estIn, -r.estOut, -r.estCost)), Discharged(r), true, None)
  }

  // ---------------------------------------------------------------- facts about one call

  /** A grant fits every configured limit, and its output bound is at least the viable minimum of what was asked. */
  lemma GrantFits(b: Budget, id: string, estIn: int, requested: int)
    requires Grant(b, id, estIn, requested).Ok?
    ensures var r := Grant(b, id, estIn, requested).value;
            && Overrun(Charge(b, r.estIn, r.estOut, r.estCost)) == None
            && (if requested < MIN_VIABLE_OUTPUT then requested else MIN_VIABLE_OUTPUT) <= r.estOut <= requested
            && r.estIn == estIn && r.maxTokens == r.estOut && r.estCost == CostOf(r.estIn, r.estOut)
  {
  }

  /** A grant is as large as the limits allow: the request itself, or one more output token would overrun a limit. */
  lemma GrantIsTight(b: Budget, id: string, estIn: int, requested: int)
    requires Grant(b, id, estIn, requested).Ok?
    ensures var r := Grant(b, id, estIn, requested).value;
            r.estOut == requested
            || (b.maxOut > 0 && b.usedOut + r.estOut + 1 > b.maxOut)
            || (b.maxTotal > 0 && b.usedTotal + r.estIn + r.estOut + 1 > b.maxTotal)
  {
  }

  // ---------------------------------------------------------------- the engine

  class BudgetReservation {
    var sessionId: string
    var estIn: int
    var estOut: int
    var estCost: int
    var maxTokens: int
    var maxCostUsd: int
    var strict: bool

    ghost function Value(): Reservation
      reads this
    {
      Reservation(sessionId, estIn, estOut, estCost, maxTokens, maxCostUsd, strict)
    }

    constructor (r: Reservation)
      ensures Value() == r
    {
      sessionId, estIn, estOut, estCost := r.sessionId, r.estIn, r.estOut, r.estCost;
      maxTokens, maxCostUsd, strict := r.maxTokens, r.maxCostUsd, r.strict;
    }

    method Discharge()
      modifies this
      ensures Value() == Discharged(old(Value()))
    {
      sessionId, estIn, estOut, estCost, maxTokens, maxCostUsd := "", 0, 0, 0, 0, 0;
    }
  }

  class Engine {
    const defaults: Defaults
    var ledger: Ledger

    constructor (defaults: Defaults, ledger: Ledger)
      ensures this.defaults == defaults && this.ledger == ledger
    {
      this.defaults, this.ledger := defaults, ledger;
    }

    /** The write transaction; it fails without effect or updates every row of this id. */
    method UpdateBudget(id: string, b: Budget, fails: bool) returns (ok: bool)
      modifies this
      ensures ok == !fails
      ensures ledger == if fails then old(ledger) else Put(old(ledger), id, b)
    {
      if fails { return false; }
      if id in ledger.sessions {
        ledger := ledger.(sessions := ledger.sessions[id := b]);
      }
      if id in ledger.spaces {
        ledger := ledger.(spaces := ledger.spaces[id := b]);
      }
      return true;
    }

    method ReserveBudget(id: string, estIn: int, estOutput: int, faults: Faults)
      returns (res: BudgetReservation?, error: Option<Error>)
      modifies this
      ensures ledger == Reserve(defaults, old(ledger), id, estIn, estOutput, faults).0
      ensures match Reserve(defaults, old(ledger), id, estIn, estOutput, faults).1
              case Ok(r) => res != null && fresh(res) && res.Value() == r && error == None
              case Err(e) => res == null && error == Some(e)
    {
      res, error := null, None;
      if id == "" {
        res := new BudgetReservation(NO_RESERVATION);
        return;
      }
      var estOut := if estOutput <= 0 then 1000 else estOutput;
      if faults.lookup {
        error := Some(LookupFailed);
        return;
      }
      var found := Find(ledger, id);
      if found.None? {
        res := new BudgetReservation(Reservation(id, 0, 0, 0, estOut, 0, false));
        return;
      }
      var b := found.value;
      if !b.known && (AnyLimit(defaults) || defaults.strict) {
        b := b.(known := true, strict := defaults.strict, maxIn := defaults.maxIn, maxOut := defaults.maxOut,
                maxTotal := defaults.maxTotal, maxCost := defaults.maxCost);
      }
      if !b.known {
        res := new BudgetReservation(Reservation(id, 0, 0, 0, estOut, 0, false));
        return;
      }
      var grant := FitRequest(b, id, estIn, estOut);
      if grant.Err? {
        error := Some(Exceeded(grant.error));
        return;
      }
      var r := grant.value;
      var ok := UpdateBudget(id, Charge(b, r.estIn, r.estOut, r.estCost), faults.write);
      if !ok {
        error := Some(WriteFailed);
        return;
      }
      res := new BudgetReservation(r);
    }

    /** The limit checks of a reservation, and the output bound they leave. */
    static method FitRequest(b: Budget, id: string, estIn: int, estOut: int) returns (r: Result<Reservation, Metric>)
      ensures r == Grant(b, id, estIn, estOut)
    {
      if b.maxIn > 0 && b.usedIn + estIn > b.maxIn { return Err(InputTokens); }
      var target := estOut;
      if b.maxOut > 0 {
        var remOut := b.maxOut - b.usedOut;
        if remOut < MIN_VIABLE_OUTPUT { return Err(OutputTokens); }
        if remOut < target {
          target := remOut;
        }
      }
      if b.maxTotal > 0 {
        var remTotal := b.maxTotal - b.usedTotal - estIn;
        if remTotal < MIN_VIABLE_OUTPUT { return Err(TotalTokens); }
        if remTotal < target {
          target := remTotal;
        }
      }
      var estCost := 3 * estIn + 15 * target;
      if b.maxCost > 0 && b.usedCost + estCost > b.maxCost { return Err(Cost); }
      var remCost := if b.maxCost > 0 then b.maxCost - b.usedCost else 0;
      return Ok(Reservation(id, estIn, target, estCost, target, remCost, b.strict));
    }

    method CommitBudget(res: BudgetReservation?, used: Usage, faults: Faults) returns (error: Option<Error>)
      modifies this, res
      ensures res == null ==> ledger == old(ledger) && error == None
      ensures res != null ==>
                var s := Commit(defaults, old(ledger), old(res.Value()), used, faults);
                ledger == s.ledger && res.Value() == s.res && error == s.error
    {
      if res == null || res.sessionId == "" { return None; }
      var id, estIn, estOut, estCost := res.sessionId, res.estIn, res.estOut, res.estCost;
      if faults.lookup { return Some(LookupFailed); }
      var found := Find(ledger, id);
      if found.None? { return Some(NotFound); }
      var b := found.value;
      if !b.known && AnyLimit(defaults) {
        b := b.(known := true, maxIn := defaults.maxIn, maxOut := defaults.maxOut, maxTotal := defaults.maxTotal,
                maxCost := defaults.maxCost);
      }
      if !b.known {
        res.Discharge();
        return None;
      }
      var newIn := b.usedIn - estIn + used.input;
      var newOut := b.usedOut - estOut + used.output;
      var newTotal := b.usedTotal - (estIn + estOut) + (used.input + used.output);
      var newCost := b.usedCost - estCost + used.cost;
      b := b.(usedIn := newIn, usedOut := newOut, usedTotal := newTotal, usedCost := newCost);
      var ok := UpdateBudget(id, b, faults.write);
      if !ok { return Some(WriteFailed); }
      res.Discharge();
      if b.maxIn > 0 && newIn > b.maxIn { return Some(Exceeded(InputTokens)); }
      if b.maxOut > 0 && newOut > b.maxOut { return Some(Exceeded(OutputTokens)); }
      if b.maxTotal > 0 && newTotal > b.maxTotal { return Some(Exceeded(TotalTokens)); }
      if b.maxCost > 0 && newCost > b.maxCost { return Some(Exceeded(Cost)); }
      return None;
    }

    method RollbackBudget(res: BudgetReservation?, faults: Faults) returns (error: Option<Error>)
      modifies this, res
      ensures res == null ==> ledger == old(ledger) && error == None
      ensures res != null ==>
                var s := Rollback(old(ledger), old(res.Value()), faults);
                ledger == s.ledger && res.Value() == s.res && error == s.error
    {
      if res == null || res.sessionId == "" { return None; }
      var id, estIn, estOut, estCost := res.sessionId, res.estIn, res.estOut, res.estCost;
      if faults.lookup { return Some(LookupFailed); }
      var found := Find(ledger, id);
      if found.None? { return Some(NotFound); }
      var b := found.value;
      if !b.known {
        res.Discharge();
        res.strict := false;
        return None;
      }
      b := b.(usedIn := b.usedIn - estIn, usedOut := b.usedOut - estOut,
              usedTotal := b.usedTotal - (estIn + estOut), usedCost := b.usedCost - estCost);
      var ok := UpdateBudget(id, b, faults.write);
      if !ok { return Some(WriteFailed); }
      res.Discharge();
      return None;
    }
  }
}
