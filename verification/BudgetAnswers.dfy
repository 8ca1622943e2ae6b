/**
 * When a reservation is granted, how large it is, and what the ledger holds after each operation, read off the
 * budgets: `reserveBudget`, `commitBudget` and `rollbackBudget` of internal/collaboration/engine.go, seen from outside.
 */
module BudgetAnswers {
  import opened Text
  import opened BudgetLedger

  // ---------------------------------------------------------------- the budget an operation works on

  /** The budget with the configured limits, if it was not tracked before. */
  function WithLimits(d: Defaults, b: Budget): Budget {
    if b.known then b
    else b.(known := true, maxIn := d.maxIn, maxOut := d.maxOut, maxTotal := d.maxTotal, maxCost := d.maxCost)
  }

  predicate SomeLimit(d: Defaults) {
    d.maxIn > 0 || d.maxOut > 0 || d.maxTotal > 0 || d.maxCost > 0
  }

  /** Budget `id` becomes `b`, and no other budget changes. */
  ghost predicate Becomes(before: Ledger, after: Ledger, id: string, b: Budget) {
    && (id in before.sessions || id in before.spaces)
    && after.sessions == (if id in before.sessions then before.sessions[id := b] else before.sessions)
    && after.spaces == (if id in before.spaces then before.spaces[id := b] else before.spaces)
  }

  /** The row an id is looked up in: the session's, or else the space's. */
  ghost predicate IsBudget(l: Ledger, id: string, b: Budget) {
    if id in l.sessions then l.sessions[id] == b else id in l.spaces && l.spaces[id] == b
  }

  // ---------------------------------------------------------------- reserving

  /** The least of the tokens requested and what the output and total limits leave. */
  predicate IsLeast(least: int, b: Budget, estIn: int, request: int) {
    var roomOut, roomTotal := b.maxOut - b.usedOut, b.maxTotal - b.usedTotal - estIn;
    && least <= request && (b.maxOut > 0 ==> least <= roomOut) && (b.maxTotal > 0 ==> least <= roomTotal)
    && (least == request || (b.maxOut > 0 && least == roomOut) || (b.maxTotal > 0 && least == roomTotal))
  }

  /** The first check that a request fails, if any: fewer than 100 tokens of output are not worth a call. */
  predicate FirstObstacle(m: Option<Metric>, b: Budget, estIn: int, least: int) {
    var noInput := b.maxIn > 0 && b.usedIn + estIn > b.maxIn;
    var noOutput := b.maxOut > 0 && b.maxOut - b.usedOut < 100;
    var noTotal := b.maxTotal > 0 && b.maxTotal - b.usedTotal - estIn < 100;
    var noMoney := b.maxCost > 0 && b.usedCost + 3 * estIn + 15 * least > b.maxCost;
    match m
    case None => !noInput && !noOutput && !noTotal && !noMoney
    case Some(InputTokens) => noInput
    case Some(OutputTokens) => noOutput && !noInput
    case Some(TotalTokens) => noTotal && !noInput && !noOutput
    case Some(Cost) => noMoney && !noInput && !noOutput && !noTotal
  }

  lemma GrantedExactly(b: Budget, id: string, estIn: int, request: int, least: int, m: Option<Metric>)
    requires IsLeast(least, b, estIn, request) && FirstObstacle(m, b, estIn, least)
    ensures Grant(b, id, estIn, request) ==
            if m.Some? then Err(m.value)
            else Ok(Reservation(id, estIn, least, 3 * estIn + 15 * least, least,
                                if b.maxCost > 0 then b.maxCost - b.usedCost else 0, b.strict))
  {
  }

  /**
   * A reservation on a tracked budget, or one that the configuration makes tracked, is granted if and only if nothing
   * stands in its way: the input fits, the output and the total each leave room for at least 100 tokens, and the
   * estimate fits the cost limit. Then it gets the least of what it asked for and what is left, and the budget is
   * charged just that. Otherwise the error names the first check that fails, and the ledger stays.
   */
  lemma ReserveExactly(d: Defaults, l: Ledger, id: string, found: Budget, estIn: int, reqOut: int, faults: Faults,
                       least: int, m: Option<Metric>)
    requires id != "" && IsBudget(l, id, found) && (found.known || SomeLimit(d) || d.strict)
    requires IsLeast(least, WithLimits(d, found), estIn, if reqOut > 0 then reqOut else 1000)
    requires FirstObstacle(m, WithLimits(d, found), estIn, least)
    ensures var (after, r) := Reserve(d, l, id, estIn, reqOut, faults);
            var b := WithLimits(d, found).(strict := if found.known then found.strict else d.strict);
            var cost := 3 * estIn + 15 * least;
            if faults.lookup then after == l && r == Err(LookupFailed)
            else if m.Some? then after == l && r == Err(Exceeded(m.value))
            else if faults.write then after == l && r == Err(WriteFailed)
            else
              && r == Ok(Reservation(id, estIn, least, cost, least,
                                     if b.maxCost > 0 then b.maxCost - b.usedCost else 0, b.strict))
              && Becomes(l, after, id, b.(usedIn := b.usedIn + estIn, usedOut := b.usedOut + least,
                                          usedTotal := b.usedTotal + estIn + least, usedCost := b.usedCost + cost))
  {
    var b := WithLimits(d, found).(strict := if found.known then found.strict else d.strict);
    GrantedExactly(b, id, estIn, if reqOut > 0 then reqOut else 1000, least, m);
    assert ReserveDefaults(d, found) == b;
  }

  /** Every request has a least bound and one first obstacle, or none: the answer above is always given. */
  lemma AnswerExists(b: Budget, estIn: int, request: int) returns (least: int, m: Option<Metric>)
    ensures IsLeast(least, b, estIn, request) && FirstObstacle(m, b, estIn, least)
    ensures forall least' :: IsLeast(least', b, estIn, request) ==> least' == least
    ensures forall m' :: FirstObstacle(m', b, estIn, least) ==> m' == m
  {
    least := request;
    if b.maxOut > 0 && b.maxOut - b.usedOut < least { least := b.maxOut - b.usedOut; }
    if b.maxTotal > 0 && b.maxTotal - b.usedTotal - estIn < least { least := b.maxTotal - b.usedTotal - estIn; }
    m := if b.maxIn > 0 && b.usedIn + estIn > b.maxIn then Some(InputTokens)
         else if b.maxOut > 0 && b.maxOut - b.usedOut < 100 then Some(OutputTokens)
         else if b.maxTotal > 0 && b.maxTotal - b.usedTotal - estIn < 100 then Some(TotalTokens)
         else if b.maxCost > 0 && b.usedCost + 3 * estIn + 15 * least > b.maxCost then Some(Cost)
         else None;
  }

  /** Without an id, a budget or any limit, what is asked for is granted and nothing is charged. */
  lemma UntrackedIsFree(d: Defaults, l: Ledger, id: string, estIn: int, reqOut: int, faults: Faults)
    requires id == "" || (id !in l.sessions && id !in l.spaces)
             || exists found :: IsBudget(l, id, found) && !found.known && !SomeLimit(d) && !d.strict
    ensures Reserve(d, l, id, estIn, reqOut, faults) ==
            if id == "" then (l, Ok(Reservation("", 0, 0, 0, 0, 0, false)))
            else if faults.lookup then (l, Err(LookupFailed))
            else (l, Ok(Reservation(id, 0, 0, 0, if reqOut > 0 then reqOut else 1000, 0, false)))
  {
  }

  // ---------------------------------------------------------------- settling

  predicate Within(limit: int, used: int) {
    limit <= 0 || used <= limit
  }

  /** The first limit that is overrun, if any. */
  predicate FirstOverrun(m: Option<Metric>, b: Budget) {
    match m
    case None =>
      && Within(b.maxIn, b.usedIn) && Within(b.maxOut, b.usedOut) && Within(b.maxTotal, b.usedTotal)
      && Within(b.maxCost, b.usedCost)
    case Some(InputTokens) => !Within(b.maxIn, b.usedIn)
    case Some(OutputTokens) => !Within(b.maxOut, b.usedOut) && Within(b.maxIn, b.usedIn)
    case Some(TotalTokens) =>
      !Within(b.maxTotal, b.usedTotal) && Within(b.maxIn, b.usedIn) && Within(b.maxOut, b.usedOut)
    case Some(Cost) =>
      && !Within(b.maxCost, b.usedCost) && Within(b.maxIn, b.usedIn) && Within(b.maxOut, b.usedOut)
      && Within(b.maxTotal, b.usedTotal)
  }

  /** A discharged reservation holds nothing, and is never settled again. */
  function Emptied(r: Reservation): Reservation {
    Reservation("", 0, 0, 0, 0, 0, r.strict)
  }

  /**
   * A commit replaces the estimate by what was used, in every counter, and only then discharges the reservation; it
   * reports the first limit that is overrun, after the fact. With a failed lookup or write nothing changes, so that a
   * rollback can still take the estimate back.
   */
  lemma CommitExactly(d: Defaults, l: Ledger, r: Reservation, found: Budget, used: Usage, faults: Faults)
    requires r.sessionId != "" && IsBudget(l, r.sessionId, found)
    ensures var s := Commit(d, l, r, used, faults);
            var b := WithLimits(d, found);
            var after := b.(usedIn := b.usedIn - r.estIn + used.input, usedOut := b.usedOut - r.estOut + used.output,
                            usedTotal := b.usedTotal - r.estIn - r.estOut + used.input + used.output,
                            usedCost := b.usedCost - r.estCost + used.cost);
            if faults.lookup then s == Settlement(l, r, false, Some(LookupFailed))
            else if !found.known && !SomeLimit(d) then s == Settlement(l, Emptied(r), false, None)
            else if faults.write then s == Settlement(l, r, false, Some(WriteFailed))
            else
              && Becomes(l, s.ledger, r.sessionId, after) && s.res == Emptied(r) && s.persisted
              && (s.error == None || s.error.value.Exceeded?)
              && FirstOverrun(if s.error == None then None else Some(s.error.value.metric), after)
  {
  }

  /** A rollback takes exactly the estimate back. */
  lemma RollbackExactly(l: Ledger, r: Reservation, found: Budget, faults: Faults)
    requires r.sessionId != "" && IsBudget(l, r.sessionId, found)
    ensures var s := Rollback(l, r, faults);
            var after := found.(usedIn := found.usedIn - r.estIn, usedOut := found.usedOut - r.estOut,
                                usedTotal := found.usedTotal - r.estIn - r.estOut,
                                usedCost := found.usedCost - r.estCost);
            if faults.lookup then s == Settlement(l, r, false, Some(LookupFailed))
            else if !found.known then s == Settlement(l, Emptied(r).(strict := false), false, None)
            else if faults.write then s == Settlement(l, r, false, Some(WriteFailed))
            else Becomes(l, s.ledger, r.sessionId, after) && s.res == Emptied(r) && s.persisted && s.error == None
  {
  }

  /** Nothing is settled twice: a discharged reservation, or one without a budget, leaves the ledger alone. */
  lemma NothingToSettle(d: Defaults, l: Ledger, r: Reservation, used: Usage, faults: Faults)
    requires r.sessionId == "" || (r.sessionId !in l.sessions && r.sessionId !in l.spaces)
    ensures var error := if r.sessionId == "" then None
                         else if faults.lookup then Some(LookupFailed) else Some(NotFound);
            Commit(d, l, r, used, faults) == Settlement(l, r, false, error) == Rollback(l, r, faults)
  {
  }
}
