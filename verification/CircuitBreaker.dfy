/** The circuit breaker of internal/agentreliability/reliability.go. Times are nanoseconds, 0 is Go's zero time. */
module CircuitBreaker {
  import opened Text

  datatype State = Closed | Open | HalfOpen | Quarantined

  datatype Config = Config(failureThreshold: int, recoveryTimeout: int, quarantineAfter: int, quarantineDuration: int)

  datatype Snapshot = Snapshot(state: State, failures: int, successes: int, quarantinedUntil: int, lastError: string)

  type Items = map<string, Snapshot>

  const SECOND := 1_000_000_000

  const FRESH := Snapshot(Closed, 0, 0, 0, "")

  /** An agent not yet seen counts as closed. */
  function Look(items: Items, name: string): Snapshot {
    if name in items then items[name] else FRESH
  }

  /** The new snapshot, and whether the call is let through. */
  function BeforeCall(cfg: Config, s: Snapshot, now: int): (Snapshot, bool) {
    if s.state == Quarantined && now < s.quarantinedUntil then (s, false)
    else
      var woken := if s.state == Quarantined then s.(state := Open) else s;
      if woken.state != Open then (woken, true)
      else if woken.quarantinedUntil == 0 || now - woken.quarantinedUntil < cfg.recoveryTimeout then (woken, false)
      else (woken.(state := HalfOpen), true)
  }

  function AfterSuccess(s: Snapshot): Snapshot {
    Snapshot(Closed, 0, s.successes + 1, 0, "")
  }

  /** `error` is None for a nil error, which leaves the last error text. */
  function AfterFailure(cfg: Config, s: Snapshot, error: Option<string>, now: int): Snapshot {
    var failed := s.(failures := s.failures + 1, lastError := if error.Some? then error.value else s.lastError);
    if failed.failures >= cfg.quarantineAfter then
      failed.(state := Quarantined, quarantinedUntil := now + cfg.quarantineDuration)
    else if failed.failures >= cfg.failureThreshold then failed.(state := Open, quarantinedUntil := now)
    else failed
  }

  class Controller {
    const cfg: Config
    var items: Items

    constructor (given: Config)
      ensures Sensible(cfg) && items == map[]
      ensures given.failureThreshold > 0 ==> cfg.failureThreshold == given.failureThreshold
      ensures given.failureThreshold <= 0 ==> cfg.failureThreshold == 3
      ensures cfg.quarantineAfter ==
              if given.quarantineAfter > 0 then given.quarantineAfter else 2 * cfg.failureThreshold
      ensures cfg.recoveryTimeout == if given.recoveryTimeout > 0 then given.recoveryTimeout else 30 * SECOND
      ensures cfg.quarantineDuration == if given.quarantineDuration > 0 then given.quarantineDuration else 300 * SECOND
    {
      var threshold := if given.failureThreshold <= 0 then 3 else given.failureThreshold;
      cfg := Config(
        threshold,
        if given.recoveryTimeout <= 0 then 30 * SECOND else given.recoveryTimeout,
        if given.quarantineAfter <= 0 then threshold * 2 else given.quarantineAfter,
        if given.quarantineDuration <= 0 then 300 * SECOND else given.quarantineDuration);
      items := map[];
    }

    method Get(name: string) returns (item: Snapshot)
      modifies this
      ensures item == Look(old(items), name) && items == old(items)[name := item]
    {
      if name !in items {
        items := items[name := FRESH];
      }
      item := items[name];
    }

    method Before(name: string, now: int) returns (allowed: bool)
      modifies this
      ensures (items, allowed) == Step(cfg, old(items), Call(name, now))
    {
      var item := Get(name);
      if item.state == Quarantined && now < item.quarantinedUntil { return false; }
      if item.state == Quarantined {
        item := item.(state := Open);
        items := items[name := item];
      }
      assert items == old(items)[name := item];
      if item.state == Open {
        if item.quarantinedUntil == 0 || now - item.quarantinedUntil < cfg.recoveryTimeout { return false; }
        item := item.(state := HalfOpen);
        items := items[name := item];
      }
      assert items == old(items)[name := item];
      return true;
    }

    method Success(name: string)
      modifies this
      ensures items == Step(cfg, old(items), Succeeded(name)).0
    {
      var item := Get(name);
      items := items[name := Snapshot(Closed, 0, item.successes + 1, 0, "")];
    }

    method Failure(name: string, error: Option<string>, now: int)
      modifies this
      ensures items == Step(cfg, old(items), Failed(name, error, now)).0
    {
      var item := Get(name);
      item := item.(failures := item.failures + 1);
      if error.Some? {
        item := item.(lastError := error.value);
      }
      if item.failures >= cfg.quarantineAfter {
        item := item.(state := Quarantined, quarantinedUntil := now + cfg.quarantineDuration);
      } else if item.failures >= cfg.failureThreshold {
        item := item.(state := Open, quarantinedUntil := now);
      }
      items := items[name := item];
    }
  }

  // ---------------------------------------------------------------- runs

  datatype Event =
    | Call(name: string, now: int)
    | Succeeded(name: string)
    | Failed(name: string, error: Option<string>, now: int)

  /** The new items, and for a call whether it is let through. */
  function Step(cfg: Config, items: Items, e: Event): (Items, bool) {
    var s := Look(items, e.name);
    match e
    case Call(name, now) =>
      var (next, allowed) := BeforeCall(cfg, s, now);
      (items[name := next], allowed)
    case Succeeded(name) => (items[name := AfterSuccess(s)], true)
    case Failed(name, error, now) => (items[name := AfterFailure(cfg, s, error, now)], true)
  }

  function Run(cfg: Config, items: Items, events: seq<Event>): Items {
    if events == [] then items
    else Step(cfg, Run(cfg, items, events[..|events| - 1]), events[|events| - 1]).0
  }

  predicate Sensible(cfg: Config) {
    cfg.failureThreshold > 0 && cfg.recoveryTimeout > 0 && cfg.quarantineAfter > 0 && cfg.quarantineDuration > 0
  }

  /** The number of failures in a row from which an agent is no longer closed. */
  function Tolerance(cfg: Config): int {
    if cfg.failureThreshold < cfg.quarantineAfter then cfg.failureThreshold else cfg.quarantineAfter
  }

  ghost predicate Consistent(cfg: Config, s: Snapshot) {
    && s.failures >= 0 && (s.state == Closed <==> s.failures < Tolerance(cfg))
    && (s.state == Quarantined ==> s.failures >= cfg.quarantineAfter)
  }

  /** In every reachable state an agent is closed exactly when its failures stay below the tolerance. */
  lemma {:induction false} ClosedExactly(cfg: Config, events: seq<Event>, name: string)
    requires Sensible(cfg)
    ensures Consistent(cfg, Look(Run(cfg, map[], events), name))
  {
    if events != [] {
      var e := events[|events| - 1];
      ClosedExactly(cfg, events[..|events| - 1], name);
      ClosedExactly(cfg, events[..|events| - 1], e.name);
    }
  }

  /** Only events of an agent itself change its state. */
  lemma {:induction false} OthersAreUnaffected(cfg: Config, items: Items, events: seq<Event>, name: string)
    requires forall i :: 0 <= i < |events| ==> events[i].name != name
    ensures Look(Run(cfg, items, events), name) == Look(items, name)
  {
    if events != [] {
      OthersAreUnaffected(cfg, items, events[..|events| - 1], name);
    }
  }

  /** No outcome for the agent, and no call of it later than `now`. */
  ghost predicate OnlyCallsUntil(events: seq<Event>, name: string, now: int) {
    forall i :: 0 <= i < |events| && events[i].name == name ==> events[i].Call? && events[i].now <= now
  }

  /** Tripped at `until`: refusing, or already half open because a call came late enough. */
  ghost predicate Tripped(cfg: Config, s: Snapshot, until: int, now: int) {
    && s.quarantinedUntil == until
    && (s.state == Open || s.state == Quarantined
        || (s.state == HalfOpen && until != 0 && now - until >= cfg.recoveryTimeout))
  }

  lemma {:induction false} StaysTripped(cfg: Config, items: Items, events: seq<Event>, name: string,
                                        until: int, now: int)
    requires Sensible(cfg) && OnlyCallsUntil(events, name, now) && Tripped(cfg, Look(items, name), until, now)
    ensures Tripped(cfg, Look(Run(cfg, items, events), name), until, now)
  {
    if events != [] {
      var before, e := events[..|events| - 1], events[|events| - 1];
      assert OnlyCallsUntil(before, name, now) by {
        assert forall i :: 0 <= i < |before| ==> before[i] == events[i];
      }
      StaysTripped(cfg, items, before, name, until, now);
    }
  }

  /** When the agent that fails at `t` stops refusing, apart from the recovery timeout. */
  function Until(cfg: Config, s: Snapshot, t: int): int {
    if s.failures + 1 >= cfg.quarantineAfter then t + cfg.quarantineDuration else t
  }

  /**
   * After a failure at time `t` that opens or quarantines an agent, and as long as no outcome follows, a call is
   * refused exactly if it comes before the quarantine, if any, and the recovery timeout have passed; whatever other
   * agents do in between. The one exception is a deadline that happens to be Go's zero time, which never passes. A
   * failure below the tolerance refuses nothing.
   */
  lemma RefusedExactly(cfg: Config, earlier: seq<Event>, name: string, error: Option<string>, t: int,
                       later: seq<Event>, now: int)
    requires Sensible(cfg) && OnlyCallsUntil(later, name, now)
    ensures var items := Run(cfg, map[], earlier);
            var s := Look(items, name);
            var failed := Step(cfg, items, Failed(name, error, t)).0;
            var until := Until(cfg, s, t);
            !Step(cfg, Run(cfg, failed, later), Call(name, now)).1 <==>
            s.failures + 1 >= Tolerance(cfg) && (until == 0 || now < until + cfg.recoveryTimeout)
  {
    var items := Run(cfg, map[], earlier);
    var failed := Step(cfg, items, Failed(name, error, t)).0;
    ClosedExactly(cfg, earlier, name);
    if Look(items, name).failures + 1 >= Tolerance(cfg) {
      StaysTripped(cfg, failed, later, name, Until(cfg, Look(items, name), t), now);
    } else {
      StaysClosed(cfg, failed, later, name, now);
    }
  }

  lemma {:induction false} StaysClosed(cfg: Config, items: Items, events: seq<Event>, name: string, now: int)
    requires OnlyCallsUntil(events, name, now) && Look(items, name).state == Closed
    ensures Look(Run(cfg, items, events), name).state == Closed
  {
    if events != [] {
      var before := events[..|events| - 1];
      assert OnlyCallsUntil(before, name, now) by {
        assert forall i :: 0 <= i < |before| ==> before[i] == events[i];
      }
      StaysClosed(cfg, items, before, name, now);
    }
  }

  /** A success lets every later call through until the tolerance is used up again. */
  lemma SuccessRecovers(cfg: Config, items: Items, name: string, later: seq<Event>, now: int)
    requires Sensible(cfg) && OnlyCallsUntil(later, name, now)
    ensures Step(cfg, Run(cfg, Step(cfg, items, Succeeded(name)).0, later), Call(name, now)).1
  {
    StaysClosed(cfg, Step(cfg, items, Succeeded(name)).0, later, name, now);
  }

  // ---------------------------------------------------------------- what is counted

  /** The failures of an agent since its last success. */
  function FailuresInARow(events: seq<Event>, name: string): nat {
    if events == [] then 0
    else
      var before, e := FailuresInARow(events[..|events| - 1], name), events[|events| - 1];
      if e.name != name || e.Call? then before else if e.Succeeded? then 0 else before + 1
  }

  function SuccessesOf(events: seq<Event>, name: string): nat {
    if events == [] then 0
    else
      var e := events[|events| - 1];
      SuccessesOf(events[..|events| - 1], name) + if e.name == name && e.Succeeded? then 1 else 0
  }

  /** The text of the last error since the last success. */
  function LastErrorOf(events: seq<Event>, name: string): string {
    if events == [] then ""
    else
      var before, e := LastErrorOf(events[..|events| - 1], name), events[|events| - 1];
      if e.name != name || e.Call? || (e.Failed? && e.error == None) then before
      else if e.Succeeded? then "" else e.error.value
  }

  /** The counters are what they are called, over every run. */
  lemma {:induction false} CountersAreExact(cfg: Config, events: seq<Event>, name: string)
    ensures var s := Look(Run(cfg, map[], events), name);
            && s.failures == FailuresInARow(events, name) && s.successes == SuccessesOf(events, name)
            && s.lastError == LastErrorOf(events, name)
  {
    if events != [] {
      CountersAreExact(cfg, events[..|events| - 1], name);
      CountersAreExact(cfg, events[..|events| - 1], events[|events| - 1].name);
    }
  }
}
