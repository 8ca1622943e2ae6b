/**
 * `acquireIdempotency` of internal/collaboration/engine.go: callers of one engine agree on one owner per key, and the
 * owner's saved result answers the others. Unlike in the bridge, results are in the store, and releasing a key deletes
 * and closes its channel under one lock.
 */
module EngineIdempotency {

  type Channel = nat

  /** Results are saved under session and key. */
  datatype Id = Id(session: string, key: string)

  /** Channels are kept under session and key joined by a colon. */
  function InflightKey(id: Id): string {
    id.session + ":" + id.key
  }

  datatype Outcome = Cached(value: string) | WaitOn(ch: Channel) | Own

  datatype Table = Table(saved: map<Id, string>, inflight: map<string, Channel>, closed: set<Channel>)

  /** One pass through the locked section; a failed read counts as no result. */
  function Acquire(t: Table, id: Id, readOk: bool, made: Channel): (Table, Outcome) {
    if readOk && id in t.saved && t.saved[id] != "" then (t, Cached(t.saved[id]))
    else if InflightKey(id) in t.inflight then (t, WaitOn(t.inflight[InflightKey(id)]))
    else (t.(inflight := t.inflight[InflightKey(id) := made]), Own)
  }

  function Release(t: Table, id: Id, ch: Channel): Table {
    t.(inflight := t.inflight - {InflightKey(id)}, closed := t.closed + {ch})
  }

  class Engine {
    var saved: map<Id, string>
    var inflight: map<string, Channel>
    var closed: set<Channel>

    ghost function View(): Table
      reads this
    {
      Table(saved, inflight, closed)
    }

    constructor ()
      ensures View() == Table(map[], map[], {})
    {
      saved, inflight, closed := map[], map[], {};
    }

    /** One round of the retry loop, under `inflightMu`. */
    method AcquireLocked(id: Id, readOk: bool, made: Channel) returns (r: Outcome)
      modifies this`inflight
      ensures (View(), r) == Acquire(old(View()), id, readOk, made)
    {
      var val := if readOk && id in saved then saved[id] else "";
      if val != "" { return Cached(val); }
      var inflightKey := InflightKey(id);
      if inflightKey in inflight { return WaitOn(inflight[inflightKey]); }
      inflight := inflight[inflightKey := made];
      return Own;
    }

    method ReleaseLocked(id: Id, ch: Channel)
      modifies this`inflight, this`closed
      ensures View() == Release(old(View()), id, ch)
    {
      inflight := inflight - {InflightKey(id)};
      closed := closed + {ch};
    }
  }

  // ---------------------------------------------------------------- the protocol

  datatype Caller = Idle | Acquiring(id: Id) | Waiting(id: Id, ch: Channel) | Owning(id: Id, ch: Channel)

  datatype World = World(table: Table, callers: seq<Caller>, next: Channel)

  datatype Op =
    | Start(p: nat, id: Id)
    | TryAcquire(p: nat, readOk: bool)
    | Wake(p: nat)
    | Cancel(p: nat)
    | Save(p: nat, result: string)
    | Discharge(p: nat)

  predicate Enabled(w: World, op: Op) {
    op.p < |w.callers|
    && match op
       case Start(p, _) => w.callers[p].Idle?
       case TryAcquire(p, _) => w.callers[p].Acquiring?
       case Wake(p) => w.callers[p].Waiting? && w.callers[p].ch in w.table.closed
       case Cancel(p) => w.callers[p].Waiting?
       case Save(p, _) => w.callers[p].Owning?
       case Discharge(p) => w.callers[p].Owning?
  }

  function Step(w: World, op: Op): World
    requires Enabled(w, op)
  {
    match op
    case Start(p, id) => w.(callers := w.callers[p := Acquiring(id)])
    case TryAcquire(p, readOk) =>
      var id := w.callers[p].id;
      var (table, r) := Acquire(w.table, id, readOk, w.next);
      (match r
       case Cached(_) => w.(callers := w.callers[p := Idle])
       case WaitOn(ch) => w.(callers := w.callers[p := Waiting(id, ch)])
       case Own => World(table, w.callers[p := Owning(id, w.next)], w.next + 1))
    case Wake(p) => w.(callers := w.callers[p := Acquiring(w.callers[p].id)])
    case Cancel(p) => w.(callers := w.callers[p := Idle])
    case Save(p, result) => w.(table := w.table.(saved := w.table.saved[w.callers[p].id := result]))
    case Discharge(p) =>
      World(Release(w.table, w.callers[p].id, w.callers[p].ch), w.callers[p := Idle], w.next)
  }

  function Initial(saved: map<Id, string>, callers: nat): World {
    World(Table(saved, map[], {}), seq(callers, i => Idle), 0)
  }

  ghost predicate Reachable(w: World, n: nat)
    decreases n
  {
    if n == 0 then exists saved, callers: nat :: w == Initial(saved, callers)
    else exists w0, op :: Reachable(w0, n - 1) && Enabled(w0, op) && w == Step(w0, op)
  }

  ghost predicate Holds(c: Caller, k: string, ch: Channel) {
    c.Owning? && InflightKey(c.id) == k && c.ch == ch
  }

  ghost predicate HeldBySome(w: World, k: string, ch: Channel) {
    exists q :: 0 <= q < |w.callers| && Holds(w.callers[q], k, ch)
  }

  /** Owners hold open channels of their own, exactly those in flight; a waiter's channel is closed or in flight. */
  ghost predicate Inv(w: World) {
    && (forall p :: 0 <= p < |w.callers| && w.callers[p].Owning? ==> OwnerInv(w, w.callers[p]))
    && (forall p, q :: 0 <= p < q < |w.callers| && w.callers[p].Owning? && w.callers[q].Owning? ==>
          w.callers[p].ch != w.callers[q].ch)
    && (forall k :: k in w.table.inflight ==> HeldBySome(w, k, w.table.inflight[k]))
    && (forall ch :: ch in w.table.closed ==> ch < w.next)
    && (forall p :: 0 <= p < |w.callers| && w.callers[p].Waiting? ==> WaiterInv(w, w.callers[p]))
  }

  ghost predicate OwnerInv(w: World, c: Caller)
    requires c.Owning?
  {
    var k := InflightKey(c.id);
    c.ch < w.next && c.ch !in w.table.closed && k in w.table.inflight && w.table.inflight[k] == c.ch
  }

  ghost predicate WaiterInv(w: World, c: Caller)
    requires c.Waiting?
  {
    var k := InflightKey(c.id);
    c.ch in w.table.closed || (k in w.table.inflight && w.table.inflight[k] == c.ch)
  }

  lemma HoldersStay(w: World, w': World, p: nat)
    requires Inv(w) && p < |w.callers| && |w'.callers| == |w.callers|
    requires forall q :: 0 <= q < |w.callers| && q != p ==> w'.callers[q] == w.callers[q]
    requires forall k :: k in w'.table.inflight && k in w.table.inflight ==> w'.table.inflight[k] == w.table.inflight[k]
    requires forall k :: k in w'.table.inflight && k !in w.table.inflight ==> HeldBySome(w', k, w'.table.inflight[k])
    requires w.callers[p].Owning? ==>
               w'.callers[p] == w.callers[p] || InflightKey(w.callers[p].id) !in w'.table.inflight
    ensures forall k :: k in w'.table.inflight ==> HeldBySome(w', k, w'.table.inflight[k])
  {
  }

  /** A step that only moves a caller who owns nothing, to where it owns nothing. */
  lemma QuietStepKeeps(w: World, p: nat, c: Caller)
    requires Inv(w) && p < |w.callers| && !w.callers[p].Owning? && !c.Owning?
    requires c.Waiting? ==> WaiterInv(w, c)
    ensures Inv(w.(callers := w.callers[p := c]))
  {
    HoldersStay(w, w.(callers := w.callers[p := c]), p);
  }

  lemma OwnKeeps(w: World, p: nat, id: Id)
    requires Inv(w) && p < |w.callers| && w.callers[p] == Acquiring(id) && InflightKey(id) !in w.table.inflight
    ensures Inv(World(w.table.(inflight := w.table.inflight[InflightKey(id) := w.next]),
                      w.callers[p := Owning(id, w.next)], w.next + 1))
  {
    var k := InflightKey(id);
    var w' := World(w.table.(inflight := w.table.inflight[k := w.next]),
                    w.callers[p := Owning(id, w.next)], w.next + 1);
    assert Holds(w'.callers[p], k, w'.table.inflight[k]);
    HoldersStay(w, w', p);
    forall q | 0 <= q < |w.callers| && w.callers[q].Owning?
      ensures OwnerInv(w, w.callers[q]) && w.callers[q].ch < w.next && InflightKey(w.callers[q].id) != k
    {
    }
  }

  lemma DischargeKeeps(w: World, p: nat)
    requires Inv(w) && p < |w.callers| && w.callers[p].Owning?
    ensures Inv(Step(w, Discharge(p)))
  {
    var w', k := Step(w, Discharge(p)), InflightKey(w.callers[p].id);
    HoldersStay(w, w', p);
    assert OwnerInv(w, w.callers[p]);
    forall q | 0 <= q < |w.callers| && q != p && w.callers[q].Owning?
      ensures OwnerInv(w', w'.callers[q])
    {
      assert OwnerInv(w, w.callers[q]);
    }
    forall q | 0 <= q < |w.callers| && q != p && w.callers[q].Waiting?
      ensures WaiterInv(w', w'.callers[q])
    {
      assert WaiterInv(w, w.callers[q]);
    }
  }

  lemma SaveKeeps(w: World, p: nat, result: string)
    requires Inv(w) && Enabled(w, Save(p, result))
    ensures Inv(Step(w, Save(p, result)))
  {
  }

  lemma AcquireKeeps(w: World, p: nat, readOk: bool)
    requires Inv(w) && Enabled(w, TryAcquire(p, readOk))
    ensures Inv(Step(w, TryAcquire(p, readOk)))
  {
    var id := w.callers[p].id;
    match Acquire(w.table, id, readOk, w.next).1
    case Cached(_) => QuietStepKeeps(w, p, Idle);
    case WaitOn(ch) => QuietStepKeeps(w, p, Waiting(id, ch));
    case Own => OwnKeeps(w, p, id);
  }

  lemma StepKeeps(w: World, op: Op)
    requires Inv(w) && Enabled(w, op)
    ensures Inv(Step(w, op))
  {
    match op
    case Start(p, id) => QuietStepKeeps(w, p, Acquiring(id));
    case TryAcquire(p, readOk) => AcquireKeeps(w, p, readOk);
    case Wake(p) => QuietStepKeeps(w, p, Acquiring(w.callers[p].id));
    case Cancel(p) => QuietStepKeeps(w, p, Idle);
    case Save(p, result) => SaveKeeps(w, p, result);
    case Discharge(p) => DischargeKeeps(w, p);
  }

  lemma {:induction false} ReachableInv(w: World, n: nat)
    requires Reachable(w, n)
    ensures Inv(w)
    decreases n
  {
    if n > 0 {
      var w0, op :| Reachable(w0, n - 1) && Enabled(w0, op) && w == Step(w0, op);
      ReachableInv(w0, n - 1);
      StepKeeps(w0, op);
    }
  }

  /**
   * In every reachable state a session's key has at most one owner, an owner's channel is open, so that it is closed
   * once, and a waiter either can wake up or does so after one release by the owner it waits for.
   */
  lemma OwnersAndWaiters(w: World, n: nat, p: nat, q: nat) returns (owner: nat)
    requires Reachable(w, n) && p < |w.callers| && q < |w.callers|
    ensures w.callers[p].Owning? && w.callers[q].Owning? && w.callers[p].id == w.callers[q].id ==> p == q
    ensures w.callers[p].Owning? ==> w.callers[p].ch !in w.table.closed
    ensures w.callers[p].Waiting? ==>
              Enabled(w, Wake(p))
              || (owner != p && Enabled(w, Discharge(owner)) && Enabled(Step(w, Discharge(owner)), Wake(p)))
  {
    ReachableInv(w, n);
    owner := p;
    if w.callers[p].Waiting? && w.callers[p].ch !in w.table.closed {
      var k := InflightKey(w.callers[p].id);
      assert WaiterInv(w, w.callers[p]) && HeldBySome(w, k, w.table.inflight[k]);
      owner :| 0 <= owner < |w.callers| && Holds(w.callers[owner], k, w.table.inflight[k]);
    }
    if w.callers[p].Owning? && w.callers[q].Owning? && w.callers[p].id == w.callers[q].id {
      assert OwnerInv(w, w.callers[p]) && OwnerInv(w, w.callers[q]);
    }
  }

  /** A caller becomes owner exactly when no result is read and the key is not in flight. */
  lemma OwnershipExactly(w: World, n: nat, p: nat, readOk: bool)
    requires Reachable(w, n) && Enabled(w, TryAcquire(p, readOk))
    ensures var id := w.callers[p].id;
            Step(w, TryAcquire(p, readOk)).callers[p].Owning? <==>
            && (readOk ==> id !in w.table.saved || w.table.saved[id] == "")
            && forall q :: 0 <= q < |w.callers| && w.callers[q].Owning? ==>
                 InflightKey(w.callers[q].id) != InflightKey(id)
  {
    ReachableInv(w, n);
    var k := InflightKey(w.callers[p].id);
    if k in w.table.inflight {
      assert HeldBySome(w, k, w.table.inflight[k]);
    }
    assert forall q :: 0 <= q < |w.callers| && w.callers[q].Owning? ==> OwnerInv(w, w.callers[q]);
  }

  ghost predicate ReadsSucceed(ops: seq<Op>) {
    forall i :: 0 <= i < |ops| && ops[i].TryAcquire? ==> ops[i].readOk
  }

  ghost predicate SavesAreResults(ops: seq<Op>) {
    forall i :: 0 <= i < |ops| && ops[i].Save? ==> ops[i].result != ""
  }

  ghost predicate Leads(w: World, ops: seq<Op>, w': World)
    decreases |ops|
  {
    if ops == [] then w == w' else Enabled(w, ops[0]) && Leads(Step(w, ops[0]), ops[1..], w')
  }

  /** Once a result is saved, and as long as reads succeed, nobody becomes owner of that session's key any more. */
  lemma {:induction false} SavedIsFinal(w: World, ops: seq<Op>, w': World, id: Id, p: nat)
    requires Leads(w, ops, w') && ReadsSucceed(ops) && SavesAreResults(ops)
    requires id in w.table.saved && w.table.saved[id] != "" && p < |w.callers|
    ensures id in w'.table.saved && w'.table.saved[id] != "" && |w'.callers| == |w.callers|
    ensures w'.callers[p].Owning? && w'.callers[p].id == id ==> w.callers[p] == w'.callers[p]
    decreases |ops|
  {
    if ops != [] {
      assert ReadsSucceed(ops[1..]) && SavesAreResults(ops[1..]) by {
        assert forall i :: 0 <= i < |ops| - 1 ==> ops[1..][i] == ops[i + 1];
      }
      SavedIsFinal(Step(w, ops[0]), ops[1..], w', id, p);
    }
  }

  /** `b` continues the session of `a`: the colon that ends `a`'s session stands inside `b`'s. */
  ghost predicate Continues(a: Id, b: Id, middle: string) {
    b.session == a.session + ":" + middle && a.key == middle + ":" + b.key
  }

  lemma ShorterSessionClash(a: Id, b: Id)
    requires |a.session| < |b.session|
    ensures InflightKey(a) == InflightKey(b) <==> exists middle :: Continues(a, b, middle)
  {
    var n := |a.session|;
    if InflightKey(a) == InflightKey(b) {
      var full, middle := InflightKey(b), b.session[n + 1..];
      assert a.session == full[..n] == b.session[..n] && full[n] == ':' == b.session[n];
      assert b.session == b.session[..n] + [b.session[n]] + middle;
      assert a.key == full[n + 1..] == middle + ":" + b.key;
      assert Continues(a, b, middle);
    }
    if middle :| Continues(a, b, middle) {
      assert InflightKey(a) == a.session + ":" + (middle + ":" + b.key) == a.session + ":" + middle + ":" + b.key;
    }
  }

  /**
   * Two requests share an in-flight key exactly if they are the same, or the session of one continues that of the
   * other behind a colon, and its key lacks what was added. Sessions without a colon never clash.
   */
  lemma InflightKeysClashExactly(a: Id, b: Id)
    ensures InflightKey(a) == InflightKey(b) <==>
            a == b || (exists middle :: Continues(a, b, middle)) || (exists middle :: Continues(b, a, middle))
    ensures ':' !in a.session && ':' !in b.session && InflightKey(a) == InflightKey(b) ==> a == b
  {
    if |a.session| < |b.session| {
      ShorterSessionClash(a, b);
    } else if |b.session| < |a.session| {
      ShorterSessionClash(b, a);
    } else {
      assert InflightKey(a)[..|a.session|] == a.session && InflightKey(a)[|a.session| + 1..] == a.key;
      assert InflightKey(b)[..|b.session|] == b.session && InflightKey(b)[|b.session| + 1..] == b.key;
    }
    ContinuesNeedsColon(a, b);
    ContinuesNeedsColon(b, a);
  }

  lemma ContinuesNeedsColon(a: Id, b: Id)
    ensures forall middle :: Continues(a, b, middle) ==> ':' in b.session && |a.session| < |b.session|
  {
    forall middle | Continues(a, b, middle)
      ensures ':' in b.session
    {
      assert b.session[|a.session|] == ':';
    }
  }

  /** Requests that clash wait for each other, but their results stay apart. */
  lemma ClashingRequestsWait(t: Table, a: Id, b: Id, made: Channel)
    requires InflightKey(a) == InflightKey(b) && InflightKey(a) !in t.inflight && a !in t.saved && b !in t.saved
    ensures var (t', r) := Acquire(t, a, true, made);
            r == Own && Acquire(t', b, true, made + 1).1 == WaitOn(made)
  {
  }

  /**
   * What a caller gets: the saved result, if one is read; else the channel of the owner that shares its in-flight key;
   * else ownership. An owner that releases frees its key and wakes its waiters; what it saved is what others read.
   */
  lemma AcquireExactly(w: World, n: nat, p: nat, readOk: bool)
    requires Reachable(w, n) && Enabled(w, TryAcquire(p, readOk))
    ensures var id, after := w.callers[p].id, Step(w, TryAcquire(p, readOk));
            var result := if readOk && id in w.table.saved then w.table.saved[id] else "";
            && p < |after.callers| && after.table.saved == w.table.saved && after.table.closed == w.table.closed
            && (after.callers[p].Idle? <==> result != "")
            && (after.callers[p].Waiting? <==> result == "" && SharesKey(w, id))
            && (after.callers[p].Waiting? ==>
                  exists q :: 0 <= q < |w.callers| && w.callers[q].Owning?
                              && w.callers[q].id.session + ":" + w.callers[q].id.key == id.session + ":" + id.key
                              && w.callers[q].ch == after.callers[p].ch)
  {
    ReachableInv(w, n);
    var k := InflightKey(w.callers[p].id);
    if k in w.table.inflight {
      assert HeldBySome(w, k, w.table.inflight[k]);
    }
    assert forall q :: 0 <= q < |w.callers| && w.callers[q].Owning? ==> OwnerInv(w, w.callers[q]);
  }

  ghost predicate SharesKey(w: World, id: Id) {
    exists q :: 0 <= q < |w.callers| && w.callers[q].Owning?
                && w.callers[q].id.session + ":" + w.callers[q].id.key == id.session + ":" + id.key
  }

  lemma ReleaseExactly(w: World, n: nat, p: nat, result: string)
    requires Reachable(w, n) && p < |w.callers| && w.callers[p].Owning?
    ensures var id, after := w.callers[p].id, Step(w, Discharge(p));
            && after.callers == w.callers[p := Idle] && !SharesKey(after, id)
            && after.table.closed == w.table.closed + {w.callers[p].ch} && after.table.saved == w.table.saved
    ensures var id, after := w.callers[p].id, Step(w, Save(p, result));
            after.callers == w.callers && after.table == w.table.(saved := w.table.saved[id := result])
  {
    ReachableInv(w, n);
    var id := w.callers[p].id;
    forall q | 0 <= q < |w.callers| && q != p && w.callers[q].Owning?
      ensures InflightKey(w.callers[q].id) != InflightKey(id)
    {
      assert OwnerInv(w, w.callers[q]) && OwnerInv(w, w.callers[p]);
    }
  }
}
