/** Any number of callers around one idempotency cache: owners, waiters and the closing of channels. */
module IdempotencyProtocol {
  import opened Text
  import opened IdempotencyCache

  /**
   * Where a caller is: about to take the lock of `beginOrWait`, blocked on a channel, running the handler as owner,
   * or past `finish`/`abort`'s critical section but before the close of the channel.
   */
  datatype Caller =
    | Idle
    | Entering(key: string)
    | Waiting(key: string, ch: Channel)
    | Owning(key: string, ch: Channel)
    | Closing(ch: Channel)

  datatype World = World(
    cache: Cache, callers: seq<Caller>, closed: set<Channel>, nextChannel: nat, nextSerial: nat, now: int)

  datatype Limits = Limits(ttl: int, maxItems: nat)

  datatype Op =
    | Tick(to: int)
    | Start(p: nat, key: string)
    | Enter(p: nat)
    | Wake(p: nat)
    | FinishOp(p: nat, status: int, body: string)
    | AbortOp(p: nat)
    | Close(p: nat)

  predicate Enabled(w: World, op: Op) {
    if op.Tick? then w.now <= op.to
    else
      op.p < |w.callers|
      && match op
         case Start(p, _) => w.callers[p].Idle?
         case Enter(p) => w.callers[p].Entering?
         case Wake(p) => w.callers[p].Waiting? && w.callers[p].ch in w.closed
         case FinishOp(p, _, _) => w.callers[p].Owning?
         case AbortOp(p) => w.callers[p].Owning?
         case Close(p) => w.callers[p].Closing?
  }

  function NewElement(lim: Limits, w: World, key: string, status: int, body: string): Element {
    Element(w.nextSerial, Entry(key, status, body, w.now + lim.ttl))
  }

  function AfterUnlock(ch: Option<Channel>): Caller {
    if ch.Some? then Closing(ch.value) else Idle
  }

  function Step(lim: Limits, w: World, op: Op): World
    requires Enabled(w, op)
  {
    match op
    case Tick(to) => w.(now := to)
    case Start(p, key) => w.(callers := w.callers[p := Entering(key)])
    case Enter(p) =>
      var key := w.callers[p].key;
      var (cache, r) := Begin(w.cache, key, w.now, w.nextChannel);
      (match r
       case Replay(_, _) => w.(cache := cache, callers := w.callers[p := Idle])
       case WaitOn(ch) => w.(cache := cache, callers := w.callers[p := Waiting(key, ch)])
       case Own =>
         w.(cache := cache, callers := w.callers[p := Owning(key, w.nextChannel)], nextChannel := w.nextChannel + 1))
    case Wake(p) => w.(callers := w.callers[p := Entering(w.callers[p].key)])
    case FinishOp(p, status, body) =>
      var el := NewElement(lim, w, w.callers[p].key, status, body);
      var (cache, ch) := Finish(w.cache, el, lim.maxItems);
      w.(cache := cache, callers := w.callers[p := AfterUnlock(ch)], nextSerial := w.nextSerial + 1)
    case AbortOp(p) =>
      var (cache, ch) := TakeChannel(w.cache, w.callers[p].key);
      w.(cache := cache, callers := w.callers[p := AfterUnlock(ch)])
    case Close(p) =>
      w.(closed := w.closed + {w.callers[p].ch}, callers := w.callers[p := Idle])
  }

  function Initial(callers: nat, now: int): World {
    World(EMPTY_CACHE, seq(callers, i => Idle), {}, 0, 0, now)
  }

  /** `w` is reached by some run: `n` enabled operations from an empty cache with all callers idle. */
  ghost predicate Reachable(lim: Limits, w: World, n: nat)
    decreases n
  {
    if n == 0 then exists callers: nat, now :: w == Initial(callers, now)
    else exists w0, op :: Reachable(lim, w0, n - 1) && Enabled(w0, op) && w == Step(lim, w0, op)
  }

  // ---------------------------------------------------------------- the invariant

  predicate Holds(c: Caller, ch: Channel) {
    (c.Owning? || c.Closing?) && c.ch == ch
  }

  ghost predicate HeldBySome(w: World, ch: Channel) {
    exists q :: 0 <= q < |w.callers| && Holds(w.callers[q], ch)
  }

  ghost predicate CacheInv(lim: Limits, w: World) {
    && Consistent(w.cache, lim.maxItems)
    && (forall el :: el in w.cache.order ==> el.entry.expiresAt <= w.now + lim.ttl && el.serial < w.nextSerial)
  }

  /** An owned key is in flight on its owner's channel and has no cached result. */
  ghost predicate OwnersInv(w: World) {
    && (forall p :: 0 <= p < |w.callers| && w.callers[p].Owning? ==>
          w.callers[p].key in w.cache.inflight && w.cache.inflight[w.callers[p].key] == w.callers[p].ch
          && w.callers[p].key !in w.cache.items)
    && (forall k :: k in w.cache.inflight ==> OwnedBySome(w, k, w.cache.inflight[k]))
  }

  /** Every channel is held by at most one caller, and a held channel is open. */
  ghost predicate ChannelsInv(w: World) {
    && (forall ch :: ch in w.closed ==> ch < w.nextChannel)
    && (forall p :: 0 <= p < |w.callers| && (w.callers[p].Owning? || w.callers[p].Closing?) ==>
          w.callers[p].ch < w.nextChannel && w.callers[p].ch !in w.closed)
    && (forall p, q :: 0 <= p < q < |w.callers| && (w.callers[p].Owning? || w.callers[p].Closing?) ==>
          !Holds(w.callers[q], w.callers[p].ch))
  }

  /** A waiter's channel is closed already, or somebody holds it and will close it. */
  ghost predicate WaitersInv(w: World) {
    forall p :: 0 <= p < |w.callers| && w.callers[p].Waiting? ==>
      w.callers[p].ch in w.closed || HeldBySome(w, w.callers[p].ch)
  }

  ghost predicate Inv(lim: Limits, w: World) {
    CacheInv(lim, w) && OwnersInv(w) && ChannelsInv(w) && WaitersInv(w)
  }

  // ---------------------------------------------------------------- every step keeps it

  ghost predicate OnlyMoves(w: World, w': World, p: nat) {
    && p < |w.callers| && |w'.callers| == |w.callers|
    && forall q :: 0 <= q < |w.callers| && q != p ==> w'.callers[q] == w.callers[q]
  }

  /** A channel keeps its holder unless that is the one caller that moved. */
  lemma WaitersStay(w: World, w': World, p: nat)
    requires WaitersInv(w) && OnlyMoves(w, w', p) && w.closed <= w'.closed
    requires w.callers[p].Owning? || w.callers[p].Closing? ==>
      Holds(w'.callers[p], w.callers[p].ch) || w.callers[p].ch in w'.closed
    requires w'.callers[p].Waiting? ==> w'.callers[p].ch in w'.closed || HeldBySome(w', w'.callers[p].ch)
    ensures WaitersInv(w')
  {
  }

  ghost predicate OwnedBySome(w: World, k: string, ch: Channel) {
    exists p :: 0 <= p < |w.callers| && w.callers[p] == Owning(k, ch)
  }

  lemma OwnersStay(w: World, w': World, p: nat, k: string, ch: Channel)
    requires OnlyMoves(w, w', p) && OwnedBySome(w, k, ch)
    requires w.callers[p] == Owning(k, ch) ==> w'.callers[p] == Owning(k, ch)
    ensures OwnedBySome(w', k, ch)
  {
  }

  /** Steps that leave the cache and the channels alone, and move one caller that holds no channel. */
  lemma QuietStepKeeps(lim: Limits, w: World, p: nat, c: Caller)
    requires Inv(lim, w) && p < |w.callers|
    requires !w.callers[p].Owning? && !w.callers[p].Closing? && !c.Owning? && !c.Closing?
    requires c.Waiting? ==> c.ch in w.closed || HeldBySome(w, c.ch)
    ensures Inv(lim, w.(callers := w.callers[p := c]))
  {
    var w' := w.(callers := w.callers[p := c]);
    forall k | k in w'.cache.inflight
      ensures OwnedBySome(w', k, w'.cache.inflight[k])
    {
      OwnersStay(w, w', p, k, w.cache.inflight[k]);
    }
    if c.Waiting? && c.ch !in w.closed {
      var r :| 0 <= r < |w.callers| && Holds(w.callers[r], c.ch);
      assert Holds(w'.callers[r], c.ch);
    }
    WaitersStay(w, w', p);
  }

  /** Dropping an expired entry disturbs no owner: an owned key has no entry. */
  lemma DropKeeps(lim: Limits, w: World, key: string)
    requires Inv(lim, w)
    ensures Inv(lim, w.(cache := DropExpired(w.cache, key)))
  {
    DropExpiredConsistent(w.cache, key, lim.maxItems);
    var w' := w.(cache := DropExpired(w.cache, key));
    assert forall ch :: HeldBySome(w, ch) <==> HeldBySome(w', ch);
  }

  lemma OwnKeeps(lim: Limits, w: World, p: nat, key: string)
    requires Inv(lim, w) && p < |w.callers| && w.callers[p] == Entering(key)
    requires key !in w.cache.items && key !in w.cache.inflight
    ensures Inv(lim, w.(cache := w.cache.(inflight := w.cache.inflight[key := w.nextChannel]),
                        callers := w.callers[p := Owning(key, w.nextChannel)], nextChannel := w.nextChannel + 1))
  {
    var w' := w.(cache := w.cache.(inflight := w.cache.inflight[key := w.nextChannel]),
                 callers := w.callers[p := Owning(key, w.nextChannel)], nextChannel := w.nextChannel + 1);
    forall k | k in w'.cache.inflight
      ensures OwnedBySome(w', k, w'.cache.inflight[k])
    {
      if k == key {
        assert w'.callers[p] == Owning(k, w'.cache.inflight[k]);
      } else {
        OwnersStay(w, w', p, k, w.cache.inflight[k]);
      }
    }
    WaitersStay(w, w', p);
  }

  lemma WaitKeeps(lim: Limits, w: World, p: nat, key: string)
    requires Inv(lim, w) && p < |w.callers| && w.callers[p] == Entering(key) && key in w.cache.inflight
    ensures Inv(lim, w.(callers := w.callers[p := Waiting(key, w.cache.inflight[key])]))
  {
    var ch := w.cache.inflight[key];
    var q :| 0 <= q < |w.callers| && w.callers[q] == Owning(key, ch);
    assert Holds(w.callers[q], ch);
    QuietStepKeeps(lim, w, p, Waiting(key, ch));
  }

  lemma EnterWithoutResultKeeps(lim: Limits, w: World, p: nat)
    requires Inv(lim, w) && Enabled(w, Enter(p)) && w.callers[p].key !in w.cache.items
    ensures Inv(lim, Step(lim, w, Enter(p)))
  {
    var key := w.callers[p].key;
    if key in w.cache.inflight {
      WaitKeeps(lim, w, p, key);
    } else {
      OwnKeeps(lim, w, p, key);
    }
  }

  lemma EnterKeeps(lim: Limits, w: World, p: nat)
    requires Inv(lim, w) && Enabled(w, Enter(p))
    ensures Inv(lim, Step(lim, w, Enter(p)))
  {
    var key := w.callers[p].key;
    if key in w.cache.items && w.now < w.cache.items[key].entry.expiresAt {
      QuietStepKeeps(lim, w, p, Idle);
    } else {
      var dropped := w.(cache := DropExpired(w.cache, key));
      DropKeeps(lim, w, key);
      assert Begin(dropped.cache, key, w.now, w.nextChannel) == Begin(w.cache, key, w.now, w.nextChannel);
      assert Step(lim, dropped, Enter(p)) == Step(lim, w, Enter(p));
      EnterWithoutResultKeeps(lim, dropped, p);
    }
  }

  /** The critical section of `finish` and `abort`: the reservation goes, its channel stays in the caller's hands. */
  lemma ReleaseKeeps(lim: Limits, w: World, p: nat, cache: Cache, nextSerial: nat)
    requires Inv(lim, w) && p < |w.callers| && w.callers[p].Owning? && nextSerial >= w.nextSerial
    requires Consistent(cache, lim.maxItems)
    requires forall el :: el in cache.order ==> el.entry.expiresAt <= w.now + lim.ttl && el.serial < nextSerial
    requires cache.inflight == w.cache.inflight - {w.callers[p].key}
    requires forall k :: k in cache.items ==> k in w.cache.items || k == w.callers[p].key
    ensures Inv(lim, w.(cache := cache, callers := w.callers[p := Closing(w.callers[p].ch)], nextSerial := nextSerial))
  {
    var key, ch := w.callers[p].key, w.callers[p].ch;
    var w' := w.(cache := cache, callers := w.callers[p := Closing(ch)], nextSerial := nextSerial);
    forall q | 0 <= q < |w.callers| && q != p && w.callers[q].Owning?
      ensures w.callers[q].key != key
    {
      assert Holds(w.callers[p], ch) && Holds(w.callers[q], w.callers[q].ch);
    }
    forall k | k in cache.inflight
      ensures OwnedBySome(w', k, w'.cache.inflight[k])
    {
      OwnersStay(w, w', p, k, w.cache.inflight[k]);
    }
    WaitersStay(w, w', p);
  }

  lemma FinishKeeps(lim: Limits, w: World, op: Op)
    requires Inv(lim, w) && lim.maxItems > 0 && op.FinishOp? && Enabled(w, op)
    ensures Inv(lim, Step(lim, w, op))
  {
    var el := NewElement(lim, w, w.callers[op.p].key, op.status, op.body);
    FinishedCache(w.cache, el, lim.maxItems);
    ReleaseKeeps(lim, w, op.p, Finish(w.cache, el, lim.maxItems).0, w.nextSerial + 1);
  }

  lemma CloseKeeps(lim: Limits, w: World, p: nat)
    requires Inv(lim, w) && Enabled(w, Close(p))
    ensures Inv(lim, Step(lim, w, Close(p)))
  {
    var w', ch := Step(lim, w, Close(p)), w.callers[p].ch;
    forall k | k in w'.cache.inflight
      ensures OwnedBySome(w', k, w'.cache.inflight[k])
    {
      OwnersStay(w, w', p, k, w.cache.inflight[k]);
    }
    WaitersStay(w, w', p);
    forall q | 0 <= q < |w'.callers| && (w'.callers[q].Owning? || w'.callers[q].Closing?)
      ensures w'.callers[q].ch != ch
    {
      assert Holds(w.callers[p], ch) && Holds(w.callers[q], w.callers[q].ch);
    }
  }

  lemma StepKeeps(lim: Limits, w: World, op: Op)
    requires Inv(lim, w) && lim.maxItems > 0 && Enabled(w, op)
    ensures Inv(lim, Step(lim, w, op))
  {
    match op
    case Tick(to) =>
      assert forall ch :: HeldBySome(w, ch) <==> HeldBySome(Step(lim, w, op), ch);
    case Start(p, key) => QuietStepKeeps(lim, w, p, Entering(key));
    case Enter(p) => EnterKeeps(lim, w, p);
    case Wake(p) => QuietStepKeeps(lim, w, p, Entering(w.callers[p].key));
    case FinishOp(p, status, body) => FinishKeeps(lim, w, op);
    case AbortOp(p) => ReleaseKeeps(lim, w, p, TakeChannel(w.cache, w.callers[p].key).0, w.nextSerial);
    case Close(p) => CloseKeeps(lim, w, p);
  }

  lemma {:induction false} ReachableInv(lim: Limits, w: World, n: nat)
    requires lim.maxItems > 0 && Reachable(lim, w, n)
    ensures Inv(lim, w)
    decreases n
  {
    if n > 0 {
      var w0, op :| Reachable(lim, w0, n - 1) && Enabled(w0, op) && w == Step(lim, w0, op);
      ReachableInv(lim, w0, n - 1);
      StepKeeps(lim, w0, op);
    }
  }

  // ---------------------------------------------------------------- what it means

  /** In every reachable state a key has at most one owner, and a channel about to be closed is open. */
  lemma SoleOwner(lim: Limits, w: World, n: nat, p: nat, q: nat)
    requires lim.maxItems > 0 && Reachable(lim, w, n) && p < |w.callers| && q < |w.callers|
    ensures w.callers[p].Owning? && w.callers[q].Owning? && w.callers[p].key == w.callers[q].key ==> p == q
    ensures w.callers[p].Closing? ==> w.callers[p].ch !in w.closed
  {
    ReachableInv(lim, w, n);
    if w.callers[p].Owning? && w.callers[q].Owning? && w.callers[p].key == w.callers[q].key {
      assert Holds(w.callers[q], w.callers[p].ch) && Holds(w.callers[p], w.callers[q].ch);
    }
  }

  predicate AllEnabled(lim: Limits, w: World, ops: seq<Op>)
    decreases |ops|
  {
    ops == [] || (Enabled(w, ops[0]) && AllEnabled(lim, Step(lim, w, ops[0]), ops[1..]))
  }

  function RunFrom(lim: Limits, w: World, ops: seq<Op>): World
    requires AllEnabled(lim, w, ops)
    decreases |ops|
  {
    if ops == [] then w else RunFrom(lim, Step(lim, w, ops[0]), ops[1..])
  }

  /**
   * No waiter is stranded: in every reachable state, at most two steps of one other caller (the one that holds the
   * channel) close the channel a waiter waits on, and then the waiter can wake up.
   */
  lemma NoWaiterIsStranded(lim: Limits, w: World, n: nat, p: nat) returns (ops: seq<Op>)
    requires lim.maxItems > 0 && Reachable(lim, w, n) && p < |w.callers| && w.callers[p].Waiting?
    ensures |ops| <= 2 && AllEnabled(lim, w, ops)
    ensures forall i :: 0 <= i < |ops| ==> (ops[i].AbortOp? || ops[i].Close?) && ops[i].p != p
    ensures Enabled(RunFrom(lim, w, ops), Wake(p))
  {
    ReachableInv(lim, w, n);
    var ch := w.callers[p].ch;
    if ch in w.closed {
      ops := [];
    } else {
      var q :| 0 <= q < |w.callers| && Holds(w.callers[q], ch);
      if w.callers[q].Closing? {
        ops := [Close(q)];
        assert ops[1..] == [];
      } else {
        ops := [AbortOp(q), Close(q)];
        var w1 := Step(lim, w, AbortOp(q));
        assert w1.callers[q] == Closing(ch) && w1.callers[p] == w.callers[p];
        assert ops[1..] == [Close(q)] && ops[1..][1..] == [];
        assert RunFrom(lim, w, ops) == RunFrom(lim, w1, ops[1..]) == Step(lim, w1, Close(q));
      }
    }
  }

  /** List and map agree, keys are distinct, the bound holds, and the last element is the one that expires first. */
  lemma CacheIsConsistent(lim: Limits, w: World, n: nat)
    requires lim.maxItems > 0 && Reachable(lim, w, n)
    ensures Consistent(w.cache, lim.maxItems)
    ensures |w.cache.order| > 0 ==>
      forall el :: el in w.cache.order ==> w.cache.order[|w.cache.order| - 1].entry.expiresAt <= el.entry.expiresAt
  {
    ReachableInv(lim, w, n);
    LastExpiresFirst(w.cache.order);
  }

  /**
   * Exactly once: while a recorded result is cached and has not expired, nobody owns its key, nobody can become its
   * owner, and whoever asks gets the recorded status and body.
   */
  lemma RecordedResultIsReplayed(lim: Limits, w: World, n: nat, el: Element, p: nat)
    requires lim.maxItems > 0 && Reachable(lim, w, n)
    requires el in w.cache.order && w.now < el.entry.expiresAt
    ensures forall q :: 0 <= q < |w.callers| ==> !(w.callers[q].Owning? && w.callers[q].key == el.entry.key)
    ensures p < |w.callers| && w.callers[p] == Entering(el.entry.key) ==>
      Begin(w.cache, el.entry.key, w.now, w.nextChannel) == (w.cache, Replay(el.entry.status, el.entry.body))
      && Step(lim, w, Enter(p)) == w.(callers := w.callers[p := Idle])
  {
    ReachableInv(lim, w, n);
  }

  /**
   * A recorded result leaves the cache in two ways only: somebody asks for its key after it expired, or the cache is
   * full, it is the earliest to expire, and another result is recorded. `finish` itself always puts its result in.
   */
  lemma HowResultsLeave(lim: Limits, w: World, n: nat, op: Op, el: Element)
    requires lim.maxItems > 0 && Reachable(lim, w, n) && Enabled(w, op) && el in w.cache.order
    ensures el in Step(lim, w, op).cache.order
         || (op.Enter? && w.callers[op.p].key == el.entry.key && w.now >= el.entry.expiresAt)
         || (op.FinishOp? && |w.cache.order| == lim.maxItems && el == w.cache.order[|w.cache.order| - 1])
    ensures op.FinishOp? ==>
      NewElement(lim, w, w.callers[op.p].key, op.status, op.body) in Step(lim, w, op).cache.order
  {
    ReachableInv(lim, w, n);
    if op.FinishOp? {
      FinishLeaves(lim, w, op, el);
    } else if op.Enter? {
      EnterLeaves(lim, w, op.p, el);
    }
  }

  lemma EnterLeaves(lim: Limits, w: World, p: nat, el: Element)
    requires Consistent(w.cache, lim.maxItems) && Enabled(w, Enter(p)) && el in w.cache.order
    ensures el in Step(lim, w, Enter(p)).cache.order
         || (w.callers[p].key == el.entry.key && w.now >= el.entry.expiresAt)
  {
    var key := w.callers[p].key;
    DropExpiredConsistent(w.cache, key, lim.maxItems);
    assert Begin(w.cache, key, w.now, w.nextChannel).0.order in {w.cache.order, DropExpired(w.cache, key).order};
  }

  lemma FinishLeaves(lim: Limits, w: World, op: Op, el: Element)
    requires Inv(lim, w) && lim.maxItems > 0 && op.FinishOp? && Enabled(w, op) && el in w.cache.order
    ensures el in Step(lim, w, op).cache.order
         || (|w.cache.order| == lim.maxItems && el == w.cache.order[|w.cache.order| - 1])
    ensures NewElement(lim, w, w.callers[op.p].key, op.status, op.body) in Step(lim, w, op).cache.order
  {
    WhoIsEvicted(w.cache, NewElement(lim, w, w.callers[op.p].key, op.status, op.body), lim.maxItems, el);
  }

  // ---------------------------------------------------------------- what a caller gets

  /** A result for the key is cached and has not expired. */
  ghost predicate Live(w: World, key: string) {
    exists el :: el in w.cache.order && el.entry.key == key && w.now < el.entry.expiresAt
  }

  ghost predicate Owned(w: World, key: string) {
    exists q :: 0 <= q < |w.callers| && w.callers[q].Owning? && w.callers[q].key == key
  }

  lemma LiveExactly(lim: Limits, w: World, key: string)
    requires Inv(lim, w)
    ensures Live(w, key) <==> key in w.cache.items && w.now < w.cache.items[key].entry.expiresAt
    ensures Owned(w, key) <==> key in w.cache.inflight
  {
    if key in w.cache.inflight {
      var q :| 0 <= q < |w.callers| && w.callers[q] == Owning(key, w.cache.inflight[key]);
      assert w.callers[q].Owning? && w.callers[q].key == key;
    }
  }

  lemma AfterDrop(lim: Limits, w: World, p: nat)
    requires Inv(lim, w) && p < |w.callers| && w.callers[p].Entering?
    ensures var key, after := w.callers[p].key, Step(lim, w, Enter(p)).cache.order;
            && (Live(w, key) ==> after == w.cache.order)
            && (!Live(w, key) ==> forall el :: el in after <==> el in w.cache.order && el.entry.key != key)
  {
    var key := w.callers[p].key;
    LiveExactly(lim, w, key);
    DropExpiredConsistent(w.cache, key, lim.maxItems);
  }

  /**
   * A caller that asks for a key becomes its owner if and only if no unexpired result is cached and nobody owns the
   * key. With an unexpired result it is done at once; with an owner and no such result it waits on the owner's channel.
   * After the step no expired result for the key is left, and the results of other keys are untouched.
   */
  lemma EnterExactly(lim: Limits, w: World, n: nat, p: nat)
    requires lim.maxItems > 0 && Reachable(lim, w, n) && p < |w.callers| && w.callers[p].Entering?
    ensures var key, after := w.callers[p].key, Step(lim, w, Enter(p));
            && p < |after.callers|
            && (after.callers[p].Owning? <==> !Live(w, key) && !Owned(w, key))
            && (after.callers[p].Idle? <==> Live(w, key))
            && (after.callers[p].Waiting? <==> !Live(w, key) && Owned(w, key))
            && (after.callers[p].Waiting? ==>
                  exists q :: 0 <= q < |w.callers| && w.callers[q] == Owning(key, after.callers[p].ch))
    ensures var key, after := w.callers[p].key, Step(lim, w, Enter(p));
            && (forall el :: el in after.cache.order && el.entry.key == key ==> w.now < el.entry.expiresAt)
            && (forall el: Element :: el.entry.key != key ==> (el in after.cache.order <==> el in w.cache.order))
  {
    var key := w.callers[p].key;
    ReachableInv(lim, w, n);
    LiveExactly(lim, w, key);
    AfterDrop(lim, w, p);
    if !Live(w, key) && Owned(w, key) {
      assert OwnedBySome(w, key, w.cache.inflight[key]);
    }
    assert forall el :: el in w.cache.order && el.entry.key == key ==> w.cache.items[key] == el;
  }

  /**
   * A caller that owns a key and finishes leaves its status and body under the key, to be replayed for exactly the
   * time to live; one that aborts leaves nothing. Either way the key is free afterwards, and the caller goes on to
   * close the channel that the waiters wait on.
   */
  lemma ReleaseExactly(lim: Limits, w: World, n: nat, p: nat, status: int, body: string)
    requires lim.maxItems > 0 && Reachable(lim, w, n) && p < |w.callers| && w.callers[p].Owning?
    ensures var key, after := w.callers[p].key, Step(lim, w, FinishOp(p, status, body));
            && p < |after.callers| && after.callers[p] == Closing(w.callers[p].ch) && !Owned(after, key)
            && after.cache.order != [] && after.cache.order[0].entry == Entry(key, status, body, w.now + lim.ttl)
    ensures var key, after := w.callers[p].key, Step(lim, w, AbortOp(p));
            && p < |after.callers| && after.callers[p] == Closing(w.callers[p].ch) && !Owned(after, key)
            && after.cache.order == w.cache.order
  {
    var key := w.callers[p].key;
    ReachableInv(lim, w, n);
    var el := NewElement(lim, w, key, status, body);
    FinishedCache(w.cache, el, lim.maxItems);
    RecordThenEvict(w.cache, el, lim.maxItems);
    StepKeeps(lim, w, FinishOp(p, status, body));
    StepKeeps(lim, w, AbortOp(p));
    LiveExactly(lim, Step(lim, w, FinishOp(p, status, body)), key);
    LiveExactly(lim, Step(lim, w, AbortOp(p)), key);
  }
}
