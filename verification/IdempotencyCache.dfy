/** The bounded, expiring result cache with in-flight reservations of internal/bridge/idempotency.go. */
module IdempotencyCache {
  import opened Text

  type Channel = nat

  datatype Entry = Entry(key: string, status: int, body: string, expiresAt: int)

  /** A list element; the serial number is its identity. */
  datatype Element = Element(serial: nat, entry: Entry)

  /** `order` is the linked list, front first; `items` and `inflight` are the two maps. */
  datatype Cache = Cache(order: seq<Element>, items: map<string, Element>, inflight: map<string, Channel>)

  datatype Outcome = Replay(status: int, body: string) | WaitOn(ch: Channel) | Own

  const EMPTY_CACHE := Cache([], map[], map[])

  // ---------------------------------------------------------------- the three critical sections

  /** `list.Remove`: the element with this identity, if it is there. */
  function Without(order: seq<Element>, el: Element): seq<Element> {
    if order == [] then []
    else if order[0] == el then order[1..]
    else [order[0]] + Without(order[1..], el)
  }

  function DropExpired(c: Cache, key: string): Cache {
    if key in c.items then c.(order := Without(c.order, c.items[key]), items := c.items - {key}) else c
  }

  /** One pass of the loop of `beginOrWait`, with the channel it makes if it takes ownership. */
  function Begin(c: Cache, key: string, now: int, made: Channel): (Cache, Outcome) {
    if key in c.items && now < c.items[key].entry.expiresAt then
      (c, Replay(c.items[key].entry.status, c.items[key].entry.body))
    else
      var dropped := DropExpired(c, key);
      if key in dropped.inflight then (dropped, WaitOn(dropped.inflight[key]))
      else (dropped.(inflight := dropped.inflight[key := made]), Own)
  }

  function Evict(c: Cache, maxItems: nat): Cache
    decreases |c.order|
  {
    if |c.order| <= maxItems then c
    else
      var back := c.order[|c.order| - 1];
      Evict(c.(order := c.order[..|c.order| - 1], items := c.items - {back.entry.key}), maxItems)
  }

  function Record(c: Cache, el: Element): Cache {
    c.(order := [el] + c.order, items := c.items[el.entry.key := el])
  }

  function TakeChannel(c: Cache, key: string): (Cache, Option<Channel>) {
    (c.(inflight := c.inflight - {key}), if key in c.inflight then Some(c.inflight[key]) else None)
  }

  /** The locked part of `finish`; the channel it returns is closed after unlocking. */
  function Finish(c: Cache, el: Element, maxItems: nat): (Cache, Option<Channel>) {
    TakeChannel(Evict(Record(c, el), maxItems), el.entry.key)
  }

  // ---------------------------------------------------------------- consistency

  ghost predicate DistinctKeys(order: seq<Element>) {
    forall i, j :: 0 <= i < j < |order| ==> order[i].entry.key != order[j].entry.key
  }

  ghost predicate LatestFirst(order: seq<Element>) {
    forall i, j :: 0 <= i < j < |order| ==> order[i].entry.expiresAt >= order[j].entry.expiresAt
  }

  /** List and map hold the same elements, each under its own key. */
  ghost predicate Agree(c: Cache) {
    && (forall el :: el in c.order ==> el.entry.key in c.items && c.items[el.entry.key] == el)
    && (forall k :: k in c.items ==> c.items[k] in c.order && c.items[k].entry.key == k)
  }

  ghost predicate Consistent(c: Cache, maxItems: nat) {
    Agree(c) && DistinctKeys(c.order) && LatestFirst(c.order) && |c.order| <= maxItems
  }

  lemma {:induction false} WithoutIsSublist(order: seq<Element>, el: Element)
    requires DistinctKeys(order) && LatestFirst(order)
    ensures var after := Without(order, el);
            && DistinctKeys(after) && LatestFirst(after) && |after| <= |order|
            && (forall x :: x in after <==> x in order && x != el)
  {
    if order != [] {
      if order[0] == el {
        assert forall x :: x in order <==> x == order[0] || x in order[1..];
        assert forall i :: 0 < i < |order| ==> order[i] != el;
      } else {
        WithoutIsSublist(order[1..], el);
        var rest := Without(order[1..], el);
        assert forall x :: x in order <==> x == order[0] || x in order[1..];
        assert forall i :: 0 <= i < |rest| ==> rest[i] in order[1..];
      }
    }
  }

  lemma DropExpiredConsistent(c: Cache, key: string, maxItems: nat)
    requires Consistent(c, maxItems)
    ensures Consistent(DropExpired(c, key), maxItems)
    ensures forall x :: x in DropExpired(c, key).order <==> x in c.order && x.entry.key != key
  {
    if key in c.items {
      WithoutIsSublist(c.order, c.items[key]);
    } else {
      assert forall x :: x in c.order ==> x.entry.key != key;
    }
  }

  ghost predicate WellOrdered(c: Cache) {
    Agree(c) && DistinctKeys(c.order) && LatestFirst(c.order)
  }

  lemma RecordKeepsOrder(c: Cache, el: Element)
    requires WellOrdered(c) && el.entry.key !in c.items
    requires forall x :: x in c.order ==> x.entry.expiresAt <= el.entry.expiresAt
    ensures WellOrdered(Record(c, el))
  {
    forall i | 0 <= i < |c.order|
      ensures c.order[i].entry.key != el.entry.key && c.order[i].entry.expiresAt <= el.entry.expiresAt
    {
      assert c.order[i] in c.order;
    }
  }

  lemma FrontOfCons(el: Element, order: seq<Element>)
    requires order != []
    ensures ([el] + order)[..|order|] == [el] + order[..|order| - 1]
  {
  }

  /** Recording a result under an absent key evicts at most one element: the last one, which expires first. */
  lemma RecordThenEvict(c: Cache, el: Element, maxItems: nat)
    requires Consistent(c, maxItems) && maxItems > 0 && el.entry.key !in c.items
    requires forall x :: x in c.order ==> x.entry.expiresAt <= el.entry.expiresAt
    ensures var after := Evict(Record(c, el), maxItems);
            && Consistent(after, maxItems) && after.inflight == c.inflight
            && after.order == (if |c.order| < maxItems then [el] + c.order else [el] + c.order[..|c.order| - 1])
  {
    RecordKeepsOrder(c, el);
    EvictOne(Record(c, el), maxItems);
    if |c.order| == maxItems {
      FrontOfCons(el, c.order);
    }
  }

  lemma {:induction false} EvictOnlyRemoves(c: Cache, maxItems: nat)
    ensures forall k :: k in Evict(c, maxItems).items ==> k in c.items
    decreases |c.order|
  {
    if |c.order| > maxItems {
      var back := c.order[|c.order| - 1];
      EvictOnlyRemoves(c.(order := c.order[..|c.order| - 1], items := c.items - {back.entry.key}), maxItems);
    }
  }

  /** The cache a `finish` leaves: consistent, with no element or key that was not there before, except the new one. */
  lemma FinishedCache(c: Cache, el: Element, maxItems: nat)
    requires Consistent(c, maxItems) && maxItems > 0 && el.entry.key !in c.items
    requires forall x :: x in c.order ==> x.entry.expiresAt <= el.entry.expiresAt
    ensures var after := Finish(c, el, maxItems).0;
            && Consistent(after, maxItems) && after.inflight == c.inflight - {el.entry.key}
            && (forall x :: x in after.order ==> x == el || x in c.order)
            && (forall k :: k in after.items ==> k in c.items || k == el.entry.key)
    ensures Finish(c, el, maxItems).1 == if el.entry.key in c.inflight then Some(c.inflight[el.entry.key]) else None
  {
    RecordThenEvict(c, el, maxItems);
    EvictOnlyRemoves(Record(c, el), maxItems);
  }

  lemma LastExpiresFirst(order: seq<Element>)
    requires LatestFirst(order)
    ensures forall el :: el in order ==> order[|order| - 1].entry.expiresAt <= el.entry.expiresAt
  {
  }

  /** The new result is in; of the old ones at most the last has gone, and only if the cache was full. */
  lemma WhoIsEvicted(c: Cache, added: Element, maxItems: nat, el: Element)
    requires Consistent(c, maxItems) && maxItems > 0 && added.entry.key !in c.items
    requires forall x :: x in c.order ==> x.entry.expiresAt <= added.entry.expiresAt
    requires el in c.order
    ensures var after := Evict(Record(c, added), maxItems).order;
            added in after && (el in after || (|c.order| == maxItems && el == c.order[|c.order| - 1]))
  {
    RecordThenEvict(c, added, maxItems);
    InFrontOrLast(c.order, el);
    InConcat(added, if |c.order| < maxItems then c.order else c.order[..|c.order| - 1]);
  }

  lemma InFrontOrLast(order: seq<Element>, el: Element)
    requires el in order
    ensures el in order[..|order| - 1] || el == order[|order| - 1]
  {
  }

  lemma InConcat(first: Element, rest: seq<Element>)
    ensures first in [first] + rest && forall x :: x in rest ==> x in [first] + rest
  {
  }

  lemma EvictOne(c: Cache, maxItems: nat)
    requires WellOrdered(c) && |c.order| <= maxItems + 1
    ensures var after := Evict(c, maxItems);
            && Consistent(after, maxItems) && after.inflight == c.inflight
            && after.order == if |c.order| <= maxItems then c.order else c.order[..maxItems]
  {
  }

  // ---------------------------------------------------------------- the key

  function FullKey(route: string, key: string): string {
    route + "\0" + key
  }

  /** Routes contain no NUL, so route and key can be read back from the combined key. */
  lemma FullKeyIsInjective(route: string, key: string, route': string, key': string)
    requires '\0' !in route && '\0' !in route'
    requires FullKey(route, key) == FullKey(route', key')
    ensures route == route' && key == key'
  {
    var full := FullKey(route, key);
    assert full[|route|] == '\0' && full[|route'|] == '\0';
    assert forall i :: 0 <= i < |route| ==> full[i] == route[i] && full[i] != '\0';
    assert forall i :: 0 <= i < |route'| ==> full[i] == route'[i] && full[i] != '\0';
    assert route == full[..|route|] && route' == full[..|route'|];
    assert key == full[|route| + 1..] && key' == full[|route'| + 1..];
  }

  // ---------------------------------------------------------------- the cache object

  /** In nanoseconds. */
  const TEN_MINUTES: int := 600_000_000_000

  const DEFAULT_MAX_ITEMS: nat := 10000

  class Idempotency {
    const ttl: int
    const maxItems: nat
    var order: seq<Element>
    var items: map<string, Element>
    var inflight: map<string, Channel>

    ghost function View(): Cache
      reads this
    {
      Cache(order, items, inflight)
    }

    /** Non-positive settings fall back to ten minutes and 10000 items. */
    constructor (ttl: int, maxItems: int)
      ensures View() == EMPTY_CACHE
      ensures this.ttl == if ttl > 0 then ttl else TEN_MINUTES
      ensures this.maxItems == if maxItems > 0 then maxItems else DEFAULT_MAX_ITEMS
    {
      this.ttl := if ttl <= 0 then TEN_MINUTES else ttl;
      this.maxItems := if maxItems <= 0 then DEFAULT_MAX_ITEMS else maxItems;
      order, items, inflight := [], map[], map[];
    }

    /** The critical section of `beginOrWait`; on WaitOn the caller waits for the channel and comes back. */
    method BeginLocked(key: string, now: int, made: Channel) returns (r: Outcome)
      modifies this
      ensures (View(), r) == Begin(old(View()), key, now, made)
    {
      if key in items {
        var entry := items[key].entry;
        if now < entry.expiresAt { return Replay(entry.status, entry.body); }
        order := Without(order, items[key]);
        items := items - {key};
      }
      if key in inflight { return WaitOn(inflight[key]); }
      inflight := inflight[key := made];
      return Own;
    }

    method FinishLocked(key: string, status: int, body: string, now: int, serial: nat) returns (ch: Option<Channel>)
      modifies this
      ensures (View(), ch) == Finish(old(View()), Element(serial, Entry(key, status, body, now + ttl)), maxItems)
    {
      var el := Element(serial, Entry(key, status, body, now + ttl));
      order := [el] + order;
      items := items[key := el];
      while |order| > maxItems
        invariant inflight == old(inflight)
        invariant Evict(View(), maxItems) == Evict(Record(old(View()), el), maxItems)
        decreases |order|
      {
        var back := order[|order| - 1];
        order := order[..|order| - 1];
        items := items - {back.entry.key};
      }
      ch := if key in inflight then Some(inflight[key]) else None;
      inflight := inflight - {key};
    }

    method AbortLocked(key: string) returns (ch: Option<Channel>)
      modifies this
      ensures (View(), ch) == TakeChannel(old(View()), key)
    {
      ch := if key in inflight then Some(inflight[key]) else None;
      inflight := inflight - {key};
    }
  }
}
