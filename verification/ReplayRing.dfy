/** The replay buffer of internal/bridge/websocket.go: a ring of 256 cells and a set of recent event ids. */
module ReplayRing {
  import opened Text

  const BUFFER_SIZE: nat := 256

  type Encoded = seq<int>

  datatype Recorded = Recorded(id: string, encoded: Encoded)

  function Bodies(events: seq<Recorded>): seq<Encoded> {
    seq(|events|, i requires 0 <= i < |events| => events[i].encoded)
  }

  /** The id set: it is emptied, not rebuilt from the ring, when it grows beyond twice the buffer. */
  function AddId(ids: set<string>, id: string): (r: set<string>)
    ensures |ids| <= 2 * BUFFER_SIZE ==> |r| <= 2 * BUFFER_SIZE
  {
    var more := ids + {id};
    if |more| > 2 * BUFFER_SIZE then {} else more
  }

  /** Event i of the history went to cell i modulo the buffer size, and was not overwritten if it is recent. */
  ghost predicate InCells(cells: seq<Option<Encoded>>, history: seq<Recorded>) {
    && |cells| == BUFFER_SIZE
    && (forall i :: 0 <= i < |history| && |history| - BUFFER_SIZE <= i ==>
          cells[i % BUFFER_SIZE] == Some(history[i].encoded))
    && (forall c :: |history| <= c < BUFFER_SIZE ==> cells[c] == None)
  }

  class Hub {
    var replay: array<Option<Encoded>>
    /** The cell to be written next. */
    var head: nat
    var replaySeq: set<string>
    ghost var history: seq<Recorded>

    ghost predicate Valid()
      reads this, replay
    {
      && InCells(replay[..], history) && head == |history| % BUFFER_SIZE && |replaySeq| <= 2 * BUFFER_SIZE
    }

    constructor ()
      ensures Valid() && fresh(replay) && history == []
    {
      replay := new Option<Encoded>[BUFFER_SIZE](_ => None);
      head, replaySeq, history := 0, {}, [];
    }

    method RecordForReplay(eventId: string, encoded: Encoded)
      requires Valid()
      modifies this`head, this`replaySeq, this`history, replay
      ensures Valid() && history == old(history) + [Recorded(eventId, encoded)]
      ensures replaySeq == AddId(old(replaySeq), eventId)
    {
      RecordKeepsCells(replay[..], history, Recorded(eventId, encoded));
      replay[head] := Some(encoded);
      head := if head + 1 == BUFFER_SIZE then 0 else head + 1;
      replaySeq := replaySeq + {eventId};
      if |replaySeq| > BUFFER_SIZE * 2 {
        replaySeq := {};
      }
      history := history + [Recorded(eventId, encoded)];
    }

    /** The recent events are exactly the last 256, or all if there are fewer, oldest first. */
    method RecentEvents() returns (out: seq<Encoded>)
      requires Valid()
      ensures out == if |history| <= 256 then Bodies(history) else Bodies(history)[|history| - 256..]
    {
      out := [];
      var i := 0;
      while i < BUFFER_SIZE
        invariant i <= BUFFER_SIZE
        invariant out == CollectFrom(replay[..], head, i)
      {
        var cell := replay[(head + i) % BUFFER_SIZE];
        if cell.Some? {
          out := out + [cell.value];
        }
        i := i + 1;
      }
      RecentExactly(replay[..], history, BUFFER_SIZE);
    }
  }

  /** One trip around the ring from the cell to be written next, skipping empty cells. */
  function CollectFrom(cells: seq<Option<Encoded>>, head: nat, n: nat): seq<Encoded>
    requires |cells| == BUFFER_SIZE
  {
    if n == 0 then []
    else
      var cell := cells[(head + n - 1) % BUFFER_SIZE];
      CollectFrom(cells, head, n - 1) + if cell.Some? then [cell.value] else []
  }

  lemma RecordKeepsCells(cells: seq<Option<Encoded>>, history: seq<Recorded>, r: Recorded)
    requires InCells(cells, history)
    ensures InCells(cells[|history| % BUFFER_SIZE := Some(r.encoded)], history + [r])
  {
  }

  /** The cell k steps behind the one to be written next: the event 256 earlier, if there is one. */
  lemma CellOnTrip(n: nat, k: nat)
    requires k < BUFFER_SIZE
    ensures var c := (n % BUFFER_SIZE + k) % BUFFER_SIZE;
            if n + k < BUFFER_SIZE then c == n + k else c == (n + k - BUFFER_SIZE) % BUFFER_SIZE
  {
  }

  /** After k cells of the trip, the events collected are the oldest that are still in the ring. */
  lemma {:induction false} RecentExactly(cells: seq<Option<Encoded>>, history: seq<Recorded>, k: nat)
    requires InCells(cells, history) && k <= BUFFER_SIZE
    ensures var n := |history|;
            var oldest := if n <= BUFFER_SIZE then 0 else n - BUFFER_SIZE;
            var upTo := if n + k <= BUFFER_SIZE then 0 else n + k - BUFFER_SIZE;
            oldest <= upTo <= n && CollectFrom(cells, n % BUFFER_SIZE, k) == Bodies(history)[oldest..upTo]
  {
    var n := |history|;
    if k > 0 {
      RecentExactly(cells, history, k - 1);
      CellOnTrip(n, k - 1);
      var bodies := Bodies(history);
      if n + k > BUFFER_SIZE {
        var i := n + k - 1 - BUFFER_SIZE;
        assert cells[i % BUFFER_SIZE] == Some(bodies[i]);
        assert bodies[..i + 1] == bodies[..i] + [bodies[i]];
      }
    }
  }

  /** An id is remembered, until there are more than 512, and then all are forgotten. */
  lemma IdsExactly(ids: set<string>, id: string)
    ensures AddId(ids, id) == if |ids + {id}| > 512 then {} else ids + {id}
  {
  }

  /** However many events are recorded, the id set never exceeds twice the buffer size. */
  function IdsAfter(events: seq<Recorded>): (r: set<string>)
    ensures |r| <= 2 * BUFFER_SIZE
  {
    if events == [] then {} else AddId(IdsAfter(events[..|events| - 1]), events[|events| - 1].id)
  }
}
