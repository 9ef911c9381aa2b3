/** The sliding-window markers of one project: a head, and the tail that a search keeps moving ahead. */
module Window {
  import opened Wrappers

  /** Summed fields of a trade-volume payload. */
  datatype Trade = Trade(total: real, fees: real, token0: real, token1: real, usd0: real, usd1: real)

  datatype Payload = Payload(timestamp: int, sourceEnd: int, trade: Trade)

  /** The blocks at heights 1, 2, ...; None is a null block. The chain only ever grows at its end. */
  type Chain = seq<Option<Payload>>

  /** A read by height: None when there is no block or the block has no payload. */
  function PayloadAt(chain: Chain, h: int): Option<Payload> {
    if 1 <= h <= |chain| then chain[h - 1] else None
  }

  const DAY := 24 * 60 * 60

  function PeriodOf(name: string): int {
    if name == "24h" then DAY else if name == "7d" then 7 * DAY else 60 * 60
  }

  predicate InWindow(chain: Chain, head: int, h: int, period: int) {
    && PayloadAt(chain, head).Some? && PayloadAt(chain, h).Some?
    && PayloadAt(chain, head).value.timestamp - PayloadAt(chain, h).value.timestamp <= period
  }

  /** The first height from `from` on, below the head, whose block is in the window. */
  function FirstInWindow(chain: Chain, head: int, from: int, period: int): (r: Option<int>)
    ensures r.Some? ==> from <= r.value < head && InWindow(chain, head, r.value, period)
    ensures r.Some? ==> forall k | from <= k < r.value :: !InWindow(chain, head, k, period)
    ensures r.None? ==> forall k | from <= k < head :: !InWindow(chain, head, k, period)
    decreases head - from
  {
    if from >= head then None
    else if InWindow(chain, head, from, period) then Some(from)
    else FirstInWindow(chain, head, from + 1, period)
  }

  /** `find_tail`: an unreadable head raises, which the caller swallows, like not finding a tail. */
  method FindTail(chain: Chain, head: int, tail: int, period: int) returns (found: Option<int>)
    ensures found == FirstInWindow(chain, head, tail, period)
  {
    var headBlock := PayloadAt(chain, head);
    if headBlock.None? {
      return None;
    }
    var current := tail;
    while current < head
      invariant FirstInWindow(chain, head, current, period) == FirstInWindow(chain, head, tail, period)
      decreases head - current
    {
      var block := PayloadAt(chain, current);
      if block.Some? && headBlock.value.timestamp - block.value.timestamp <= period {
        return Some(current);
      }
      current := current + 1;
    }
    found := None;
  }

  // --- markers ----------------------------------------------------------------------

  datatype Markers = Markers(head: Option<int>, tail: Option<int>)

  predicate Present(m: Markers) {
    m.head.Some? && m.tail.Some?
  }

  /** `build_primary_index` for a window: both markers move, or none does. */
  function Moved(m: Markers, chain: Chain, head: int, period: int): Markers {
    var tail := FirstInWindow(chain, head, if Present(m) then m.tail.value else 1, period);
    if tail.None? then m else Markers(Some(head), tail)
  }

  class WindowIndex {
    const period: int
    var head: Option<int>
    var tail: Option<int>

    function View(): Markers
      reads this
    {
      Markers(head, tail)
    }

    constructor (period: int)
      ensures this.period == period && View() == Markers(None, None)
    {
      this.period := period;
      head, tail := None, None;
    }

    method BuildPrimaryIndex(chain: Chain, headMarker: int)
      modifies this
      ensures View() == Moved(old(View()), chain, headMarker, period)
    {
      var from := if head.Some? && tail.Some? then tail.value else 1;
      var tailAhead := FindTail(chain, headMarker, from, period);
      if tailAhead.Some? {
        head := Some(headMarker);
        tail := tailAhead;
      }
    }
  }

  // --- resuming the search ---------------------------------------------------------

  predicate TimeOrdered(chain: Chain) {
    forall i, j | 0 <= i <= j < |chain| && chain[i].Some? && chain[j].Some? ::
      chain[i].value.timestamp <= chain[j].value.timestamp
  }

  /** The tail is what a search from height 1 finds for the stored head. */
  predicate Searched(m: Markers, chain: Chain, period: int) {
    Present(m) ==>
      && m.head.value <= |chain|
      && m.tail == FirstInWindow(chain, m.head.value, 1, period)
  }

  lemma {:induction false} SearchSkips(chain: Chain, head: int, from: int, later: int, period: int)
    requires from <= later <= head
    requires forall k | from <= k < later :: !InWindow(chain, head, k, period)
    ensures FirstInWindow(chain, head, from, period) == FirstInWindow(chain, head, later, period)
    decreases later - from
  {
    if from < later {
      SearchSkips(chain, head, from + 1, later, period);
    }
  }

  lemma {:induction false} SearchOnPrefix(chain: Chain, more: Chain, head: int, from: int, period: int)
    requires chain <= more && head <= |chain|
    ensures FirstInWindow(chain, head, from, period) == FirstInWindow(more, head, from, period)
    decreases head - from
  {
    if from < head {
      assert PayloadAt(chain, from) == PayloadAt(more, from) && PayloadAt(chain, head) == PayloadAt(more, head);
      SearchOnPrefix(chain, more, head, from + 1, period);
    }
  }

  /** Resuming at the stored tail finds what a search from height 1 finds, on a longer chain and
      for a later head. */
  lemma ResumedSearchIsFullSearch(m: Markers, chain: Chain, more: Chain, head: int, period: int)
    requires Present(m) && Searched(m, chain, period)
    requires chain <= more && TimeOrdered(more) && m.head.value <= head <= |more|
    ensures FirstInWindow(more, head, m.tail.value, period) == FirstInWindow(more, head, 1, period)
  {
    var oldHead, tail := m.head.value, m.tail.value;
    SearchOnPrefix(chain, more, oldHead, 1, period);
    forall k | 1 <= k < tail ensures !InWindow(more, head, k, period) {
      assert !InWindow(more, oldHead, k, period);
    }
    SearchSkips(more, head, 1, tail, period);
  }

  // --- the windows in seconds -------------------------------------------------------

  /** Both blocks are readable, and the block at h is at most so many seconds older than the head. */
  predicate Within(chain: Chain, head: int, h: int, seconds: int) {
    && PayloadAt(chain, head).Some? && PayloadAt(chain, h).Some?
    && PayloadAt(chain, h).value.timestamp + seconds >= PayloadAt(chain, head).value.timestamp
  }

  predicate FirstWithin(chain: Chain, head: int, from: int, seconds: int, h: int) {
    from <= h < head && Within(chain, head, h, seconds) && forall k | from <= k < h :: !Within(chain, head, k, seconds)
  }

  /** The tail of a window is the first block that is at most a day, a week or, under any other name, an hour
      older than the head. */
  lemma TailExactly(chain: Chain, head: int, from: int, name: string, h: int)
    ensures var seconds := if name == "24h" then 86400 else if name == "7d" then 604800 else 3600;
            FirstInWindow(chain, head, from, PeriodOf(name)) == Some(h) <==> FirstWithin(chain, head, from, seconds, h)
  {
    hide FirstInWindow;
    var seconds := if name == "24h" then 86400 else if name == "7d" then 604800 else 3600;
    var found := FirstInWindow(chain, head, from, PeriodOf(name));
    assert forall k :: InWindow(chain, head, k, PeriodOf(name)) <==> Within(chain, head, k, seconds);
    if FirstWithin(chain, head, from, seconds, h) {
      assert found.Some? && found.value == h;
    }
  }

  // --- the day window inside the week window -----------------------------------------

  datatype Pair = Pair(day: Markers, week: Markers)

  /** One indexing cycle moves both windows with the same head. */
  function IndexCycle(p: Pair, chain: Chain, head: int): Pair {
    Pair(Moved(p.day, chain, head, PeriodOf("24h")), Moved(p.week, chain, head, PeriodOf("7d")))
  }

  /** A window keeps its markers when no block is within its period; else they move to the head and to the first
      block, from the stored tail on, that is. */
  ghost predicate MovesWithin(m: Markers, m': Markers, chain: Chain, head: int, seconds: int) {
    var from := if m.head.Some? && m.tail.Some? then m.tail.value else 1;
    if exists h :: from <= h < head && Within(chain, head, h, seconds)
    then m'.head == Some(head) && m'.tail.Some? && FirstWithin(chain, head, from, seconds, m'.tail.value)
    else m' == m
  }

  /** One indexing cycle, window by window: a day of 86400 seconds and a week of 604800. */
  lemma IndexCycleExactly(p: Pair, chain: Chain, head: int)
    ensures MovesWithin(p.day, IndexCycle(p, chain, head).day, chain, head, 86400)
    ensures MovesWithin(p.week, IndexCycle(p, chain, head).week, chain, head, 604800)
  {
    WindowMoves(p.day, chain, head, "24h");
    WindowMoves(p.week, chain, head, "7d");
  }

  lemma WindowMoves(m: Markers, chain: Chain, head: int, name: string)
    ensures var seconds := if name == "24h" then 86400 else if name == "7d" then 604800 else 3600;
            MovesWithin(m, Moved(m, chain, head, PeriodOf(name)), chain, head, seconds)
  {
    hide FirstInWindow;
    var from := if Present(m) then m.tail.value else 1;
    var found := FirstInWindow(chain, head, from, PeriodOf(name));
    if found.Some? {
      TailExactly(chain, head, from, name, found.value);
    } else {
      var seconds := if name == "24h" then 86400 else if name == "7d" then 604800 else 3600;
      assert forall k :: InWindow(chain, head, k, PeriodOf(name)) <==> Within(chain, head, k, seconds);
    }
  }

  ghost predicate Nested(p: Pair, chain: Chain, lastHead: int) {
    && Searched(p.day, chain, PeriodOf("24h")) && Searched(p.week, chain, PeriodOf("7d"))
    && (p.day.head.Some? <==> p.day.tail.Some?) && (p.week.head.Some? <==> p.week.tail.Some?)
    && (Present(p.week) ==> p.week.head.value <= lastHead)
    && (Present(p.day) ==>
          && Present(p.week)
          && p.day.head.value <= p.week.head.value
          && (p.day.head == p.week.head ==> p.week.tail.value <= p.day.tail.value))
  }

  lemma {:induction false} WiderFindsEarlier(chain: Chain, head: int, from: int, a: int, b: int)
    requires a <= b && FirstInWindow(chain, head, from, a).Some?
    ensures var wide := FirstInWindow(chain, head, from, b);
            wide.Some? && wide.value <= FirstInWindow(chain, head, from, a).value
    decreases head - from
  {
    if !InWindow(chain, head, from, b) {
      WiderFindsEarlier(chain, head, from + 1, a, b);
    }
  }

  lemma MovedIsSearched(m: Markers, chain: Chain, more: Chain, head: int, period: int)
    requires Searched(m, chain, period) && chain <= more && TimeOrdered(more) && head <= |more|
    requires Present(m) ==> m.head.value <= head
    ensures Searched(Moved(m, more, head, period), more, period)
    ensures var full := FirstInWindow(more, head, 1, period);
            Moved(m, more, head, period) == if full.None? then m else Markers(Some(head), full)
  {
    if Present(m) {
      ResumedSearchIsFullSearch(m, chain, more, head, period);
      SearchOnPrefix(chain, more, m.head.value, 1, period);
    }
  }

  /** In every cycle, when the day markers move the week markers move too, to the same head and to a
      tail that is not later; the week's head is never behind the day's. */
  lemma WeekDominatesDay(p: Pair, chain: Chain, more: Chain, lastHead: int, head: int)
    requires Nested(p, chain, lastHead)
    requires chain <= more && TimeOrdered(more) && lastHead <= head <= |more|
    ensures var p' := IndexCycle(p, more, head);
            && Nested(p', more, head)
            && (p'.day != p.day ==>
                  p'.day.head == p'.week.head == Some(head) && p'.week.tail.value <= p'.day.tail.value)
  {
    MovedIsSearched(p.day, chain, more, head, PeriodOf("24h"));
    MovedIsSearched(p.week, chain, more, head, PeriodOf("7d"));
    if FirstInWindow(more, head, 1, PeriodOf("24h")).Some? {
      WiderFindsEarlier(more, head, 1, PeriodOf("24h"), PeriodOf("7d"));
    }
  }

  // --- heads of projects that are ahead of the others ----------------------------------

  /** The head for a common source height: step down at most eleven blocks until a block ends there.
      A null block on the way raises. */
  method AdjustHead(chain: Chain, head: int, target: int) returns (adjusted: Option<int>)
    requires PayloadAt(chain, head).Some?
    ensures adjusted.None? <==>
            exists k :: head - 11 <= k < head && 1 <= k && PayloadAt(chain, k).None? &&
                        forall j | k < j <= head :: PayloadAt(chain, j).Some?
                            && PayloadAt(chain, j).value.sourceEnd != target
    ensures adjusted.Some? ==>
              && head - 11 <= adjusted.value <= head && 1 <= adjusted.value
              && PayloadAt(chain, adjusted.value).Some?
              && (forall j | adjusted.value < j <= head ::
                    PayloadAt(chain, j).Some? && PayloadAt(chain, j).value.sourceEnd != target)
              && (PayloadAt(chain, adjusted.value).value.sourceEnd == target
                  || adjusted.value == head - 11 || adjusted.value == 1)
  {
    var at, current, cycles := head, head, 0;
    while cycles <= 10 && PayloadAt(chain, at).value.sourceEnd != target
      invariant 0 <= cycles <= 11 && current == head - cycles
      invariant at == if current >= 1 then current else 1
      invariant PayloadAt(chain, at).Some?
      invariant forall j | at < j <= head :: PayloadAt(chain, j).Some? && PayloadAt(chain, j).value.sourceEnd != target
      decreases 11 - cycles
    {
      cycles := cycles + 1;
      current := current - 1;
      if current >= 1 {
        if PayloadAt(chain, current).None? {
          return None;
        }
        at := current;
      }
    }
    adjusted := Some(at);
  }
}
