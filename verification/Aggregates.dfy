/** The 24h and 7d trade aggregates of a pair: kept up to date by adding the front and subtracting the
    back of the window, and always equal to the plain sum over the window. */
module Aggregates {
  import opened Wrappers
  import opened Window

  const ZERO := Trade(0.0, 0.0, 0.0, 0.0, 0.0, 0.0)

  function Plus(a: Trade, b: Trade): Trade {
    Trade(a.total + b.total, a.fees + b.fees, a.token0 + b.token0, a.token1 + b.token1, a.usd0 + b.usd0,
          a.usd1 + b.usd1)
  }

  function Minus(a: Trade, b: Trade): Trade {
    Trade(a.total - b.total, a.fees - b.fees, a.token0 - b.token0, a.token1 - b.token1, a.usd0 - b.usd0,
          a.usd1 - b.usd1)
  }

  /** The week aggregate is stored without fees. */
  function WithoutFees(t: Trade): Trade {
    t.(fees := 0.0)
  }

  // --- the plain sum ------------------------------------------------------------

  function TradeAt(chain: Chain, h: int): Trade {
    match PayloadAt(chain, h)
    case Some(p) => p.trade
    case None => ZERO
  }

  /** The sum over the non-null blocks at heights lo..hi. */
  function Sum(chain: Chain, lo: int, hi: int): Trade
    decreases hi - lo
  {
    if hi < lo then ZERO else Plus(Sum(chain, lo, hi - 1), TradeAt(chain, hi))
  }

  // --- field by field -------------------------------------------------------------

  datatype Field = Total | Fees | Token0 | Token1 | Usd0 | Usd1

  function Read(f: Field, t: Trade): real {
    match f
    case Total => t.total
    case Fees => t.fees
    case Token0 => t.token0
    case Token1 => t.token1
    case Usd0 => t.usd0
    case Usd1 => t.usd1
  }

  /** One field, added up over the non-null blocks at heights lo..hi. */
  function FieldSum(f: Field, chain: Chain, lo: int, hi: int): real
    decreases hi - lo
  {
    if hi < lo then 0.0
    else
      var b := PayloadAt(chain, hi);
      FieldSum(f, chain, lo, hi - 1) + if b.Some? then Read(f, b.value.trade) else 0.0
  }

  lemma {:induction false} SumByField(f: Field, chain: Chain, lo: int, hi: int)
    ensures Read(f, Sum(chain, lo, hi)) == FieldSum(f, chain, lo, hi)
    decreases hi - lo
  {
    if lo <= hi {
      SumByField(f, chain, lo, hi - 1);
    }
  }

  lemma SameFields(a: Trade, b: Trade)
    ensures a == b <==> forall f :: Read(f, a) == Read(f, b)
  {
    if forall f :: Read(f, a) == Read(f, b) {
      assert Read(Total, a) == Read(Total, b) && Read(Fees, a) == Read(Fees, b);
      assert Read(Token0, a) == Read(Token0, b) && Read(Token1, a) == Read(Token1, b);
      assert Read(Usd0, a) == Read(Usd0, b) && Read(Usd1, a) == Read(Usd1, b);
    }
  }

  lemma FieldsOf(f: Field, a: Trade, b: Trade)
    ensures Read(f, Plus(a, b)) == Read(f, a) + Read(f, b)
    ensures Read(f, Minus(a, b)) == Read(f, a) - Read(f, b)
    ensures Read(f, WithoutFees(a)) == if f.Fees? then 0.0 else Read(f, a)
  {
  }

  // --- what the service computes ------------------------------------------------------

  /** `get_dag_blocks_in_range`: the non-null blocks, newest first. */
  function BlocksInRange(chain: Chain, lo: int, hi: int): seq<Payload>
    decreases hi - lo
  {
    if hi < lo then []
    else
      (match PayloadAt(chain, hi)
       case Some(p) => [p]
       case None => []) + BlocksInRange(chain, lo, hi - 1)
  }

  function Reverse<T>(s: seq<T>): (r: seq<T>)
    ensures |r| == |s|
    ensures forall i | 0 <= i < |s| :: r[i] == s[|s| - 1 - i]
  {
    if s == [] then [] else [s[|s| - 1]] + Reverse(s[..|s| - 1])
  }

  method GetDagBlocksInRange(chain: Chain, fromBlock: int, toBlock: int) returns (blocks: seq<Payload>)
    ensures blocks == BlocksInRange(chain, fromBlock, toBlock)
  {
    var found: seq<Payload> := [];
    var i := fromBlock;
    while i < toBlock + 1
      invariant fromBlock <= i && (fromBlock <= toBlock + 1 ==> i <= toBlock + 1)
      invariant toBlock + 1 < fromBlock ==> i == fromBlock
      invariant Reverse(found) == BlocksInRange(chain, fromBlock, i - 1)
    {
      var block := PayloadAt(chain, i);
      if block.Some? {
        assert (found + [block.value])[..|found|] == found;
        found := found + [block.value];
      }
      i := i + 1;
    }
    blocks := Reverse(found);
  }

  /** `calculate_pair_trade_volume`: field by field over a list of blocks. */
  function Volume(blocks: seq<Payload>): Trade {
    if blocks == [] then ZERO else Plus(Volume(blocks[1..]), blocks[0].trade)
  }

  lemma {:induction false} VolumeIsSum(chain: Chain, lo: int, hi: int)
    ensures Volume(BlocksInRange(chain, lo, hi)) == Sum(chain, lo, hi)
    decreases hi - lo
  {
    if lo <= hi {
      VolumeIsSum(chain, lo, hi - 1);
      var rest := BlocksInRange(chain, lo, hi - 1);
      match PayloadAt(chain, hi) {
        case Some(p) => assert ([p] + rest)[1..] == rest;
        case None => assert [] + rest == rest;
      }
    }
  }

  lemma {:induction false} NoBlocksInRange(chain: Chain, lo: int, hi: int)
    ensures BlocksInRange(chain, lo, hi) == [] <==> forall h | lo <= h <= hi :: PayloadAt(chain, h).None?
    decreases hi - lo
  {
    if lo <= hi {
      NoBlocksInRange(chain, lo, hi - 1);
    }
  }

  // --- one aggregation cycle ---------------------------------------------------------

  datatype Cached = Cached(tail24: int, head24: int, tail7: int, head7: int, volume24: Trade, volume7: Trade)

  function MarkerValue(m: Option<int>): int {
    match m
    case Some(h) => h
    case None => 0
  }

  /** Markers of both windows; a missing one reads as 0. */
  predicate MarkersUsable(p: Pair) {
    && MarkerValue(p.day.tail) != 0 && MarkerValue(p.day.head) != 0
    && MarkerValue(p.week.tail) != 0 && MarkerValue(p.week.head) != 0
    && MarkerValue(p.day.head) > 1 && MarkerValue(p.week.head) > 1
  }

  /** What `process_pairs_trade_volume_and_reserves` stores, None where it returns early or raises. */
  function Commit(cache: Option<Cached>, chain: Chain, p: Pair, liquid: bool): Option<Cached> {
    if !MarkersUsable(p) || !liquid then None
    else
      var tail24, head24 := p.day.tail.value, p.day.head.value;
      var tail7, head7 := p.week.tail.value, p.week.head.value;
      match cache
      case None =>
        var day, week := BlocksInRange(chain, tail24, head24), BlocksInRange(chain, tail7, head7);
        if day == [] || week == [] then None
        else Some(Cached(tail24, head24, tail7, head7, Volume(day), WithoutFees(Volume(week))))
      case Some(c) =>
        if head24 <= c.head24 then None
        else
          var front24 := BlocksInRange(chain, c.head24 + 1, head24);
          var back24 := if tail24 > c.tail24 then BlocksInRange(chain, c.tail24, tail24 - 1) else [];
          var front7 := if head7 > c.head24 then BlocksInRange(chain, c.head7 + 1, head7) else [];
          var back7 := if tail7 > c.tail7 then BlocksInRange(chain, c.tail7, tail7 - 1) else [];
          if front24 == [] || front7 == [] then None
          else if BlocksInRange(chain, tail24, tail24) == [] || BlocksInRange(chain, tail7, tail7) == [] then None
          else Some(Cached(tail24, head24, tail7, head7,
                           Plus(Minus(c.volume24, Volume(back24)), Volume(front24)),
                           WithoutFees(Plus(Minus(c.volume7, Volume(back7)), Volume(front7)))))
  }

  predicate SomeBlock(chain: Chain, lo: int, hi: int) {
    exists h :: lo <= h <= hi && PayloadAt(chain, h).Some?
  }

  /** When a cycle commits: with both windows marked, heads above 1 and liquidity. The first time both windows
      must have a block; later the day head must have moved, both windows must have gained a block and both new
      tails must be readable. */
  predicate MayCommit(cache: Option<Cached>, chain: Chain, p: Pair, liquid: bool) {
    && liquid && Present(p.day) && Present(p.week)
    && p.day.tail.value != 0 && p.week.tail.value != 0 && p.day.head.value > 1 && p.week.head.value > 1
    && match cache
       case None =>
         && SomeBlock(chain, p.day.tail.value, p.day.head.value)
         && SomeBlock(chain, p.week.tail.value, p.week.head.value)
       case Some(c) =>
         && p.day.head.value > c.head24 && p.week.head.value > c.head24
         && SomeBlock(chain, c.head24 + 1, p.day.head.value) && SomeBlock(chain, c.head7 + 1, p.week.head.value)
         && PayloadAt(chain, p.day.tail.value).Some? && PayloadAt(chain, p.week.tail.value).Some?
  }

  /** A field of a stored aggregate: the whole window at first; later the old value, less the blocks that the
      window left behind, plus those that it gained. */
  function Slid(f: Field, chain: Chain, before: Option<(int, int, Trade)>, tail: int, head: int): real {
    match before
    case None => FieldSum(f, chain, tail, head)
    case Some((tail0, head0, t)) =>
      Read(f, t) - FieldSum(f, chain, tail0, tail - 1) + FieldSum(f, chain, head0 + 1, head)
  }

  predicate StoredField(f: Field, cache: Option<Cached>, chain: Chain, r: Cached) {
    var (day, week) :=
      match cache
      case Some(c) => (Some((c.tail24, c.head24, c.volume24)), Some((c.tail7, c.head7, c.volume7)))
      case None => (None, None);
    && Read(f, r.volume24) == Slid(f, chain, day, r.tail24, r.head24)
    && Read(f, r.volume7) == if f.Fees? then 0.0 else Slid(f, chain, week, r.tail7, r.head7)
  }

  /** What a commit stores: the markers that it was computed for, and every field. */
  ghost predicate Stored(cache: Option<Cached>, chain: Chain, p: Pair, r: Cached) {
    && p.day == Markers(Some(r.head24), Some(r.tail24)) && p.week == Markers(Some(r.head7), Some(r.tail7))
    && forall f :: StoredField(f, cache, chain, r)
  }

  lemma VolumeByField(f: Field, chain: Chain, lo: int, hi: int)
    ensures Read(f, Volume(BlocksInRange(chain, lo, hi))) == FieldSum(f, chain, lo, hi)
    ensures hi < lo ==> FieldSum(f, chain, lo, hi) == Read(f, Volume([])) == 0.0
  {
    hide Sum;
    VolumeIsSum(chain, lo, hi);
    SumByField(f, chain, lo, hi);
  }

  lemma SomeBlockIsFound(chain: Chain, lo: int, hi: int)
    ensures SomeBlock(chain, lo, hi) <==> BlocksInRange(chain, lo, hi) != []
  {
    NoBlocksInRange(chain, lo, hi);
  }

  lemma CommitsExactly(cache: Option<Cached>, chain: Chain, p: Pair, liquid: bool)
    ensures Commit(cache, chain, p, liquid).Some? <==> MayCommit(cache, chain, p, liquid)
  {
    hide Volume, Plus, Minus, WithoutFees, SomeBlock, BlocksInRange;
    if Present(p.day) && Present(p.week) {
      var tail24, head24, tail7, head7 := p.day.tail.value, p.day.head.value, p.week.tail.value, p.week.head.value;
      SomeBlockIsFound(chain, tail24, head24);
      SomeBlockIsFound(chain, tail7, head7);
      NoBlocksInRange(chain, tail24, tail24);
      NoBlocksInRange(chain, tail7, tail7);
      if cache.Some? {
        SomeBlockIsFound(chain, cache.value.head24 + 1, head24);
        SomeBlockIsFound(chain, cache.value.head7 + 1, head7);
      }
    }
  }

  lemma CommitStores(cache: Option<Cached>, chain: Chain, p: Pair, liquid: bool)
    ensures var r := Commit(cache, chain, p, liquid); r.Some? ==> Stored(cache, chain, p, r.value)
  {
    hide Volume, Sum, BlocksInRange, Plus, Minus, WithoutFees, Read, Slid;
    var r := Commit(cache, chain, p, liquid);
    if r.Some? {
      forall f ensures StoredField(f, cache, chain, r.value) {
        FieldIsStored(f, cache, chain, p, liquid);
      }
    }
  }

  lemma FieldIsStored(f: Field, cache: Option<Cached>, chain: Chain, p: Pair, liquid: bool)
    ensures var r := Commit(cache, chain, p, liquid); r.Some? ==> StoredField(f, cache, chain, r.value)
  {
    hide Volume, FieldSum, BlocksInRange, Plus, Minus, WithoutFees, Read;
    var r := Commit(cache, chain, p, liquid);
    if r.Some? {
      var tail24, head24, tail7, head7 := r.value.tail24, r.value.head24, r.value.tail7, r.value.head7;
      if cache.None? {
        VolumeByField(f, chain, tail24, head24);
        VolumeByField(f, chain, tail7, head7);
        FieldsOf(f, Volume(BlocksInRange(chain, tail7, head7)), ZERO);
      } else {
        var c := cache.value;
        FieldSlides(f, chain, c.volume24, c.tail24, c.head24, tail24, head24);
        FieldSlides(f, chain, c.volume7, c.tail7, c.head7, tail7, head7);
      }
    }
  }

  lemma FieldSlides(f: Field, chain: Chain, t: Trade, tail: int, head: int, tail': int, head': int)
    ensures var back := if tail' > tail then BlocksInRange(chain, tail, tail' - 1) else [];
            var r := Plus(Minus(t, Volume(back)), Volume(BlocksInRange(chain, head + 1, head')));
            && Read(f, r) == Slid(f, chain, Some((tail, head, t)), tail', head')
            && Read(f, WithoutFees(r)) == if f.Fees? then 0.0 else Read(f, r)
  {
    hide Volume, FieldSum, BlocksInRange, Plus, Minus, WithoutFees, Read;
    var back := if tail' > tail then BlocksInRange(chain, tail, tail' - 1) else [];
    var front := BlocksInRange(chain, head + 1, head');
    VolumeByField(f, chain, tail, tail' - 1);
    VolumeByField(f, chain, head + 1, head');
    FieldsOf(f, t, Volume(back));
    FieldsOf(f, Minus(t, Volume(back)), Volume(front));
    FieldsOf(f, Plus(Minus(t, Volume(back)), Volume(front)), ZERO);
  }

  lemma NothingChanges(t: Trade)
    ensures Plus(t, Volume([])) == t && Minus(t, Volume([])) == t
  {
  }

  class PairAggregator {
    var cached: Option<Cached>

    constructor ()
      ensures cached == None
    {
      cached := None;
    }

    /** One cycle of a pair; the cache is written in one go at the end, or not at all. */
    method ProcessPair(chain: Chain, p: Pair, liquid: bool) returns (committed: bool)
      modifies this
      ensures committed <==> Commit(old(cached), chain, p, liquid).Some?
      ensures cached == if committed then Commit(old(cached), chain, p, liquid) else old(cached)
      ensures committed <==> MayCommit(old(cached), chain, p, liquid)
      ensures committed ==> cached.Some? && Stored(old(cached), chain, p, cached.value)
    {
      CommitsExactly(cached, chain, p, liquid);
      CommitStores(cached, chain, p, liquid);
      hide Volume, BlocksInRange, Plus, Minus, WithoutFees, MayCommit, Stored;
      committed := false;
      var tail24, head24 := MarkerValue(p.day.tail), MarkerValue(p.day.head);
      var tail7, head7 := MarkerValue(p.week.tail), MarkerValue(p.week.head);
      if tail24 == 0 || head24 == 0 || tail7 == 0 || head7 == 0 {
        return;
      }
      if head24 <= 1 || head7 <= 1 || !liquid {
        return;
      }
      if cached.None? {
        var day := GetDagBlocksInRange(chain, tail24, head24);
        if day == [] {
          return;
        }
        var week := GetDagBlocksInRange(chain, tail7, head7);
        if week == [] {
          return;
        }
        cached := Some(Cached(tail24, head24, tail7, head7, Volume(day), WithoutFees(Volume(week))));
        return true;
      }
      var c := cached.value;
      var front24, back24, front7, back7 := [], [], [], [];
      if head24 > c.head24 {
        front24 := GetDagBlocksInRange(chain, c.head24 + 1, head24);
      } else {
        return;
      }
      if tail24 > c.tail24 {
        back24 := GetDagBlocksInRange(chain, c.tail24, tail24 - 1);
      }
      if head7 > c.head24 {
        front7 := GetDagBlocksInRange(chain, c.head7 + 1, head7);
      }
      if tail7 > c.tail7 {
        back7 := GetDagBlocksInRange(chain, c.tail7, tail7 - 1);
      }
      if front24 == [] && back24 == [] {
        return;
      }
      if front7 == [] && back7 == [] {
        return;
      }
      // Indexing the first block of an empty list raises, here and for the tail blocks.
      if front24 == [] {
        return;
      }
      var dayTail := GetDagBlocksInRange(chain, tail24, tail24);
      if dayTail == [] || front7 == [] {
        return;
      }
      var weekTail := GetDagBlocksInRange(chain, tail7, tail7);
      if weekTail == [] {
        return;
      }
      NothingChanges(c.volume24);
      NothingChanges(c.volume7);
      var volume24, volume7 := c.volume24, c.volume7;
      if back24 != [] {
        volume24 := Minus(volume24, Volume(back24));
      }
      if front24 != [] {
        volume24 := Plus(volume24, Volume(front24));
      }
      if back7 != [] {
        volume7 := Minus(volume7, Volume(back7));
      }
      if front7 != [] {
        volume7 := Plus(volume7, Volume(front7));
      }
      cached := Some(Cached(tail24, head24, tail7, head7, volume24, WithoutFees(volume7)));
      committed := true;
    }
  }

  // --- the cache equals the plain sum ----------------------------------------------------

  lemma {:induction false} SumSplits(f: Field, chain: Chain, lo: int, mid: int, hi: int)
    requires lo <= mid + 1 && mid <= hi
    ensures FieldSum(f, chain, lo, hi) == FieldSum(f, chain, lo, mid) + FieldSum(f, chain, mid + 1, hi)
    decreases hi - mid
  {
    if mid < hi {
      SumSplits(f, chain, lo, mid, hi - 1);
    }
  }

  /** Subtract the back, add the front: right even when the new tail is past the old head. */
  lemma Slide(f: Field, chain: Chain, tail: int, head: int, tail': int, head': int)
    requires tail <= head + 1 && head <= head' && tail <= tail' <= head' + 1
    ensures FieldSum(f, chain, tail', head') ==
            FieldSum(f, chain, tail, head) - FieldSum(f, chain, tail, tail' - 1) + FieldSum(f, chain, head + 1, head')
  {
    hide FieldSum;
    SumSplits(f, chain, tail, head, head');
    SumSplits(f, chain, tail, tail' - 1, head');
  }

  lemma {:induction false} SumOnPrefix(f: Field, chain: Chain, more: Chain, lo: int, hi: int)
    requires chain <= more && hi <= |chain|
    ensures FieldSum(f, chain, lo, hi) == FieldSum(f, more, lo, hi)
    decreases hi - lo
  {
    if lo <= hi {
      SumOnPrefix(f, chain, more, lo, hi - 1);
      assert PayloadAt(chain, hi) == PayloadAt(more, hi);
    }
  }

  predicate Ranged(c: Cached, chain: Chain) {
    1 <= c.tail24 <= c.head24 <= |chain| && 1 <= c.tail7 <= c.head7 <= |chain|
  }

  /** Every field of the stored aggregates is its sum over the stored window; the week has no fees. */
  ghost predicate Exact(c: Cached, chain: Chain) {
    && Ranged(c, chain)
    && (forall f :: Read(f, c.volume24) == FieldSum(f, chain, c.tail24, c.head24))
    && (forall f :: Read(f, c.volume7) == if f.Fees? then 0.0 else FieldSum(f, chain, c.tail7, c.head7))
  }

  /** Markers that an index over this chain can hold. */
  predicate Sound(m: Markers, chain: Chain) {
    (m.head.Some? <==> m.tail.Some?) && (Present(m) ==> 1 <= m.tail.value < m.head.value <= |chain|)
  }

  predicate NotBefore(m: Markers, tail: int) {
    Present(m) && m.tail.value >= tail
  }

  /** Whatever is committed is, field by field, the plain sum over the window between the markers it was computed
      for. */
  lemma CommitIsExact(cache: Option<Cached>, chain: Chain, p: Pair, liquid: bool)
    requires Sound(p.day, chain) && Sound(p.week, chain)
    requires cache.Some? ==>
               && Exact(cache.value, chain)
               && NotBefore(p.day, cache.value.tail24) && NotBefore(p.week, cache.value.tail7)
    ensures var r := Commit(cache, chain, p, liquid);
            r.Some? ==>
              && Exact(r.value, chain)
              && Some(r.value.tail24) == p.day.tail && Some(r.value.head24) == p.day.head
              && Some(r.value.tail7) == p.week.tail && Some(r.value.head7) == p.week.head
  {
    hide Commit, FieldSum, Read, SomeBlock;
    var r := Commit(cache, chain, p, liquid);
    CommitsExactly(cache, chain, p, liquid);
    CommitStores(cache, chain, p, liquid);
    if r.Some? {
      var c' := r.value;
      forall f
        ensures Read(f, c'.volume24) == FieldSum(f, chain, c'.tail24, c'.head24)
        ensures Read(f, c'.volume7) == if f.Fees? then 0.0 else FieldSum(f, chain, c'.tail7, c'.head7)
      {
        assert StoredField(f, cache, chain, c');
        if cache.Some? {
          var c := cache.value;
          HeadMoves(chain, c.head7, c'.head7);
          Slide(f, chain, c.tail24, c.head24, c'.tail24, c'.head24);
          Slide(f, chain, c.tail7, c.head7, c'.tail7, c'.head7);
        }
      }
    }
  }

  /** A front with a block in it is not empty. */
  lemma HeadMoves(chain: Chain, head: int, head': int)
    ensures SomeBlock(chain, head + 1, head') ==> head < head'
  {
  }

  // --- every run ------------------------------------------------------------------

  datatype Event =
    | Grow(blocks: Chain)
    | Index(head: int)
    | Aggregate(liquid: bool)

  datatype World = World(chain: Chain, markers: Pair, cache: Option<Cached>)

  /** The chain grows, the index moves to some head that exists, or the pair is aggregated. */
  function Step(w: World, e: Event): World {
    match e
    case Grow(blocks) => w.(chain := w.chain + blocks)
    case Index(head) => if head <= |w.chain| then w.(markers := IndexCycle(w.markers, w.chain, head)) else w
    case Aggregate(liquid) =>
      var r := Commit(w.cache, w.chain, w.markers, liquid);
      if r.Some? then w.(cache := r) else w
  }

  function Run(w: World, events: seq<Event>): World
    decreases |events|
  {
    if events == [] then w else Step(Run(w, events[..|events| - 1]), events[|events| - 1])
  }

  const FRESH := World([], Pair(Markers(None, None), Markers(None, None)), None)

  ghost predicate Good(w: World) {
    && Sound(w.markers.day, w.chain) && Sound(w.markers.week, w.chain)
    && (w.cache.Some? ==>
          && Exact(w.cache.value, w.chain)
          && NotBefore(w.markers.day, w.cache.value.tail24) && NotBefore(w.markers.week, w.cache.value.tail7))
  }

  lemma MovedIsSound(m: Markers, chain: Chain, head: int, period: int)
    requires Sound(m, chain) && head <= |chain|
    ensures Sound(Moved(m, chain, head, period), chain)
    ensures Present(m) ==> NotBefore(Moved(m, chain, head, period), m.tail.value)
  {
  }

  lemma GrowthKeepsExact(c: Cached, chain: Chain, blocks: Chain)
    requires Exact(c, chain)
    ensures Exact(c, chain + blocks)
  {
    hide FieldSum, Read;
    forall f
      ensures FieldSum(f, chain + blocks, c.tail24, c.head24) == FieldSum(f, chain, c.tail24, c.head24)
      ensures FieldSum(f, chain + blocks, c.tail7, c.head7) == FieldSum(f, chain, c.tail7, c.head7)
    {
      SumOnPrefix(f, chain, chain + blocks, c.tail24, c.head24);
      SumOnPrefix(f, chain, chain + blocks, c.tail7, c.head7);
    }
  }

  lemma StepKeepsGood(w: World, e: Event)
    requires Good(w)
    ensures Good(Step(w, e))
  {
    hide Moved, Exact, Commit;
    match e {
      case Grow(blocks) =>
        if w.cache.Some? {
          GrowthKeepsExact(w.cache.value, w.chain, blocks);
        }
      case Index(head) =>
        if head <= |w.chain| {
          MovedIsSound(w.markers.day, w.chain, head, PeriodOf("24h"));
          MovedIsSound(w.markers.week, w.chain, head, PeriodOf("7d"));
        }
      case Aggregate(liquid) =>
        CommitIsExact(w.cache, w.chain, w.markers, liquid);
    }
  }

  /** In every state of every run of growth, indexing and aggregation, with heads that may even move
      back, a stored aggregate is the plain sum over the non-null blocks of its window. */
  lemma {:induction false} EveryRunIsExact(events: seq<Event>)
    ensures Good(Run(FRESH, events))
    decreases |events|
  {
    if events != [] {
      hide Good, Step;
      EveryRunIsExact(events[..|events| - 1]);
      StepKeepsGood(Run(FRESH, events[..|events| - 1]), events[|events| - 1]);
    } else {
      assert Run(FRESH, []) == FRESH;
    }
  }

  // --- nothing is left out -----------------------------------------------------------

  /** Growth keeps time order, and heads do not move back. */
  predicate InOrder(w: World, e: Event) {
    match e
    case Grow(blocks) => TimeOrdered(w.chain + blocks)
    case Index(head) => head <= |w.chain| && (Present(w.markers.week) ==> w.markers.week.head.value <= head)
    case Aggregate(_) => true
  }

  ghost predicate Orderly(w: World) {
    && Good(w) && TimeOrdered(w.chain) && Nested(w.markers, w.chain, |w.chain|)
    // The day markers stay behind only while their window is empty at the week's head.
    && (Present(w.markers.week) && w.markers.day.head != w.markers.week.head ==>
          FirstInWindow(w.chain, w.markers.week.head.value, 1, PeriodOf("24h")).None?)
    && (w.cache.Some? ==>
          && Present(w.markers.day) && Present(w.markers.week)
          && w.cache.value.head24 <= w.markers.day.head.value && w.cache.value.head7 <= w.markers.week.head.value
          && (w.cache.value.head7 == w.markers.week.head.value ==> w.cache.value.head24 == w.markers.day.head.value))
  }

  lemma IndexKeepsOrderly(w: World, head: int)
    requires Orderly(w) && InOrder(w, Index(head))
    ensures Orderly(Step(w, Index(head)))
  {
    hide Exact, TimeOrdered;
    StepKeepsGood(w, Index(head));
    WeekDominatesDay(w.markers, w.chain, w.chain, head, head);
    MovedIsSearched(w.markers.day, w.chain, w.chain, head, PeriodOf("24h"));
    MovedIsSearched(w.markers.week, w.chain, w.chain, head, PeriodOf("7d"));
  }

  lemma GrowKeepsOrderly(w: World, blocks: Chain)
    requires Orderly(w) && InOrder(w, Grow(blocks))
    ensures Orderly(Step(w, Grow(blocks)))
  {
    hide Exact, TimeOrdered;
    StepKeepsGood(w, Grow(blocks));
    var more := w.chain + blocks;
    if Present(w.markers.day) {
      SearchOnPrefix(w.chain, more, w.markers.day.head.value, 1, PeriodOf("24h"));
    }
    if Present(w.markers.week) {
      SearchOnPrefix(w.chain, more, w.markers.week.head.value, 1, PeriodOf("7d"));
      SearchOnPrefix(w.chain, more, w.markers.week.head.value, 1, PeriodOf("24h"));
    }
  }

  lemma AggregateKeepsOrderly(w: World, liquid: bool)
    requires Orderly(w)
    ensures Orderly(Step(w, Aggregate(liquid)))
  {
    hide Exact, TimeOrdered, Commit;
    StepKeepsGood(w, Aggregate(liquid));
    CommitIsExact(w.cache, w.chain, w.markers, liquid);
    CommitNeedsMarkers(w.cache, w.chain, w.markers, liquid);
  }

  lemma CommitNeedsMarkers(cache: Option<Cached>, chain: Chain, p: Pair, liquid: bool)
    ensures Commit(cache, chain, p, liquid).Some? ==> Present(p.day) && Present(p.week)
  {
  }

  ghost predicate AllInOrder(events: seq<Event>) {
    forall i | 0 <= i < |events| :: InOrder(Run(FRESH, events[..i]), events[i])
  }

  lemma {:induction false} EveryOrderlyRun(events: seq<Event>)
    requires AllInOrder(events)
    ensures Orderly(Run(FRESH, events))
    decreases |events|
  {
    hide Orderly, InOrder, Step;
    if events == [] {
      FreshIsOrderly();
    } else {
      var n := |events| - 1;
      var prefix, e := events[..n], events[n];
      forall i | 0 <= i < n ensures prefix[..i] == events[..i] && prefix[i] == events[i] {
      }
      assert AllInOrder(prefix);
      EveryOrderlyRun(prefix);
      var w := Run(FRESH, prefix);
      assert InOrder(w, e);
      match e {
        case Grow(blocks) => GrowKeepsOrderly(w, blocks);
        case Index(head) => IndexKeepsOrderly(w, head);
        case Aggregate(liquid) => AggregateKeepsOrderly(w, liquid);
      }
    }
  }

  lemma FreshIsOrderly()
    ensures Orderly(Run(FRESH, []))
  {
  }

  /** The guard that compares the week's head with the day's processed head drops no front block: in
      every orderly run, an aggregation whose day head moved ahead commits both windows up to date. */
  lemma {:induction false} MovedHeadCommits(events: seq<Event>)
    requires AllInOrder(events)
    ensures var w := Run(FRESH, events);
            && Present(w.markers.day) && w.markers.day.head.value > 1
            && (w.cache.Some? ==> w.markers.day.head.value > w.cache.value.head24) ==>
            var r := Step(w, Aggregate(true)).cache;
            && r.Some? && Exact(r.value, w.chain)
            && Some(r.value.head24) == w.markers.day.head && Some(r.value.head7) == w.markers.week.head
            && Some(r.value.tail24) == w.markers.day.tail && Some(r.value.tail7) == w.markers.week.tail
  {
    var w := Run(FRESH, events);
    EveryOrderlyRun(events);
    if Present(w.markers.day) && w.markers.day.head.value > 1
       && (w.cache.Some? ==> w.markers.day.head.value > w.cache.value.head24) {
      MovedHeadCommitsIn(w);
    }
  }

  lemma MovedHeadCommitsIn(w: World)
    requires Orderly(w) && Present(w.markers.day) && w.markers.day.head.value > 1
    requires w.cache.Some? ==> w.markers.day.head.value > w.cache.value.head24
    ensures var r := Step(w, Aggregate(true)).cache;
            && r.Some? && Exact(r.value, w.chain)
            && Some(r.value.head24) == w.markers.day.head && Some(r.value.head7) == w.markers.week.head
            && Some(r.value.tail24) == w.markers.day.tail && Some(r.value.tail7) == w.markers.week.tail
  {
    hide Volume, Sum, BlocksInRange, Exact, TimeOrdered;
    var day, week := w.markers.day, w.markers.week;
    assert InWindow(w.chain, day.head.value, day.tail.value, PeriodOf("24h"));
    assert InWindow(w.chain, week.head.value, week.tail.value, PeriodOf("7d"));
    NoBlocksInRange(w.chain, day.tail.value, day.tail.value);
    NoBlocksInRange(w.chain, week.tail.value, week.tail.value);
    if w.cache.None? {
      NoBlocksInRange(w.chain, day.tail.value, day.head.value);
      NoBlocksInRange(w.chain, week.tail.value, week.head.value);
    } else {
      NoBlocksInRange(w.chain, w.cache.value.head24 + 1, day.head.value);
      NoBlocksInRange(w.chain, w.cache.value.head7 + 1, week.head.value);
    }
    CommitIsExact(w.cache, w.chain, w.markers, true);
  }
}
