/** Deaths between a segment and its boundary block: what the dagSegments hash holds in runs that
    may attempt the same boundary more than once. */
module BoundaryAttempts {
  import opened Store
  import opened Finalizer
  import opened ChainInvariant
  import opened Segments
  import opened Numbers
  import opened Sets

  /** A segment that covers no height. */
  predicate IsEmptyRange(s: Segment, e: int, last: Cid) {
    s.beginHeight == e + 1 && s.endHeight == e && s.endDagCid == last
  }

  /** Every complete segment is recorded, as a tile or as an empty range that names the right block;
      the one that ends at the finalized height may be recorded already. */
  ghost predicate TiledOrTorn(cfg: Config, st: Project)
    requires cfg.segmentSize > 0
  {
    && (st.blockHeight > 0 ==> st.lastDagCid.Some?)
    && (forall e | EndsSegment(cfg.segmentSize, st.blockHeight, e) :: e in st.segments)
    && (forall e | e in st.segments :: 0 < e <= st.blockHeight && e % cfg.segmentSize == 0)
    && (forall e | e in st.segments ::
          var s, last := st.segments[e], Ancestor(st.lastDagCid.value, e);
          IsTile(cfg.segmentSize, s, e, last) || IsEmptyRange(s, e, last))
  }

  lemma TiledIsTiledOrTorn(cfg: Config, st: Project)
    requires cfg.segmentSize > 0 && Tiled(cfg, st)
    ensures TiledOrTorn(cfg, st)
  {
  }

  /** The last recorded end, just below a boundary: the finalized height itself, or one segment before it. */
  lemma LastEnd(size: int, bh: int, ends: set<int>)
    requires size >= 2 && bh > 0 && bh % size == 0
    requires forall e | EndsSegment(size, bh, e) :: e in ends
    requires forall e | e in ends :: 0 < e <= bh && e % size == 0
    ensures if bh in ends then MaxOf(ends) == bh
            else if ends == {} then bh == size
            else MaxOf(ends) == bh - size
  {
    MultipleBefore(size, bh);
    MultiplesApart(size, 0, bh);
    assert EndsSegment(size, bh, bh - size) <==> bh > size;
    if bh !in ends && ends != {} {
      MultiplesApart(size, MaxOf(ends), bh);
      MultiplesApart(size, 0, MaxOf(ends));
    }
  }

  /** What writing the segment before a boundary block puts into the hash. */
  lemma SegmentWrite(cfg: Config, st: Project, lo: int)
    requires cfg.segmentSize >= 2 && Indexed(cfg, st, lo) && TiledOrTorn(cfg, st)
    requires Boundary(cfg.segmentSize, st.blockHeight + 1)
    ensures !Raises(cfg, st, st.blockHeight + 1)
    ensures var bh := st.blockHeight;
            var begin := if bh in st.segments then bh + 1 else bh - cfg.segmentSize + 1;
            && bh > 0 && bh % cfg.segmentSize == 0
            && WithSegment(cfg, st, bh + 1).segments ==
               st.segments[bh := Segment(begin, bh, st.lastDagCid.value, PendingStorage)]
  {
    hide WellLinked, Ancestor, Indexed, EndsSegment;
    ParentOfNext(cfg, st, lo);
    BoundaryIsAfterMultiple(cfg.segmentSize, st.blockHeight + 1);
    LastEnd(cfg.segmentSize, st.blockHeight, st.segments.Keys);
    assert st.segments == map[] <==> st.segments.Keys == {};
  }

  /** Writing the segment before a boundary block gives the right tile exactly when the hash has
      no entry for that end height yet; a further attempt overwrites it with an empty range. */
  lemma SegmentWriteExact(cfg: Config, st: Project, lo: int)
    requires cfg.segmentSize >= 2 && Indexed(cfg, st, lo) && TiledOrTorn(cfg, st)
    requires Boundary(cfg.segmentSize, st.blockHeight + 1)
    ensures !Raises(cfg, st, st.blockHeight + 1)
    ensures var bh := st.blockHeight;
            var s := WithSegment(cfg, st, bh + 1).segments[bh];
            && (IsTile(cfg.segmentSize, s, bh, st.lastDagCid.value) <==> bh !in st.segments)
            && (IsEmptyRange(s, bh, st.lastDagCid.value) <==> bh in st.segments)
  {
    hide WithSegment, TiledOrTorn;
    SegmentWrite(cfg, st, lo);
  }

  // --- counting attempts -----------------------------------------------------------

  /** The segment that ends at e was recorded n times. */
  predicate RecordedTimes(cfg: Config, st: Project, e: int, n: nat) {
    && (e in st.segments <==> n > 0)
    && (e in st.segments ==>
          st.segments[e].beginHeight == if n == 1 then e - cfg.segmentSize + 1 else e + 1)
  }

  /** A step from st to st' attempted the boundary above e: it wrote the block at e + 1, or it died
      with that block next to be written. */
  predicate Attempts(cfg: Config, st: Project, st': Project, died: bool, e: int)
    requires cfg.segmentSize > 0
  {
    Boundary(cfg.segmentSize, e + 1) && st.blockHeight <= e && (e < st'.blockHeight || (e == st'.blockHeight && died))
  }

  /** Segments below the finalized height stay as they are; whatever is written ends at or above it, and is pending. */
  ghost predicate OldSegmentsStay(st: Project, st': Project) {
    && st.blockHeight <= st'.blockHeight
    && (forall e | e < st.blockHeight :: e in st'.segments <==> e in st.segments)
    && (forall e | e in st'.segments ::
          || (e in st.segments && st'.segments[e] == st.segments[e])
          || (e >= st.blockHeight && st'.segments[e].storage == PendingStorage))
  }

  lemma OldSegmentsStayOn(a: Project, b: Project, c: Project)
    requires OldSegmentsStay(a, b) && OldSegmentsStay(b, c)
    ensures OldSegmentsStay(a, c)
  {
  }

  ghost predicate Counted(cfg: Config, st: Project, st': Project, died: bool, e: int, n: nat)
    requires cfg.segmentSize > 0
  {
    && TiledOrTorn(cfg, st')
    && OldSegmentsStay(st, st')
    && RecordedTimes(cfg, st', e, if Attempts(cfg, st, st', died, e) then n + 1 else n)
  }

  lemma SegmentCounted(cfg: Config, st: Project, lo: int, e: int, n: nat)
    requires cfg.segmentSize >= 2 && Indexed(cfg, st, lo) && TiledOrTorn(cfg, st) && RecordedTimes(cfg, st, e, n)
    ensures !Raises(cfg, st, st.blockHeight + 1)
    ensures Counted(cfg, st, WithSegment(cfg, st, st.blockHeight + 1), true, e, n)
  {
    hide WellLinked, IdentifyPruneTarget;
    ParentOfNext(cfg, st, lo);
    WithSegmentFrame(cfg, st, st.blockHeight + 1);
    if Boundary(cfg.segmentSize, st.blockHeight + 1) {
      SegmentWrite(cfg, st, lo);
      assert Ancestor(st.lastDagCid.value, st.blockHeight) == st.lastDagCid.value;
    }
  }

  lemma BlockCounted(cfg: Config, st: Project, lo: int, txHash: string, snapshotCid: string, timestamp: int, e: int,
                     n: nat)
    requires cfg.segmentSize >= 2 && Indexed(cfg, st, lo) && TiledOrTorn(cfg, st) && RecordedTimes(cfg, st, e, n)
    ensures !Raises(cfg, st, st.blockHeight + 1)
    ensures Counted(cfg, st, IndexBlock(cfg, st, st.blockHeight + 1, txHash, snapshotCid, timestamp), false, e, n)
  {
    hide WellLinked, BlockOn, Ancestor, WithSegment, Indexed, Raises;
    var size, bh := cfg.segmentSize, st.blockHeight;
    SegmentCounted(cfg, st, lo, e, n);
    IndexBlockKeepsIndex(cfg, st, lo, txHash, snapshotCid, timestamp);
    BoundaryIsAfterMultiple(size, bh + 1);
    var mid := WithSegment(cfg, st, bh + 1);
    WithSegmentFrame(cfg, st, bh + 1);
    var st' := IndexBlock(cfg, st, bh + 1, txHash, snapshotCid, timestamp);
    assert st'.segments == mid.segments;
    if Boundary(size, bh + 1) {
      SegmentWrite(cfg, st, lo);
    }
    forall k | k in st'.segments
      ensures Ancestor(st'.lastDagCid.value, k) == Ancestor(mid.lastDagCid.value, k)
    {
    }
  }

  lemma CountedFrame(cfg: Config, st: Project, mid: Project, st': Project, died: bool, e: int, n: nat)
    requires cfg.segmentSize > 0 && Counted(cfg, st, mid, died, e, n)
    requires SameChain(mid, st') && st'.segments == mid.segments
    ensures Counted(cfg, st, st', died, e, n)
  {
  }

  lemma CountedOn(cfg: Config, st: Project, mid: Project, st': Project, died: bool, e: int, n: nat)
    requires cfg.segmentSize > 0 && st.blockHeight <= mid.blockHeight <= st'.blockHeight
    requires OldSegmentsStay(st, mid)
    requires Counted(cfg, mid, st', died, e, if Attempts(cfg, st, mid, false, e) then n + 1 else n)
    ensures Counted(cfg, st, st', died, e, n)
  {
    hide TiledOrTorn, OldSegmentsStay;
    OldSegmentsStayOn(st, mid, st');
  }

  // --- one delivery -------------------------------------------------------------------

  /** Dying before a block: without the death, more blocks would have been written. */
  predicate Short(cut: Cut, reached: int, wouldReach: int) {
    cut.BeforeHeight? && reached < wouldReach
  }

  lemma {:induction false} InOrderCounted(cfg: Config, st: Project, lo: int, txHash: string, snapshotCid: string,
                                          timestamp: int, cut: Cut, e: int, n: nat)
    requires cfg.segmentSize >= 2 && Indexed(cfg, st, lo) && TiledOrTorn(cfg, st) && RecordedTimes(cfg, st, e, n)
    ensures var st' := InOrder(cfg, st, st.blockHeight + 1, txHash, snapshotCid, timestamp, cut);
            var whole := InOrder(cfg, st, st.blockHeight + 1, txHash, snapshotCid, timestamp, NoCut);
            Counted(cfg, st, st', Short(cut, st'.blockHeight, whole.blockHeight), e, n)
    decreases |st.pending - {st.blockHeight + 1}|, 1
  {
    hide Drain, WellLinked, Ancestor, TiledOrTorn, IndexBlock, Counted, RecordedTimes, Attempts, CreateBlock,
         OldSegmentsStay;
    var h := st.blockHeight + 1;
    var st' := InOrder(cfg, st, h, txHash, snapshotCid, timestamp, cut);
    var whole := InOrder(cfg, st, h, txHash, snapshotCid, timestamp, NoCut);
    SegmentCounted(cfg, st, lo, e, n);
    WithSegmentFrame(cfg, st, h);
    BlockCounted(cfg, st, lo, txHash, snapshotCid, timestamp, e, n);
    BlockAndClear(cfg, st, lo, txHash, snapshotCid, timestamp);
    var indexed := IndexBlock(cfg, st, h, txHash, snapshotCid, timestamp);
    var next := CreateBlock(cfg, st, h, txHash, snapshotCid, timestamp);
    CountedFrame(cfg, st, indexed, next, false, e, n);
    DrainKeepsIndex(cfg, next, lo, NoCut);
    assert whole == Drain(cfg, next, NoCut);
    if cut.NoCut? || cut.blocks > 0 {
      var m := if Attempts(cfg, st, next, false, e) then n + 1 else n;
      CountedParts(cfg, st, next, false, e, n);
      assert st' == Drain(cfg, next, OneLess(cut));
      DrainKeepsIndex(cfg, next, lo, OneLess(cut));
      DrainCounted(cfg, next, lo, OneLess(cut), e, m);
      CountedOn(cfg, st, next, st', Short(cut, st'.blockHeight, whole.blockHeight), e, n);
    }
  }

  lemma CountedParts(cfg: Config, st: Project, st': Project, died: bool, e: int, n: nat)
    requires cfg.segmentSize > 0 && Counted(cfg, st, st', died, e, n)
    ensures TiledOrTorn(cfg, st') && RecordedTimes(cfg, st', e, if Attempts(cfg, st, st', died, e) then n + 1 else n)
    ensures OldSegmentsStay(st, st')
  {
    hide TiledOrTorn, OldSegmentsStay;
  }

  lemma BlockAndClear(cfg: Config, st: Project, lo: int, txHash: string, snapshotCid: string, timestamp: int)
    requires cfg.segmentSize > 0 && Indexed(cfg, st, lo) && !Raises(cfg, st, st.blockHeight + 1)
    ensures var indexed := IndexBlock(cfg, st, st.blockHeight + 1, txHash, snapshotCid, timestamp);
            var next := CreateBlock(cfg, st, st.blockHeight + 1, txHash, snapshotCid, timestamp);
            && SameChain(indexed, next) && next.segments == indexed.segments && Indexed(cfg, next, lo)
            && indexed.blockHeight == st.blockHeight + 1
  {
    hide WellLinked, Ancestor;
    IndexBlockKeepsIndex(cfg, st, lo, txHash, snapshotCid, timestamp);
  }

  lemma NothingCounted(cfg: Config, st: Project, st': Project, e: int, n: nat)
    requires cfg.segmentSize > 0 && TiledOrTorn(cfg, st) && RecordedTimes(cfg, st, e, n)
    requires SameChain(st, st') && st'.segments == st.segments
    ensures Counted(cfg, st, st', false, e, n)
  {
  }

  lemma {:induction false} DrainCounted(cfg: Config, st: Project, lo: int, cut: Cut, e: int, n: nat)
    requires cfg.segmentSize >= 2 && Indexed(cfg, st, lo) && TiledOrTorn(cfg, st) && RecordedTimes(cfg, st, e, n)
    ensures var st' := Drain(cfg, st, cut);
            Counted(cfg, st, st', Short(cut, st'.blockHeight, Drain(cfg, st, NoCut).blockHeight), e, n)
    decreases |st.pending|, 0
  {
    hide WellLinked, Ancestor, TiledOrTorn, ConfirmedIn, Counted, RecordedTimes, InOrder;
    var next := st.blockHeight + 1;
    var queued := ConfirmedIn(At(st.pending, next));
    if queued == [] {
      NothingCounted(cfg, st, st, e, n);
    } else {
      assert queued[0] in At(st.pending, next);
      SmallerWithout(st.pending, next);
      InOrderCounted(cfg, st, lo, queued[0].event.txHash, queued[0].event.snapshotCid, queued[0].event.timestamp, cut,
                     e, n);
    }
  }

  lemma {:induction false} FillsIgnoreCut(cfg: Config, st: Project, z: map<string, int>, env: Env, env': Env, lo: int,
                                          hi: int)
    requires cfg.epochSize.Some? && cfg.firstEpochEnd.Some? && env' == env.(cut := NoCut)
    ensures DropUnreached(env, st.payloadCids, lo, hi) == DropUnreached(env', st.payloadCids, lo, hi)
    ensures AddFillEntries(cfg, env, st.pending, lo, hi) == AddFillEntries(cfg, env', st.pending, lo, hi)
    ensures AddFills(cfg, env, z, lo, hi) == AddFills(cfg, env', z, lo, hi)
    decreases hi - lo
  {
    if lo < hi {
      hide ZAdd;
      FillsIgnoreCut(cfg, st, z, env, env', lo, hi - 1);
      FillCidIgnoresCut(cfg, env, env', hi - 1);
    }
  }

  lemma FillCidIgnoresCut(cfg: Config, env: Env, env': Env, k: int)
    requires cfg.epochSize.Some? && cfg.firstEpochEnd.Some? && env' == env.(cut := NoCut)
    ensures FillCid(cfg, env, k) == FillCid(cfg, env', k)
  {
  }

  lemma FillIgnoresCut(cfg: Config, st: Project, env: Env, env': Env, lo: int, hi: int)
    requires cfg.epochSize.Some? && cfg.firstEpochEnd.Some? && env' == env.(cut := NoCut)
    ensures Fill(cfg, st, env, lo, hi) == Fill(cfg, st, env', lo, hi)
  {
    FillsIgnoreCut(cfg, st, DropUnreached(env, st.payloadCids, lo, hi), env, env', lo, hi);
  }

  lemma HealCounted(cfg: Config, st: Project, lo: int, seen: map<int, seq<Pending>>, height: int, env: Env, e: int,
                    n: nat)
    requires cfg.segmentSize >= 2 && Indexed(cfg, st, lo) && TiledOrTorn(cfg, st) && RecordedTimes(cfg, st, e, n)
    ensures var st' := Heal(cfg, st, seen, height, env);
            var whole := Heal(cfg, st, seen, height, env.(cut := NoCut));
            Counted(cfg, st, st', Short(env.cut, st'.blockHeight, whole.blockHeight), e, n)
  {
    hide InOrder, Earliest, Indexed, FillCid, Fill, Counted, RecordedTimes, TiledOrTorn, ConfirmedIn;
    NothingCounted(cfg, st, st, e, n);
    var next := st.blockHeight + 1;
    var stuck := ConfirmedIn(At(seen, next));
    if |stuck| == 1 {
      InOrderCounted(cfg, st, lo, stuck[0].txHash, stuck[0].event.snapshotCid, stuck[0].event.timestamp, env.cut, e, n);
    } else if |stuck| == 0 && cfg.useConsensus && cfg.epochSize.Some? && cfg.firstEpochEnd.Some? {
      var earliest, env' := Earliest(seen, next + 1, height), env.(cut := NoCut);
      var filled := Fill(cfg, st, env, next, earliest);
      FillIgnoresCut(cfg, st, env, env', next, earliest);
      FillCidIgnoresCut(cfg, env, env', next);
      FillFrame(cfg, st, env, next, earliest);
      FrameIndexed(cfg, st, filled, lo);
      NothingCounted(cfg, st, filled, e, n);
      CountedParts(cfg, st, filled, false, e, n);
      InOrderCounted(cfg, filled, lo, cfg.dummyTxHash, FillCid(cfg, env, next), env.now, env.cut, e, n);
      CountedFrom(cfg, st, filled, Heal(cfg, st, seen, height, env), e, n);
    }
  }

  lemma FillFrame(cfg: Config, st: Project, env: Env, lo: int, hi: int)
    requires cfg.epochSize.Some? && cfg.firstEpochEnd.Some?
    ensures SameChain(st, Fill(cfg, st, env, lo, hi)) && Fill(cfg, st, env, lo, hi).segments == st.segments
  {
  }

  /** Counting only looks at the height of the state before. */
  lemma CountedFrom(cfg: Config, st: Project, mid: Project, st': Project, e: int, n: nat)
    requires cfg.segmentSize > 0 && st.blockHeight == mid.blockHeight && st.segments == mid.segments
    ensures forall died :: Counted(cfg, mid, st', died, e, n) <==> Counted(cfg, st, st', died, e, n)
  {
    hide TiledOrTorn;
  }

  lemma ProcessCounted(cfg: Config, st: Project, lo: int, cb: Callback, env: Env, e: int, n: nat)
    requires cfg.segmentSize >= 2 && Indexed(cfg, st, lo) && TiledOrTorn(cfg, st) && RecordedTimes(cfg, st, e, n)
    ensures var st' := Process(cfg, st, cb, env);
            var whole := Process(cfg, st, cb, env.(cut := NoCut));
            Counted(cfg, st, st', Short(env.cut, st'.blockHeight, whole.blockHeight), e, n)
  {
    hide InOrder, Heal, Indexed, ZAdd, ZRem, TouchedIn, Counted, RecordedTimes, TiledOrTorn;
    var found := Find(At(st.pending, cb.height), cb.requestID);
    NothingCounted(cfg, st, DiscardLate(st, cb), e, n);
    NothingCounted(cfg, st, Discard(st, cb), e, n);
    if cb.height > st.blockHeight && found.Some? {
      if cb.height == st.blockHeight + 1 {
        InOrderCounted(cfg, st, lo, cb.txHash, cb.snapshotCid, cb.timestamp, env.cut, e, n);
      } else {
        var saved := SaveEvent(st, found.value, cb);
        var resubmitted := Resubmit(saved, cb.height);
        FrameIndexed(cfg, st, resubmitted, lo);
        NothingCounted(cfg, st, resubmitted, e, n);
        CountedParts(cfg, st, resubmitted, false, e, n);
        HealCounted(cfg, resubmitted, lo, saved.pending, cb.height, env, e, n);
        CountedFrom(cfg, st, resubmitted, Process(cfg, st, cb, env), e, n);
      }
    }
  }

  // --- every run --------------------------------------------------------------------------

  /** A delivery died with a block next to be written. */
  ghost predicate DiedBeforeBlock(cfg: Config, st: Project, ev: Event)
    requires cfg.segmentSize > 0
  {
    ev.Deliver? && Short(ev.env.cut, Process(cfg, st, ev.cb, ev.env).blockHeight,
                         Process(cfg, st, ev.cb, ev.env.(cut := NoCut)).blockHeight)
  }

  /** How often a run attempted the boundary above e. */
  ghost function Tries(cfg: Config, events: seq<Event>, e: int): nat
    requires cfg.segmentSize > 0
    decreases |events|
  {
    if events == [] then 0
    else
      var prefix, ev := events[..|events| - 1], events[|events| - 1];
      var st := Run(cfg, EMPTY, prefix);
      Tries(cfg, prefix, e) +
      if Attempts(cfg, st, Step(cfg, st, ev), DiedBeforeBlock(cfg, st, ev), e) then 1 else 0
  }

  lemma StepCounted(cfg: Config, st: Project, lo: int, ev: Event, e: int, n: nat)
    requires cfg.segmentSize >= 2 && Indexed(cfg, st, lo) && TiledOrTorn(cfg, st) && RecordedTimes(cfg, st, e, n)
    ensures Counted(cfg, st, Step(cfg, st, ev), DiedBeforeBlock(cfg, st, ev), e, n)
  {
    hide Indexed, Process, ZAdd, Counted, TiledOrTorn, RecordedTimes;
    if ev.Deliver? {
      ProcessCounted(cfg, st, lo, ev.cb, ev.env, e, n);
    } else {
      NothingCounted(cfg, st, Step(cfg, st, ev), e, n);
    }
  }

  lemma {:induction false} TriesAreRecorded(cfg: Config, events: seq<Event>, e: int)
    requires cfg.segmentSize >= 2
    ensures TiledOrTorn(cfg, Run(cfg, EMPTY, events))
    ensures RecordedTimes(cfg, Run(cfg, EMPTY, events), e, Tries(cfg, events, e))
    decreases |events|
  {
    if events != [] {
      hide TiledOrTorn, RecordedTimes, Indexed, Step, Attempts, DiedBeforeBlock;
      var prefix, ev := events[..|events| - 1], events[|events| - 1];
      var st := Run(cfg, EMPTY, prefix);
      TriesAreRecorded(cfg, prefix, e);
      EveryRunIsIndexed(cfg, prefix);
      StepCounted(cfg, st, 0, ev, e, Tries(cfg, prefix, e));
      CountedParts(cfg, st, Step(cfg, st, ev), DiedBeforeBlock(cfg, st, ev), e, Tries(cfg, prefix, e));
    }
  }

  /** What the hash holds for the end e after n attempts at the boundary above it. */
  ghost predicate TilesExactly(cfg: Config, st: Project, e: int, n: nat)
    requires cfg.segmentSize > 0
  {
    && (e in st.segments <==> n >= 1)
    && (EndsSegment(cfg.segmentSize, st.blockHeight, e) ==> n >= 1)
    && (e in st.segments ==>
          st.lastDagCid.Some? &&
          var s, last := st.segments[e], Ancestor(st.lastDagCid.value, e);
          && (IsTile(cfg.segmentSize, s, e, last) <==> n == 1)
          && (IsEmptyRange(s, e, last) <==> n >= 2))
  }

  /** In every run, with deaths anywhere, a segment is recorded exactly when its boundary was attempted;
      it is the right tile exactly when that happened once, and an empty range when it happened more often. */
  lemma EveryRunTilesExactly(cfg: Config, events: seq<Event>, e: int)
    requires cfg.segmentSize >= 2
    ensures TilesExactly(cfg, Run(cfg, EMPTY, events), e, Tries(cfg, events, e))
  {
    hide Run, Tries, Ancestor, EndsSegment;
    TriesAreRecorded(cfg, events, e);
  }
}
