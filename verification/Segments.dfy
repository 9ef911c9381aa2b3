/** The dagSegments hash cuts the finalized chain into segments of equal length. */
module Segments {
  import opened Wrappers
  import opened Store
  import opened Finalizer
  import opened ChainInvariant
  import opened Numbers
  import opened Sets

  /** The heights at which a segment ends, once the next block exists. */
  predicate EndsSegment(segmentSize: int, blockHeight: int, e: int)
    requires segmentSize > 0
  {
    0 < e < blockHeight && e % segmentSize == 0
  }

  predicate IsTile(segmentSize: int, s: Segment, e: int, last: Cid) {
    s.beginHeight == e - segmentSize + 1 && s.endHeight == e && s.endDagCid == last
  }

  /** Segment number k is [(k-1)*S+1, k*S] and names the block at k*S; there is one for every
      complete S heights below the finalized one. */
  ghost predicate Tiled(cfg: Config, st: Project)
    requires cfg.segmentSize > 0
  {
    && (st.blockHeight > 0 ==> st.lastDagCid.Some?)
    && (forall e :: e in st.segments <==> EndsSegment(cfg.segmentSize, st.blockHeight, e))
    && (forall e | e in st.segments :: IsTile(cfg.segmentSize, st.segments[e], e, Ancestor(st.lastDagCid.value, e)))
  }

  lemma OneLessMod(size: int, k: int)
    requires size > 0 && k % size > 0
    ensures (k - 1) % size == k % size - 1
  {
    DivModUnique(size, k - 1, k / size, k % size - 1);
  }

  /** `h % S == 1` says that the height before h is a multiple of S. */
  lemma BoundaryIsAfterMultiple(size: int, h: int)
    requires size >= 2 && h >= 1
    ensures Boundary(size, h) <==> h > 1 && (h - 1) % size == 0
    ensures h > 1 && (h - 1) % size == 0 ==> h - 1 >= size
  {
    var q, r := (h - 1) / size, (h - 1) % size;
    assert h - 1 == q * size + r;
    if r + 1 < size {
      assert h == q * size + (r + 1);
      DivModUnique(size, h, q, r + 1);
    } else {
      assert h == (q + 1) * size;
      DivModUnique(size, h, q + 1, 0);
    }
    if h > 1 && r == 0 {
      MultiplesApart(size, 0, h - 1);
    }
  }

  /** The segment written just before a boundary block is the next tile. */
  lemma NextSegment(cfg: Config, st: Project, lo: int)
    requires cfg.segmentSize >= 2 && Indexed(cfg, st, lo) && Tiled(cfg, st)
    requires Boundary(cfg.segmentSize, st.blockHeight + 1)
    ensures !Raises(cfg, st, st.blockHeight + 1)
    ensures var bh := st.blockHeight;
            var st' := WithSegment(cfg, st, bh + 1);
            && st'.segments == st.segments[bh := Segment(bh - cfg.segmentSize + 1, bh, st.lastDagCid.value,
                                                         PendingStorage)]
            && bh % cfg.segmentSize == 0
  {
    hide WellLinked, Ancestor;
    var size, bh := cfg.segmentSize, st.blockHeight;
    ParentOfNext(cfg, st, lo);
    BoundaryIsAfterMultiple(size, bh + 1);
    MultipleBefore(size, bh);
    if bh > size {
      assert EndsSegment(size, bh, bh - size);
      var m := MaxOf(st.segments.Keys);
      assert EndsSegment(size, bh, m);
      MultiplesApart(size, m, bh);
      assert m == bh - size;
    } else if st.segments != map[] {
      var m := MaxOf(st.segments.Keys);
      assert EndsSegment(size, bh, m);
      MultiplesApart(size, 0, m);
    }
  }

  /** Recorded segments stay as they are; new ones are pending and end at or above the old height. */
  ghost predicate SegmentsGrow(st: Project, st': Project) {
    && st.blockHeight <= st'.blockHeight
    && (forall e | e in st.segments :: e in st'.segments && st'.segments[e] == st.segments[e])
    && (forall e | e in st'.segments && e !in st.segments ::
          e >= st.blockHeight && st'.segments[e].storage == PendingStorage)
  }

  lemma GrowTransitive(a: Project, b: Project, c: Project)
    requires SegmentsGrow(a, b) && SegmentsGrow(b, c)
    ensures SegmentsGrow(a, c)
  {
  }

  lemma IndexBlockKeepsTiling(cfg: Config, st: Project, lo: int, txHash: string, snapshotCid: string, timestamp: int)
    requires cfg.segmentSize >= 2 && Indexed(cfg, st, lo) && Tiled(cfg, st)
    ensures !Raises(cfg, st, st.blockHeight + 1)
    ensures var st' := IndexBlock(cfg, st, st.blockHeight + 1, txHash, snapshotCid, timestamp);
            Tiled(cfg, st') && SegmentsGrow(st, st')
  {
    hide WellLinked, Boundary, BlockOn, IdentifyPruneTarget, Ancestor, Indexed;
    var size, bh := cfg.segmentSize, st.blockHeight;
    IndexBlockKeepsIndex(cfg, st, lo, txHash, snapshotCid, timestamp);
    ParentOfNext(cfg, st, lo);
    BoundaryIsAfterMultiple(size, bh + 1);
    var st' := IndexBlock(cfg, st, bh + 1, txHash, snapshotCid, timestamp);
    if Boundary(size, bh + 1) {
      NextSegment(cfg, st, lo);
      LastIsTop(cfg, st, lo);
    }
    assert st'.segments == WithSegment(cfg, st, bh + 1).segments;
    forall e ensures e in st'.segments <==> EndsSegment(size, bh + 1, e) {
      assert e in st.segments <==> EndsSegment(size, bh, e);
    }
    forall e | e in st'.segments
      ensures IsTile(size, st'.segments[e], e, Ancestor(st'.lastDagCid.value, e))
    {
      assert e <= bh;
      assert Ancestor(st'.lastDagCid.value, e) == Ancestor(st.lastDagCid.value, e);
    }
  }

  lemma TilingFrame(cfg: Config, st: Project, st': Project)
    requires cfg.segmentSize > 0 && Tiled(cfg, st) && SameChain(st, st') && st'.segments == st.segments
    ensures Tiled(cfg, st') && SegmentsGrow(st, st')
  {
  }

  lemma {:induction false} InOrderKeepsTiling(cfg: Config, st: Project, lo: int, txHash: string, snapshotCid: string,
                                              timestamp: int, cut: Cut)
    requires cfg.segmentSize >= 2 && Indexed(cfg, st, lo) && Tiled(cfg, st) && !cut.BeforeHeight?
    ensures var st' := InOrder(cfg, st, st.blockHeight + 1, txHash, snapshotCid, timestamp, cut);
            Tiled(cfg, st') && SegmentsGrow(st, st')
    decreases |st.pending - {st.blockHeight + 1}|, 1
  {
    hide Drain, WellLinked, Ancestor, Tiled, IndexBlock, SegmentsGrow;
    var h := st.blockHeight + 1;
    IndexBlockKeepsIndex(cfg, st, lo, txHash, snapshotCid, timestamp);
    IndexBlockKeepsTiling(cfg, st, lo, txHash, snapshotCid, timestamp);
    var indexed := IndexBlock(cfg, st, h, txHash, snapshotCid, timestamp);
    var next := CreateBlock(cfg, st, h, txHash, snapshotCid, timestamp);
    FrameIndexed(cfg, indexed, next, lo);
    TilingFrame(cfg, indexed, next);
    GrowTransitive(st, indexed, next);
    if cut.NoCut? || cut.blocks > 0 {
      PendingOfIndexBlock(cfg, st, h, txHash, snapshotCid, timestamp);
      DrainKeepsTiling(cfg, next, lo, OneLess(cut));
      GrowTransitive(st, next, Drain(cfg, next, OneLess(cut)));
    }
  }

  lemma PendingOfIndexBlock(cfg: Config, st: Project, h: nat, txHash: string, snapshotCid: string, timestamp: int)
    requires cfg.segmentSize > 0 && !Raises(cfg, st, h)
    ensures IndexBlock(cfg, st, h, txHash, snapshotCid, timestamp).pending == st.pending
  {
  }

  lemma {:induction false} DrainKeepsTiling(cfg: Config, st: Project, lo: int, cut: Cut)
    requires cfg.segmentSize >= 2 && Indexed(cfg, st, lo) && Tiled(cfg, st) && !cut.BeforeHeight?
    ensures Tiled(cfg, Drain(cfg, st, cut)) && SegmentsGrow(st, Drain(cfg, st, cut))
    decreases |st.pending|, 0
  {
    hide WellLinked, Ancestor, Tiled, ConfirmedIn, SegmentsGrow;
    TilingFrame(cfg, st, st);
    var next := st.blockHeight + 1;
    var queued := ConfirmedIn(At(st.pending, next));
    if queued != [] {
      assert queued[0] in At(st.pending, next);
      SmallerWithout(st.pending, next);
      var e := queued[0].event;
      InOrderKeepsTiling(cfg, st, lo, e.txHash, e.snapshotCid, e.timestamp, cut);
    }
  }

  lemma HealKeepsTiling(cfg: Config, st: Project, lo: int, seen: map<int, seq<Pending>>, height: int, env: Env)
    requires cfg.segmentSize >= 2 && Indexed(cfg, st, lo) && Tiled(cfg, st) && !env.cut.BeforeHeight?
    ensures Tiled(cfg, Heal(cfg, st, seen, height, env)) && SegmentsGrow(st, Heal(cfg, st, seen, height, env))
  {
    hide InOrder, Earliest, Tiled, Indexed, FillCid, AddFillEntries, AddFills, DropUnreached, SegmentsGrow;
    TilingFrame(cfg, st, st);
    var next := st.blockHeight + 1;
    var stuck := ConfirmedIn(At(seen, next));
    if |stuck| == 1 {
      InOrderKeepsTiling(cfg, st, lo, stuck[0].txHash, stuck[0].event.snapshotCid, stuck[0].event.timestamp, env.cut);
    } else if |stuck| == 0 && cfg.useConsensus && cfg.epochSize.Some? && cfg.firstEpochEnd.Some? {
      var filled := Fill(cfg, st, env, next, Earliest(seen, next + 1, height));
      FrameIndexed(cfg, st, filled, lo);
      TilingFrame(cfg, st, filled);
      InOrderKeepsTiling(cfg, filled, lo, cfg.dummyTxHash, FillCid(cfg, env, next), env.now, env.cut);
      GrowTransitive(st, filled, Heal(cfg, st, seen, height, env));
    }
  }

  lemma ProcessKeepsTiling(cfg: Config, st: Project, lo: int, cb: Callback, env: Env)
    requires cfg.segmentSize >= 2 && Indexed(cfg, st, lo) && Tiled(cfg, st) && !env.cut.BeforeHeight?
    ensures Tiled(cfg, Process(cfg, st, cb, env)) && SegmentsGrow(st, Process(cfg, st, cb, env))
  {
    hide InOrder, Heal, Tiled, Indexed, ZAdd, ZRem, TouchedIn, SegmentsGrow;
    var found := Find(At(st.pending, cb.height), cb.requestID);
    TilingFrame(cfg, st, DiscardLate(st, cb));
    TilingFrame(cfg, st, Discard(st, cb));
    if cb.height > st.blockHeight && found.Some? {
      if cb.height == st.blockHeight + 1 {
        InOrderKeepsTiling(cfg, st, lo, cb.txHash, cb.snapshotCid, cb.timestamp, env.cut);
      } else {
        var saved := SaveEvent(st, found.value, cb);
        var resubmitted := Resubmit(saved, cb.height);
        FrameIndexed(cfg, st, resubmitted, lo);
        TilingFrame(cfg, st, resubmitted);
        HealKeepsTiling(cfg, resubmitted, lo, saved.pending, cb.height, env);
        GrowTransitive(st, resubmitted, Heal(cfg, resubmitted, saved.pending, cb.height, env));
      }
    }
  }

  /** No delivery dies between writing a segment and writing its boundary block. */
  predicate BoundaryOnce(ev: Event) {
    ev.Deliver? ==> !ev.env.cut.BeforeHeight?
  }

  lemma StepKeepsTiling(cfg: Config, st: Project, lo: int, ev: Event)
    requires cfg.segmentSize >= 2 && Indexed(cfg, st, lo) && Tiled(cfg, st) && BoundaryOnce(ev)
    ensures Tiled(cfg, Step(cfg, st, ev)) && SegmentsGrow(st, Step(cfg, st, ev))
  {
    hide Tiled, Indexed, Process, ZAdd, SegmentsGrow;
    if ev.Deliver? {
      ProcessKeepsTiling(cfg, st, lo, ev.cb, ev.env);
    } else {
      TilingFrame(cfg, st, Step(cfg, st, ev));
    }
  }

  lemma {:induction false} EveryRunTiles(cfg: Config, events: seq<Event>)
    requires cfg.segmentSize >= 2
    requires forall ev | ev in events :: BoundaryOnce(ev)
    ensures Tiled(cfg, Run(cfg, EMPTY, events))
    decreases |events|
  {
    if events != [] {
      hide Tiled, Indexed, Step;
      EveryRunTiles(cfg, events[..|events| - 1]);
      EveryRunIsIndexed(cfg, events[..|events| - 1]);
      StepKeepsTiling(cfg, Run(cfg, EMPTY, events[..|events| - 1]), 0, events[|events| - 1]);
    }
  }

  // --- walking one segment ------------------------------------------------------

  /** Following prevCid from a block visits exactly the heights down to the first of its segment,
      which has no prevCid. */
  lemma {:induction false} WalkStopsAtSegment(cfg: Config, c: Cid)
    requires cfg.segmentSize >= 2 && WellLinked(cfg, c)
    ensures |WalkSegment(c)| == (c.block.height - 1) % cfg.segmentSize + 1
    ensures forall i | 0 <= i < |WalkSegment(c)| :: WalkSegment(c)[i] == Ancestor(c, c.block.height - i)
    ensures forall i | 0 <= i < |WalkSegment(c)| :: WalkSegment(c)[i].block.height == c.block.height - i
    ensures WalkSegment(c)[|WalkSegment(c)| - 1].block.prevCid.None?
    decreases c
  {
    hide Boundary;
    var size, h := cfg.segmentSize, c.block.height;
    BoundaryIsAfterMultiple(size, h);
    if c.block.prevCid.Some? {
      var p := c.block.prevCid.value;
      WalkStopsAtSegment(cfg, p);
      assert WalkSegment(c) == [c] + WalkSegment(p);
      assert !Boundary(size, h) && h > 1;
      OneLessMod(size, h - 1);
      forall i | 0 <= i < |WalkSegment(c)|
        ensures WalkSegment(c)[i] == Ancestor(c, h - i) && WalkSegment(c)[i].block.height == h - i
      {
        if i > 0 {
          assert WalkSegment(c)[i] == WalkSegment(p)[i - 1];
        }
      }
    } else {
      if h == 1 { DivModUnique(size, 0, 0, 0); }
      assert WalkSegment(c) == [c];
    }
  }

  lemma {:induction false} AncestorLinked(cfg: Config, c: Cid, h: int)
    requires cfg.segmentSize > 0 && WellLinked(cfg, c) && 1 <= h <= c.block.height
    ensures WellLinked(cfg, Ancestor(c, h)) && Ancestor(c, h).block.height == h
    decreases c
  {
    if c.block.height > h {
      AncestorLinked(cfg, Parent(c).value, h);
    }
  }

  /** A DAG export that starts at a segment's endDAGCID holds exactly that segment's heights. */
  lemma SegmentWalk(cfg: Config, st: Project, lo: int, e: int)
    requires cfg.segmentSize >= 2 && Indexed(cfg, st, lo) && Tiled(cfg, st) && e in st.segments
    ensures var walk := WalkSegment(st.segments[e].endDagCid);
            && |walk| == cfg.segmentSize == st.segments[e].endHeight - st.segments[e].beginHeight + 1
            && (forall i | 0 <= i < |walk| :: walk[i].block.height == st.segments[e].endHeight - i)
            && (forall i | 0 <= i < |walk| && lo < e - i :: GetDagCid(st, e - i) == Some(walk[i]))
            && walk[|walk| - 1].block.prevCid.None?
  {
    hide WellLinked, WalkSegment;
    var size, head := cfg.segmentSize, st.lastDagCid.value;
    var c := st.segments[e].endDagCid;
    assert EndsSegment(size, st.blockHeight, e) && c == Ancestor(head, e);
    AncestorLinked(cfg, head, e);
    WalkStopsAtSegment(cfg, c);
    var q := e / size;
    assert e - 1 == (q - 1) * size + (size - 1);
    DivModUnique(size, e - 1, q - 1, size - 1);
    forall i | 0 <= i < size && lo < e - i ensures GetDagCid(st, e - i) == Some(WalkSegment(c)[i]) {
      AncestorOfAncestor(head, e, e - i);
      assert At(st.cids, e - i) == [Ancestor(head, e - i)];
    }
  }

  lemma {:induction false} AncestorOfAncestor(c: Cid, a: int, b: int)
    requires b <= a
    ensures Ancestor(Ancestor(c, a), b) == Ancestor(c, b)
    decreases c
  {
    if c.block.height > a && Parent(c).Some? {
      AncestorOfAncestor(Parent(c).value, a, b);
    }
  }
}
