/** How far a delivery gets when its process dies. */
module Deaths {
  import opened Store
  import opened Finalizer
  import opened ChainInvariant
  import opened Queue
  import opened Sets

  function Min(a: int, b: int): int {
    if a < b then a else b
  }

  /** The last height with a block, when creation begins at h and, undisturbed, goes on to m. */
  function LastIndexed(cut: Cut, h: int, m: int): int {
    match cut
    case NoCut => m
    case BeforeHeight(blocks) => Min(m, h + blocks - 1)
    case AfterIndex(blocks) => Min(m, h + blocks)
    case AfterClear(blocks) => Min(m, h + blocks)
  }

  /** The last height whose pending entries are cleared. */
  function LastCleared(cut: Cut, h: int, m: int): int {
    match cut
    case NoCut => m
    case BeforeHeight(blocks) => Min(m, h + blocks - 1)
    case AfterIndex(blocks) => Min(m, h + blocks - 1)
    case AfterClear(blocks) => Min(m, h + blocks)
  }

  ghost predicate Stops(st: Project, st': Project, cut: Cut, m: int) {
    && st'.blockHeight == LastIndexed(cut, st.blockHeight + 1, m)
    && st'.pending == st.pending - Heights(st.blockHeight + 1, LastCleared(cut, st.blockHeight + 1, m))
    && st'.payloadCids == st.payloadCids && st'.discarded == st.discarded
  }

  /** A delivery in order whose process dies has finalized exactly the heights before its death, up to the end of
      the confirmed run; when it dies between the index and the queue, the last one's entries stay. */
  lemma {:induction false} DeathStopsExactly(cfg: Config, st: Project, lo: int, txHash: string, snapshotCid: string,
                                             timestamp: int, cut: Cut, m: int)
    requires cfg.segmentSize > 0 && Indexed(cfg, st, lo) && IsRunEnd(st.pending, st.blockHeight + 1, m)
    ensures Stops(st, InOrder(cfg, st, st.blockHeight + 1, txHash, snapshotCid, timestamp, cut), cut, m)
    decreases |st.pending - {st.blockHeight + 1}|, 1
  {
    hide ConfirmedIn, IndexBlock, WithSegment, CreateBlock, Indexed, Stops, OneLess, Drain, IsRunEnd, Heights,
         Carries, Ancestor, Extends, Raises, InOrder;
    var h := st.blockHeight + 1;
    CreateBlockEffect(cfg, st, lo, txHash, snapshotCid, timestamp);
    FirstBlock(cfg, st, txHash, snapshotCid, timestamp);
    var mid := CreateBlock(cfg, st, h, txHash, snapshotCid, timestamp);
    assert m >= h by {
      RunEndIsAbove(st.pending, h, m);
    }
    StopsAtOnce(st, WithSegment(cfg, st, h), IndexBlock(cfg, st, h, txHash, snapshotCid, timestamp), mid, m);
    DeathOrQueue(cfg, st, h, txHash, snapshotCid, timestamp, cut);
    if !AtOnce(cut) {
      RunEndAbove(st, mid, m);
      QueueStops(cfg, mid, lo, OneLess(cut), m);
      StopsLater(st, mid, Drain(cfg, mid, OneLess(cut)), cut, m);
    }
  }

  predicate AtOnce(cut: Cut) {
    cut == BeforeHeight(0) || cut == AfterIndex(0) || cut == AfterClear(0)
  }

  lemma DeathOrQueue(cfg: Config, st: Project, h: nat, txHash: string, snapshotCid: string, timestamp: int, cut: Cut)
    requires cfg.segmentSize > 0 && !Raises(cfg, st, h)
    ensures var st' := InOrder(cfg, st, h, txHash, snapshotCid, timestamp, cut);
            && (cut == BeforeHeight(0) ==> st' == WithSegment(cfg, st, h))
            && (cut == AfterIndex(0) ==> st' == IndexBlock(cfg, st, h, txHash, snapshotCid, timestamp))
            && (cut == AfterClear(0) ==> st' == CreateBlock(cfg, st, h, txHash, snapshotCid, timestamp))
            && (!AtOnce(cut) ==>
                  st' == Drain(cfg, CreateBlock(cfg, st, h, txHash, snapshotCid, timestamp), OneLess(cut)))
  {
    hide IndexBlock, WithSegment, CreateBlock, Raises, Drain, OneLess;
  }

  lemma RunEndIsAbove(z: map<int, seq<Pending>>, h: int, m: int)
    requires IsRunEnd(z, h, m)
    ensures h <= m
  {
  }

  lemma RunEndAbove(st: Project, mid: Project, m: int)
    requires IsRunEnd(st.pending, st.blockHeight + 1, m)
    requires mid.blockHeight == st.blockHeight + 1 && mid.pending == st.pending - {mid.blockHeight}
    ensures IsRunEnd(mid.pending, mid.blockHeight, m)
  {
    hide ConfirmedIn;
    forall k | k != mid.blockHeight ensures At(mid.pending, k) == At(st.pending, k) {
    }
  }

  /** The block at h is not there, there with its entries, or there without them. */
  lemma StopsAtOnce(st: Project, waiting: Project, indexed: Project, done: Project, m: int)
    requires m >= st.blockHeight + 1
    requires waiting.blockHeight == st.blockHeight && waiting.pending == st.pending
    requires indexed.blockHeight == st.blockHeight + 1 && indexed.pending == st.pending
    requires done.blockHeight == st.blockHeight + 1 && done.pending == st.pending - {st.blockHeight + 1}
    requires waiting.payloadCids == indexed.payloadCids == done.payloadCids == st.payloadCids
    requires waiting.discarded == indexed.discarded == done.discarded == st.discarded
    ensures Stops(st, waiting, BeforeHeight(0), m)
    ensures Stops(st, indexed, AfterIndex(0), m)
    ensures Stops(st, done, AfterClear(0), m)
  {
    var h := st.blockHeight + 1;
    assert Heights(h, h - 1) == {} && Heights(h, h) == {h} && st.pending - {} == st.pending;
  }

  lemma StopsLater(st: Project, mid: Project, st': Project, cut: Cut, m: int)
    requires !AtOnce(cut) && Stops(mid, st', OneLess(cut), m)
    requires mid.blockHeight == st.blockHeight + 1 <= m && mid.pending == st.pending - {mid.blockHeight}
    requires mid.payloadCids == st.payloadCids && mid.discarded == st.discarded
    ensures Stops(st, st', cut, m)
  {
    var h := mid.blockHeight;
    var last := LastCleared(OneLess(cut), h + 1, m);
    assert last == LastCleared(cut, h, m) >= h;
    assert Heights(h, last) == {h} + Heights(h + 1, last);
    assert st.pending - {h} - Heights(h + 1, last) == st.pending - Heights(h, last);
  }

  lemma FirstBlock(cfg: Config, st: Project, txHash: string, snapshotCid: string, timestamp: int)
    requires cfg.segmentSize > 0 && !Raises(cfg, st, st.blockHeight + 1)
    ensures var waiting := WithSegment(cfg, st, st.blockHeight + 1);
            && waiting.blockHeight == st.blockHeight && waiting.pending == st.pending
            && waiting.payloadCids == st.payloadCids && waiting.discarded == st.discarded
    ensures var indexed := IndexBlock(cfg, st, st.blockHeight + 1, txHash, snapshotCid, timestamp);
            && indexed.blockHeight == st.blockHeight + 1 && indexed.pending == st.pending
            && indexed.payloadCids == st.payloadCids && indexed.discarded == st.discarded
  {
  }

  lemma {:induction false} QueueStops(cfg: Config, st: Project, lo: int, cut: Cut, m: int)
    requires cfg.segmentSize > 0 && Indexed(cfg, st, lo) && IsRunEnd(st.pending, st.blockHeight, m)
    ensures Stops(st, Drain(cfg, st, cut), cut, m)
    decreases |st.pending|, 0
  {
    hide ConfirmedIn, Indexed;
    var next := st.blockHeight + 1;
    var queued := ConfirmedIn(At(st.pending, next));
    if queued == [] {
      assert m == st.blockHeight;
      NothingAbove(st, cut);
    } else {
      assert queued[0] in At(st.pending, next);
      SmallerWithout(st.pending, next);
      var e := queued[0].event;
      DeathStopsExactly(cfg, st, lo, e.txHash, e.snapshotCid, e.timestamp, cut, m);
    }
  }

  lemma NothingAbove(st: Project, cut: Cut)
    ensures Stops(st, st, cut, st.blockHeight)
  {
    assert Heights(st.blockHeight + 1, LastCleared(cut, st.blockHeight + 1, st.blockHeight)) == {};
    assert st.pending - {} == st.pending;
  }
}
