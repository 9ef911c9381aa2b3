/** The chain behind the keys: the index lists exactly the ancestors of the last block,
    whatever is delivered and wherever a delivery dies. */
module ChainInvariant {
  import opened Wrappers
  import opened Store
  import opened Finalizer
  import opened Sets

  /** Each block names its predecessor by prevCid, or by prevRoot where a segment begins. */
  predicate WellLinked(cfg: Config, c: Cid)
    requires cfg.segmentSize > 0
    decreases c
  {
    var b := c.block;
    b.height >= 1 &&
    if b.height == 1 then b.prevCid.None? && b.prevRoot.None?
    else if Boundary(cfg.segmentSize, b.height) then
      b.prevCid.None? && b.prevRoot.Some? &&
      b.prevRoot.value.block.height == b.height - 1 && WellLinked(cfg, b.prevRoot.value)
    else
      b.prevRoot.None? && b.prevCid.Some? &&
      b.prevCid.value.block.height == b.height - 1 && WellLinked(cfg, b.prevCid.value)
  }

  /** The block at a height on the path from a block to its root. */
  function Ancestor(c: Cid, h: int): Cid
    decreases c
  {
    if c.block.height <= h then c
    else
      match c.block.prevCid
      case Some(p) => Ancestor(p, h)
      case None =>
        match c.block.prevRoot
        case Some(r) => Ancestor(r, h)
        case None => c
  }

  /** The state of the index when everything up to `lo` has been pruned. */
  ghost predicate Indexed(cfg: Config, st: Project, lo: int)
    requires cfg.segmentSize > 0
  {
    && 0 <= lo <= st.blockHeight
    && (st.blockHeight == 0 ==> st.lastDagCid.None?)
    && (st.blockHeight > 0 ==>
          && lo < st.blockHeight
          && st.lastDagCid.Some?
          && st.lastDagCid.value.block.height == st.blockHeight
          && WellLinked(cfg, st.lastDagCid.value))
    && (forall h :: At(st.cids, h) ==
                    if lo < h <= st.blockHeight then [Ancestor(st.lastDagCid.value, h)] else [])
  }

  /** Finality: the old chain is the tail of the new one. */
  ghost predicate Extends(st: Project, st': Project) {
    && st.blockHeight <= st'.blockHeight
    && (st.blockHeight > 0 ==>
          st.lastDagCid.Some? && st'.lastDagCid.Some? &&
          forall h | h <= st.blockHeight :: Ancestor(st'.lastDagCid.value, h) == Ancestor(st.lastDagCid.value, h))
  }

  /** The keys other than blockHeight, lastDagCid and Cids play no part. */
  ghost predicate SameChain(st: Project, st': Project) {
    st'.blockHeight == st.blockHeight && st'.lastDagCid == st.lastDagCid && st'.cids == st.cids
  }

  /** The three key writes of a block: it becomes the last one, and a member of its height next to any that were
      there, which only a death among such writes leaves behind. */
  lemma WriteBlockExactly(st: Project, h: nat, c: Cid)
    ensures var st' := WriteBlock(st, h, c);
            && st'.blockHeight == h && st'.lastDagCid == Some(c)
            && (forall d :: d in At(st'.cids, h) <==> d == c || d in At(st.cids, h))
            && (c !in At(st.cids, h) ==> |At(st'.cids, h)| == |At(st.cids, h)| + 1)
            && (forall k | k != h :: At(st'.cids, k) == At(st.cids, k))
            && st' == st.(blockHeight := h, lastDagCid := Some(c), cids := st'.cids)
  {
  }

  lemma FrameIndexed(cfg: Config, st: Project, st': Project, lo: int)
    requires cfg.segmentSize > 0 && Indexed(cfg, st, lo) && SameChain(st, st')
    ensures Indexed(cfg, st', lo) && Extends(st, st')
  {
  }

  lemma WithSegmentFrame(cfg: Config, st: Project, h: nat)
    requires cfg.segmentSize > 0 && !Raises(cfg, st, h)
    ensures SameChain(st, WithSegment(cfg, st, h))
  {
  }

  lemma ExtendsTransitive(a: Project, b: Project, c: Project)
    requires Extends(a, b) && Extends(b, c)
    ensures Extends(a, c)
  {
  }

  lemma ParentOfNext(cfg: Config, st: Project, lo: int)
    requires cfg.segmentSize > 0 && Indexed(cfg, st, lo)
    ensures GetDagCid(st, st.blockHeight) == st.lastDagCid
    ensures !Raises(cfg, st, st.blockHeight + 1)
  {
    var b := At(st.cids, st.blockHeight);
    if st.blockHeight > 0 {
      assert b == [st.lastDagCid.value];
    }
  }

  lemma LastIsTop(cfg: Config, st: Project, lo: int)
    requires cfg.segmentSize > 0 && Indexed(cfg, st, lo) && st.blockHeight > 0
    ensures st.lastDagCid.Some? && Ancestor(st.lastDagCid.value, st.blockHeight) == st.lastDagCid.value
  {
    hide WellLinked;
  }

  lemma IndexBlockKeepsIndex(cfg: Config, st: Project, lo: int, txHash: string, snapshotCid: string, timestamp: int)
    requires cfg.segmentSize > 0 && Indexed(cfg, st, lo)
    ensures !Raises(cfg, st, st.blockHeight + 1)
    ensures var st' := IndexBlock(cfg, st, st.blockHeight + 1, txHash, snapshotCid, timestamp);
            Indexed(cfg, st', lo) && Extends(st, st') && st'.blockHeight == st.blockHeight + 1
  {
    ParentOfNext(cfg, st, lo);
    var h := st.blockHeight + 1;
    var st' := IndexBlock(cfg, st, h, txHash, snapshotCid, timestamp);
    var c := BlockOn(cfg, st.lastDagCid, h, txHash, snapshotCid, timestamp);
    assert At(st.cids, h) == [];
    assert WellLinked(cfg, c);
    forall k ensures At(st'.cids, k) == if lo < k <= h then [Ancestor(c, k)] else [] {
      assert At(st'.cids, k) == if k == h then [c] else At(st.cids, k);
    }
  }

  lemma {:induction false} InOrderKeepsIndex(cfg: Config, st: Project, lo: int, txHash: string, snapshotCid: string,
                                             timestamp: int, cut: Cut)
    requires cfg.segmentSize > 0 && Indexed(cfg, st, lo)
    ensures var st' := InOrder(cfg, st, st.blockHeight + 1, txHash, snapshotCid, timestamp, cut);
            Indexed(cfg, st', lo) && Extends(st, st')
    decreases |st.pending - {st.blockHeight + 1}|, 1
  {
    hide Drain, WellLinked, Ancestor;
    var h := st.blockHeight + 1;
    IndexBlockKeepsIndex(cfg, st, lo, txHash, snapshotCid, timestamp);
    var indexed := IndexBlock(cfg, st, h, txHash, snapshotCid, timestamp);
    var next := CreateBlock(cfg, st, h, txHash, snapshotCid, timestamp);
    FrameIndexed(cfg, indexed, next, lo);
    FrameIndexed(cfg, st, WithSegment(cfg, st, h), lo);
    ExtendsTransitive(st, indexed, next);
    if cut.NoCut? || cut.blocks > 0 {
      DrainKeepsIndex(cfg, next, lo, OneLess(cut));
      ExtendsTransitive(st, next, Drain(cfg, next, OneLess(cut)));
    }
  }

  lemma {:induction false} DrainKeepsIndex(cfg: Config, st: Project, lo: int, cut: Cut)
    requires cfg.segmentSize > 0 && Indexed(cfg, st, lo)
    ensures var st' := Drain(cfg, st, cut); Indexed(cfg, st', lo) && Extends(st, st')
    decreases |st.pending|, 0
  {
    hide ConfirmedIn, Indexed, Extends, InOrder;
    FrameIndexed(cfg, st, st, lo);
    var next := st.blockHeight + 1;
    var queued := ConfirmedIn(At(st.pending, next));
    if queued != [] {
      assert queued[0] in At(st.pending, next);
      SmallerWithout(st.pending, next);
      var e := queued[0].event;
      InOrderKeepsIndex(cfg, st, lo, e.txHash, e.snapshotCid, e.timestamp, cut);
    }
  }

  /** One delivery, whatever it carries and wherever it dies, keeps the chain and its index
      and only ever extends the chain. */
  lemma ProcessKeepsIndex(cfg: Config, st: Project, lo: int, cb: Callback, env: Env)
    requires cfg.segmentSize > 0 && Indexed(cfg, st, lo)
    ensures var st' := Process(cfg, st, cb, env); Indexed(cfg, st', lo) && Extends(st, st')
  {
    hide InOrder, Heal, Insert, Without, Touched;
    var found := Find(At(st.pending, cb.height), cb.requestID);
    if cb.height > st.blockHeight && found.Some? {
      if cb.height == st.blockHeight + 1 {
        InOrderKeepsIndex(cfg, st, lo, cb.txHash, cb.snapshotCid, cb.timestamp, env.cut);
      } else {
        var saved := SaveEvent(st, found.value, cb);
        var resubmitted := Resubmit(saved, cb.height);
        assert Indexed(cfg, resubmitted, lo);
        HealKeepsIndex(cfg, resubmitted, lo, saved.pending, cb.height, env);
      }
    }
  }

  lemma HealKeepsIndex(cfg: Config, st: Project, lo: int, seen: map<int, seq<Pending>>, height: int, env: Env)
    requires cfg.segmentSize > 0 && Indexed(cfg, st, lo)
    ensures var st' := Heal(cfg, st, seen, height, env); Indexed(cfg, st', lo) && Extends(st, st')
  {
    hide InOrder, FillFrom, Earliest;
    var next := st.blockHeight + 1;
    var stuck := ConfirmedIn(At(seen, next));
    var st' := Heal(cfg, st, seen, height, env);
    if |stuck| == 1 {
      var e := stuck[0].event;
      assert st' == InOrder(cfg, st, next, stuck[0].txHash, e.snapshotCid, e.timestamp, env.cut);
      InOrderKeepsIndex(cfg, st, lo, stuck[0].txHash, e.snapshotCid, e.timestamp, env.cut);
    } else if |stuck| > 1 || !cfg.useConsensus || cfg.epochSize.None? || cfg.firstEpochEnd.None? {
      assert st' == st;
    } else {
      var earliest := Earliest(seen, next + 1, height);
      assert st' == FillFrom(cfg, st, earliest, env);
      FillFromKeepsIndex(cfg, st, lo, earliest, env);
    }
  }

  lemma FillFromKeepsIndex(cfg: Config, st: Project, lo: int, earliest: int, env: Env)
    requires cfg.segmentSize > 0 && cfg.epochSize.Some? && cfg.firstEpochEnd.Some? && Indexed(cfg, st, lo)
    ensures var st' := FillFrom(cfg, st, earliest, env); Indexed(cfg, st', lo) && Extends(st, st')
  {
    hide InOrder, FillCid, AddFillEntries, AddFills, DropUnreached;
    var next := st.blockHeight + 1;
    var filled := Fill(cfg, st, env, next, earliest);
    FrameIndexed(cfg, st, filled, lo);
    InOrderKeepsIndex(cfg, filled, lo, cfg.dummyTxHash, FillCid(cfg, env, next), env.now, env.cut);
    ExtendsTransitive(st, filled, FillFrom(cfg, st, earliest, env));
  }

  // --- every reachable state -----------------------------------------------

  /** What happens to the keys: a delivery; payload-commit queues or requeues an entry and records a
      snapshot CID; and a delivery that dies before it writes any block, part way through parking,
      discarding, resubmitting or filling, which may leave the keys of the queue in any state. */
  datatype Event =
    | Deliver(cb: Callback, env: Env)
    | Submitted(height: int, entry: Pending)
    | Resubmitted(height: int, entry: Pending)
    | Recorded(height: int, snapshotCid: string)
    | Interrupted(pending: map<int, seq<Pending>>, discarded: map<string, int>, payloadCids: map<string, int>)

  /** The pending entries payload-commit writes: a new one is added, a resubmission replaces its height. */
  ghost function Step(cfg: Config, st: Project, ev: Event): Project
    requires cfg.segmentSize > 0
  {
    match ev
    case Deliver(cb, env) => Process(cfg, st, cb, env)
    case Submitted(h, e) => st.(pending := ZAdd(st.pending, h, e))
    case Resubmitted(h, e) => st.(pending := ZAdd(st.pending - {h}, h, e))
    case Recorded(h, c) => st.(payloadCids := st.payloadCids[c := h])
    case Interrupted(pending, discarded, payloadCids) =>
      st.(pending := pending, discarded := discarded, payloadCids := payloadCids)
  }

  ghost function Run(cfg: Config, st: Project, events: seq<Event>): Project
    requires cfg.segmentSize > 0
    decreases |events|
  {
    if events == [] then st
    else Step(cfg, Run(cfg, st, events[..|events| - 1]), events[|events| - 1])
  }

  const EMPTY: Project := Project(0, None, map[], map[], map[], map[], map[])

  lemma StepKeepsIndex(cfg: Config, st: Project, lo: int, ev: Event)
    requires cfg.segmentSize > 0 && Indexed(cfg, st, lo)
    ensures Indexed(cfg, Step(cfg, st, ev), lo) && Extends(st, Step(cfg, st, ev))
  {
    hide Process, WellLinked, Ancestor, ZAdd;
    if ev.Deliver? {
      ProcessKeepsIndex(cfg, st, lo, ev.cb, ev.env);
    } else {
      FrameIndexed(cfg, st, Step(cfg, st, ev), lo);
    }
  }

  /** In every state of every run, with deaths anywhere, the index is sound and the last step
      only extended the chain. */
  lemma {:induction false} EveryRunIsIndexed(cfg: Config, events: seq<Event>)
    requires cfg.segmentSize > 0
    ensures Indexed(cfg, Run(cfg, EMPTY, events), 0)
    ensures events != [] ==>
              Extends(Run(cfg, EMPTY, events[..|events| - 1]), Run(cfg, EMPTY, events))
    decreases |events|
  {
    if events != [] {
      hide Step, Indexed, Extends;
      EveryRunIsIndexed(cfg, events[..|events| - 1]);
      StepKeepsIndex(cfg, Run(cfg, EMPTY, events[..|events| - 1]), 0, events[|events| - 1]);
    }
  }

  // --- walking the chain ---------------------------------------------------

  lemma {:induction false} WalkListsAncestors(cfg: Config, c: Cid)
    requires cfg.segmentSize > 0 && WellLinked(cfg, c)
    ensures |Walk(c)| == c.block.height
    ensures forall i | 0 <= i < |Walk(c)| ::
              Walk(c)[i] == Ancestor(c, c.block.height - i) && Walk(c)[i].block.height == c.block.height - i
    decreases c
  {
    if c.block.height > 1 {
      var p := Parent(c).value;
      WalkListsAncestors(cfg, p);
      assert Walk(c) == [c] + Walk(p);
      forall i | 0 <= i < |Walk(c)|
        ensures Walk(c)[i] == Ancestor(c, c.block.height - i) && Walk(c)[i].block.height == c.block.height - i
      {
        if i > 0 {
          assert Walk(c)[i] == Walk(p)[i - 1];
        }
      }
    }
  }

  /** Reading heights 1..blockHeight through the index gives exactly the blocks that walking
      prevCid-else-prevRoot from the last block gives, at heights blockHeight, ..., 1. */
  lemma FetchIsWalk(cfg: Config, st: Project, blocks: Option<seq<Cid>>)
    requires cfg.segmentSize > 0 && Indexed(cfg, st, 0) && st.blockHeight > 0
    requires blocks.Some? <==> forall h | 1 <= h <= st.blockHeight :: GetDagCid(st, h).Some?
    requires blocks.Some? ==> |blocks.value| == st.blockHeight
    requires blocks.Some? ==>
               forall i | 0 <= i < |blocks.value| :: Some(blocks.value[i]) == GetDagCid(st, st.blockHeight - i)
    ensures blocks == Some(Walk(st.lastDagCid.value))
    ensures forall i | 0 <= i < st.blockHeight :: blocks.value[i].block.height == st.blockHeight - i
  {
    var head := st.lastDagCid.value;
    forall h | 1 <= h <= st.blockHeight ensures GetDagCid(st, h) == Some(Ancestor(head, h)) {
      assert At(st.cids, h) == [Ancestor(head, h)];
    }
    WalkListsAncestors(cfg, head);
    assert blocks.value == Walk(head);
  }

  /** `fetch_blocks` over the whole chain of an unpruned project. */
  method FetchChain(cfg: Config, st: Project) returns (blocks: Option<seq<Cid>>)
    requires cfg.segmentSize > 0 && Indexed(cfg, st, 0) && st.blockHeight > 0
    ensures blocks == Some(Walk(st.lastDagCid.value))
  {
    blocks := FetchBlocks(st, 1, st.blockHeight);
    FetchIsWalk(cfg, st, blocks);
  }
}
