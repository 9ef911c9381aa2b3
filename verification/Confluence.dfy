/** Reordered and repeated callbacks give the chain of strict in-order delivery. */
module Confluence {
  import opened Wrappers
  import opened Store
  import opened Finalizer
  import opened ChainInvariant
  import opened Queue
  import opened Healing
  import opened Segments

  /** One callback per height 1..n, and the entry payload-commit queued for it. */
  datatype Workload = Workload(n: nat, callback: int -> Callback, queued: int -> Pending)

  predicate WellFormed(w: Workload) {
    forall h | 1 <= h <= w.n ::
      && w.callback(h).height == h
      && w.queued(h).requestID == w.callback(h).requestID
      && !Confirmed(w.queued(h))
  }

  /** The chain that strict in-order delivery builds. */
  ghost function InOrderChain(cfg: Config, w: Workload, m: nat): Option<Cid>
    requires cfg.segmentSize > 0
  {
    if m == 0 then None
    else
      var cb := w.callback(m);
      Some(BlockOn(cfg, InOrderChain(cfg, w, m - 1), m, cb.txHash, cb.snapshotCid, cb.timestamp))
  }

  /** The one entry of a height: confirmed with its callback's data once delivered, until then as
      it was queued, except for the mark of a resubmission. */
  predicate Holds(w: Workload, delivered: set<int>, h: int, b: seq<Pending>) {
    && |b| == 1
    && if h in delivered then b[0] == Saved(w.queued(h), w.callback(h))
       else b[0] == w.queued(h).(lastTouched := b[0].lastTouched) && !Confirmed(b[0])
  }

  /** The project after some set of heights was delivered, except that the queue may still be due. */
  ghost predicate Reflects(cfg: Config, w: Workload, delivered: set<int>, st: Project)
    requires cfg.segmentSize > 0
  {
    && Indexed(cfg, st, 0) && Tiled(cfg, st)
    && (forall e | e in st.segments :: st.segments[e].storage == PendingStorage)
    && st.blockHeight <= w.n
    && (forall h | 1 <= h <= st.blockHeight :: h in delivered)
    && st.lastDagCid == InOrderChain(cfg, w, st.blockHeight)
    && (forall h | h > st.blockHeight ::
          if h <= w.n then Holds(w, delivered, h, At(st.pending, h)) else At(st.pending, h) == [])
  }

  ghost predicate Settled(cfg: Config, w: Workload, delivered: set<int>, st: Project)
    requires cfg.segmentSize > 0
  {
    Reflects(cfg, w, delivered, st) && st.blockHeight + 1 !in delivered
  }

  // --- one block -------------------------------------------------------------

  lemma ConfirmedAt(w: Workload, delivered: set<int>, h: int, b: seq<Pending>)
    requires Holds(w, delivered, h, b)
    ensures ConfirmedIn(b) == if h in delivered then b else []
  {
    assert b[1..] == [];
    assert ConfirmedIn(b) == (if Confirmed(b[0]) then [b[0]] else []) + ConfirmedIn([]);
  }

  lemma NextBlock(cfg: Config, w: Workload, delivered: set<int>, st: Project)
    requires cfg.segmentSize >= 2 && WellFormed(w) && Reflects(cfg, w, delivered, st)
    requires st.blockHeight < w.n
    ensures var next := st.blockHeight + 1;
            var cb := w.callback(next);
            && !Raises(cfg, st, next)
            && Reflects(cfg, w, delivered + {next}, CreateBlock(cfg, st, next, cb.txHash, cb.snapshotCid, cb.timestamp))
  {
    hide WellLinked, Ancestor, Indexed, Tiled, IndexBlock, WithSegment, BlockOn;
    var next := st.blockHeight + 1;
    var cb := w.callback(next);
    ParentOfNext(cfg, st, 0);
    var indexed := IndexBlock(cfg, st, next, cb.txHash, cb.snapshotCid, cb.timestamp);
    var st' := CreateBlock(cfg, st, next, cb.txHash, cb.snapshotCid, cb.timestamp);
    IndexBlockKeepsIndex(cfg, st, 0, cb.txHash, cb.snapshotCid, cb.timestamp);
    IndexBlockKeepsTiling(cfg, st, 0, cb.txHash, cb.snapshotCid, cb.timestamp);
    FrameIndexed(cfg, indexed, st', 0);
    TilingFrame(cfg, indexed, st');
    IndexBlockFields(cfg, st, next, cb.txHash, cb.snapshotCid, cb.timestamp);
    assert st'.lastDagCid == InOrderChain(cfg, w, next);
    forall h | h > next
      ensures if h <= w.n then Holds(w, delivered + {next}, h, At(st'.pending, h)) else At(st'.pending, h) == []
    {
      assert At(st'.pending, h) == At(st.pending, h);
    }
  }

  lemma IndexBlockFields(cfg: Config, st: Project, h: nat, txHash: string, snapshotCid: string, timestamp: int)
    requires cfg.segmentSize > 0 && !Raises(cfg, st, h)
    ensures var st' := IndexBlock(cfg, st, h, txHash, snapshotCid, timestamp);
            && st'.blockHeight == h
            && st'.lastDagCid == Some(BlockOn(cfg, GetDagCid(st, h - 1), h, txHash, snapshotCid, timestamp))
            && st'.pending == st.pending
            && (forall e | e in st'.segments && !(e in st.segments && st'.segments[e] == st.segments[e]) ::
                  st'.segments[e].storage == PendingStorage)
  {
    hide BlockOn;
  }

  lemma {:induction false} DrainSettles(cfg: Config, w: Workload, delivered: set<int>, st: Project)
    requires cfg.segmentSize >= 2 && WellFormed(w) && Reflects(cfg, w, delivered, st)
    requires forall h | h in delivered :: 1 <= h <= w.n
    ensures Settled(cfg, w, delivered, Drain(cfg, st, NoCut))
    decreases w.n - st.blockHeight
  {
    hide Indexed, Tiled, CreateBlock, ConfirmedIn;
    var next := st.blockHeight + 1;
    if next <= w.n {
      ConfirmedAt(w, delivered, next, At(st.pending, next));
      if next in delivered {
        NextBlock(cfg, w, delivered, st);
        var cb := w.callback(next);
        assert delivered + {next} == delivered;
        DrainStep(cfg, st, cb.txHash, cb.snapshotCid, cb.timestamp);
        CreateBlockHeight(cfg, st, next, cb.txHash, cb.snapshotCid, cb.timestamp);
        DrainSettles(cfg, w, delivered, CreateBlock(cfg, st, next, cb.txHash, cb.snapshotCid, cb.timestamp));
      }
    } else {
      NoneConfirmed();
    }
  }

  lemma CreateBlockHeight(cfg: Config, st: Project, h: nat, txHash: string, snapshotCid: string, timestamp: int)
    requires cfg.segmentSize > 0 && !Raises(cfg, st, h)
    ensures CreateBlock(cfg, st, h, txHash, snapshotCid, timestamp).blockHeight == h
  {
  }

  lemma DrainStep(cfg: Config, st: Project, txHash: string, snapshotCid: string, timestamp: int)
    requires cfg.segmentSize > 0 && !Raises(cfg, st, st.blockHeight + 1)
    requires var q := ConfirmedIn(At(st.pending, st.blockHeight + 1));
             q != [] && q[0].event == EventData(txHash, snapshotCid, timestamp)
    ensures Drain(cfg, st, NoCut) == Drain(cfg, CreateBlock(cfg, st, st.blockHeight + 1, txHash, snapshotCid,
                                                            timestamp), NoCut)
  {
    hide CreateBlock, ConfirmedIn;
  }

  // --- one callback ------------------------------------------------------------

  /** Where healing cannot act: consensus is off, or its epoch keys are missing, or the callback is
      less than five heights ahead. */
  predicate NoHealing(cfg: Config, blockHeight: int, h: int) {
    !cfg.useConsensus || cfg.epochSize.None? || cfg.firstEpochEnd.None? || h < blockHeight + HEALING_THRESHOLD
  }

  /** A repeated or reordered delivery that does not heal only adds its height to the delivered ones. */
  lemma DeliveryReflects(cfg: Config, w: Workload, delivered: set<int>, st: Project, h: int, env: Env)
    requires cfg.segmentSize >= 2 && WellFormed(w) && Settled(cfg, w, delivered, st)
    requires forall k | k in delivered :: 1 <= k <= w.n
    requires 1 <= h <= w.n && NoHealing(cfg, st.blockHeight, h) && env.cut.NoCut?
    ensures Settled(cfg, w, delivered + {h}, Process(cfg, st, w.callback(h), env))
  {
    hide Process, InOrder, Drain, Indexed, Tiled, CreateBlock, SaveEvent, Resubmit;
    var cb := w.callback(h);
    OtherCallback(cfg, st, cb, env);
    if h <= st.blockHeight {
      assert delivered + {h} == delivered;
      SettledFrame(cfg, w, delivered, st, DiscardLate(st, cb));
    } else {
      var b := At(st.pending, h);
      assert b == [b[0]] && Find(b, cb.requestID) == Some(b[0]);
      if h == st.blockHeight + 1 {
        NextBlock(cfg, w, delivered, st);
        InOrderIsDrain(cfg, st, h, cb.txHash, cb.snapshotCid, cb.timestamp);
        DrainSettles(cfg, w, delivered + {h}, CreateBlock(cfg, st, h, cb.txHash, cb.snapshotCid, cb.timestamp));
      } else {
        ParkReflects(cfg, w, delivered, st, h, b[0], env);
      }
    }
  }

  lemma InOrderIsDrain(cfg: Config, st: Project, h: nat, txHash: string, snapshotCid: string, timestamp: int)
    requires cfg.segmentSize > 0 && !Raises(cfg, st, h)
    ensures InOrder(cfg, st, h, txHash, snapshotCid, timestamp, NoCut) ==
            Drain(cfg, CreateBlock(cfg, st, h, txHash, snapshotCid, timestamp), NoCut)
  {
    hide CreateBlock;
  }

  lemma SettledFrame(cfg: Config, w: Workload, delivered: set<int>, st: Project, st': Project)
    requires cfg.segmentSize > 0 && Settled(cfg, w, delivered, st)
    requires SameChain(st, st') && st'.segments == st.segments
    requires forall h | h > st.blockHeight :: At(st'.pending, h) == At(st.pending, h)
    ensures Settled(cfg, w, delivered, st')
  {
    hide WellLinked, Ancestor, EndsSegment, Holds;
    FrameIndexed(cfg, st, st', 0);
    TilingFrame(cfg, st, st');
  }

  lemma TouchedHolds(w: Workload, delivered: set<int>, h: int, b: seq<Pending>, height: int)
    requires Holds(w, delivered, h, b) && height != CALLBACK_RECEIVED
    ensures Holds(w, delivered, h, Touched(b, height))
  {
    var e := b[0];
    assert b == [e];
    assert Without([e], e) == [];
  }

  /** An early callback confirms its own entry and, at most, marks others as resubmitted. */
  lemma ParkedEntries(w: Workload, delivered: set<int>, st: Project, h: int, e: Pending)
    requires Holds(w, delivered, h, At(st.pending, h)) && e == At(st.pending, h)[0]
    requires w.callback(h).height == h > st.blockHeight
    ensures var st' := Resubmit(SaveEvent(st, e, w.callback(h)), h);
            && SameChain(st, st') && st'.segments == st.segments
            && Holds(w, delivered + {h}, h, At(st'.pending, h))
            && (forall k | k != h && Holds(w, delivered, k, At(st.pending, k)) ::
                  Holds(w, delivered + {h}, k, At(st'.pending, k)))
            && (forall k | At(st.pending, k) == [] :: At(st'.pending, k) == [])
  {
    var cb := w.callback(h);
    assert At(st.pending, h) == [e] && Without([e], e) == [];
    var z := Replace(st.pending, h, e, Saved(e, cb));
    assert At(z, h) == [Saved(e, cb)] && Holds(w, delivered + {h}, h, At(z, h));
    var lo, hi := st.blockHeight + 1, h - RESUBMISSION_WAIT;
    var z' := TouchedIn(z, lo, hi, h);
    forall k | k != h && Holds(w, delivered, k, At(st.pending, k))
      ensures Holds(w, delivered + {h}, k, At(z', k))
    {
      assert At(z, k) == At(st.pending, k) && Holds(w, delivered + {h}, k, At(z, k));
      TouchedHolds(w, delivered + {h}, k, At(z, k), h);
    }
  }

  lemma ParkReflects(cfg: Config, w: Workload, delivered: set<int>, st: Project, h: int, e: Pending, env: Env)
    requires cfg.segmentSize > 0 && WellFormed(w) && Settled(cfg, w, delivered, st)
    requires st.blockHeight + 1 < h <= w.n && NoHealing(cfg, st.blockHeight, h)
    requires Find(At(st.pending, h), w.callback(h).requestID) == Some(e) && e == At(st.pending, h)[0]
    ensures Settled(cfg, w, delivered + {h}, Process(cfg, st, w.callback(h), env))
  {
    hide WellLinked, Ancestor, EndsSegment, SaveEvent, Resubmit, Process, Heal, ConfirmedIn, Find, Holds;
    var cb := w.callback(h);
    var saved := SaveEvent(st, e, cb);
    var st' := Resubmit(saved, h);
    var next := st.blockHeight + 1;
    EarlyCallback(cfg, st, cb, env);
    Parked(st, e, cb);
    ConfirmedAt(w, delivered, next, At(st.pending, next));
    assert At(saved.pending, next) == At(st.pending, next);
    HealIsOff(cfg, st', saved.pending, h, env);
    ParkedEntries(w, delivered, st, h, e);
    FrameIndexed(cfg, st, st', 0);
    TilingFrame(cfg, st, st');
  }

  // --- whole runs ---------------------------------------------------------------

  datatype Delivery = Delivery(height: int, env: Env)

  function Deliveries(w: Workload, ds: seq<Delivery>): (r: seq<Event>)
    ensures |r| == |ds|
  {
    if ds == [] then []
    else
      var last := ds[|ds| - 1];
      Deliveries(w, ds[..|ds| - 1]) + [Deliver(w.callback(last.height), last.env)]
  }

  /** The run that only delivers. */
  ghost function DeliverAll(cfg: Config, w: Workload, st: Project, ds: seq<Delivery>): Project
    requires cfg.segmentSize > 0
  {
    Run(cfg, st, Deliveries(w, ds))
  }

  ghost function HeightsOf(ds: seq<Delivery>): set<int> {
    set d | d in ds :: d.height
  }

  /** No process dies, and with consensus on no callback arrives five or more heights ahead of the
      finalized height: healing, which answers that case, would replace the missing callbacks. */
  ghost predicate Calm(cfg: Config, w: Workload, st: Project, ds: seq<Delivery>)
    requires cfg.segmentSize > 0
  {
    forall i | 0 <= i < |ds| ::
      && 1 <= ds[i].height <= w.n
      && ds[i].env.cut.NoCut?
      && NoHealing(cfg, DeliverAll(cfg, w, st, ds[..i]).blockHeight, ds[i].height)
  }

  /** A project that has finalized nothing and has one unconfirmed entry per height. */
  ghost predicate Start(w: Workload, st: Project) {
    && st.blockHeight == 0 && st.lastDagCid == None
    && (forall h :: At(st.cids, h) == []) && st.segments == map[]
    && (forall h | h > 0 :: At(st.pending, h) == if h <= w.n then [w.queued(h)] else [])
  }

  lemma StartSettles(cfg: Config, w: Workload, st: Project)
    requires cfg.segmentSize > 0 && WellFormed(w) && Start(w, st)
    ensures Settled(cfg, w, {}, st)
  {
  }

  lemma CalmPrefix(cfg: Config, w: Workload, st: Project, ds: seq<Delivery>, m: nat)
    requires cfg.segmentSize > 0 && Calm(cfg, w, st, ds) && m <= |ds|
    ensures Calm(cfg, w, st, ds[..m])
  {
    hide DeliverAll;
    forall i | 0 <= i < m ensures ds[..m][..i] == ds[..i] && ds[..m][i] == ds[i] {
    }
  }

  lemma HeightsOfMore(ds: seq<Delivery>)
    requires ds != []
    ensures HeightsOf(ds) == HeightsOf(ds[..|ds| - 1]) + {ds[|ds| - 1].height}
  {
    var prefix, last := ds[..|ds| - 1], ds[|ds| - 1];
    assert ds == prefix + [last];
    assert forall d :: d in ds <==> d in prefix || d == last;
  }

  lemma {:induction false} RunSettles(cfg: Config, w: Workload, st: Project, ds: seq<Delivery>)
    requires cfg.segmentSize >= 2 && WellFormed(w) && Start(w, st) && Calm(cfg, w, st, ds)
    ensures Settled(cfg, w, HeightsOf(ds), DeliverAll(cfg, w, st, ds))
    ensures forall h | h in HeightsOf(ds) :: 1 <= h <= w.n
    decreases |ds|
  {
    hide Settled, Process, Start;
    if ds == [] {
      StartSettles(cfg, w, st);
      assert HeightsOf(ds) == {};
    } else {
      var m := |ds| - 1;
      CalmPrefix(cfg, w, st, ds, m);
      RunSettles(cfg, w, st, ds[..m]);
      HeightsOfMore(ds);
      assert 1 <= ds[m].height <= w.n;
      DeliveryReflects(cfg, w, HeightsOf(ds[..m]), DeliverAll(cfg, w, st, ds[..m]), ds[m].height, ds[m].env);
    }
  }

  /** The finalized height, the chain with every block in it, every index read and every segment agree. */
  ghost predicate SameOutcome(st: Project, st': Project) {
    && st.blockHeight == st'.blockHeight
    && st.lastDagCid == st'.lastDagCid
    && (forall h :: At(st.cids, h) == At(st'.cids, h))
    && st.segments == st'.segments
  }

  /** Whatever the order and the repetitions, the outcome depends on the set of delivered heights only. */
  lemma {:induction false} OrderDoesNotMatter(cfg: Config, w: Workload, st: Project, ds: seq<Delivery>,
                                              ds': seq<Delivery>)
    requires cfg.segmentSize >= 2 && WellFormed(w) && Start(w, st)
    requires Calm(cfg, w, st, ds) && Calm(cfg, w, st, ds') && HeightsOf(ds) == HeightsOf(ds')
    ensures SameOutcome(DeliverAll(cfg, w, st, ds), DeliverAll(cfg, w, st, ds'))
  {
    hide DeliverAll, WellLinked, Ancestor, InOrderChain, Calm, Holds;
    var a, b := DeliverAll(cfg, w, st, ds), DeliverAll(cfg, w, st, ds');
    RunSettles(cfg, w, st, ds);
    RunSettles(cfg, w, st, ds');
    var delivered := HeightsOf(ds);
    assert a.blockHeight + 1 !in delivered && b.blockHeight + 1 !in delivered;
    forall e ensures e in a.segments <==> e in b.segments {
    }
    forall e | e in a.segments ensures a.segments[e] == b.segments[e] {
    }
  }

  function StrictOrder(n: nat, env: Env): seq<Delivery> {
    if n == 0 then [] else StrictOrder(n - 1, env) + [Delivery(n, env)]
  }

  lemma {:induction false} StrictOrderIsCalm(cfg: Config, w: Workload, st: Project, m: nat, env: Env)
    requires cfg.segmentSize >= 2 && WellFormed(w) && Start(w, st) && env.cut.NoCut? && m <= w.n
    ensures Calm(cfg, w, st, StrictOrder(m, env))
    ensures HeightsOf(StrictOrder(m, env)) == Heights(1, m)
    ensures DeliverAll(cfg, w, st, StrictOrder(m, env)).blockHeight == m
  {
    hide Start, DeliverAll, HeightsOf, Calm;
    var ds := StrictOrder(m, env);
    if m == 0 {
      assert Calm(cfg, w, st, []) && HeightsOf([]) == {} by {
        NothingDelivered(cfg, w, st);
      }
    } else {
      StrictOrderIsCalm(cfg, w, st, m - 1, env);
      var prefix := StrictOrder(m - 1, env);
      assert ds[..|ds| - 1] == prefix;
      CalmMore(cfg, w, st, ds);
      HeightsOfMore(ds);
      assert Heights(1, m) == Heights(1, m - 1) + {m};
    }
    FinalizedHeight(cfg, w, st, ds, m);
  }

  lemma NothingDelivered(cfg: Config, w: Workload, st: Project)
    requires cfg.segmentSize > 0
    ensures Calm(cfg, w, st, []) && HeightsOf([]) == {}
  {
  }

  lemma CalmMore(cfg: Config, w: Workload, st: Project, ds: seq<Delivery>)
    requires cfg.segmentSize > 0 && ds != [] && Calm(cfg, w, st, ds[..|ds| - 1])
    requires var last := ds[|ds| - 1];
             && 1 <= last.height <= w.n && last.env.cut.NoCut?
             && NoHealing(cfg, DeliverAll(cfg, w, st, ds[..|ds| - 1]).blockHeight, last.height)
    ensures Calm(cfg, w, st, ds)
  {
    hide DeliverAll;
    var prefix := ds[..|ds| - 1];
    forall i | 0 <= i < |prefix| ensures ds[..i] == prefix[..i] && ds[i] == prefix[i] {
    }
  }

  lemma FinalizedHeight(cfg: Config, w: Workload, st: Project, ds: seq<Delivery>, m: nat)
    requires cfg.segmentSize >= 2 && WellFormed(w) && Start(w, st) && Calm(cfg, w, st, ds)
    requires HeightsOf(ds) == Heights(1, m)
    ensures DeliverAll(cfg, w, st, ds).blockHeight == m
  {
    hide DeliverAll, Calm, Indexed, Tiled, Holds;
    RunSettles(cfg, w, st, ds);
    var bh := DeliverAll(cfg, w, st, ds).blockHeight;
    assert bh + 1 !in Heights(1, m);
    assert bh > 0 ==> bh in HeightsOf(ds);
  }

  /** Callbacks for all heights 1..n, in any order and with any repetitions, end with the chain of
      strict in-order delivery: n blocks, the same CIDs, index and segments. */
  lemma ConfluesWithStrictOrder(cfg: Config, w: Workload, st: Project, ds: seq<Delivery>, env: Env)
    requires cfg.segmentSize >= 2 && WellFormed(w) && Start(w, st) && env.cut.NoCut?
    requires Calm(cfg, w, st, ds) && HeightsOf(ds) == Heights(1, w.n)
    ensures DeliverAll(cfg, w, st, ds).blockHeight == w.n
    ensures DeliverAll(cfg, w, st, ds).lastDagCid == InOrderChain(cfg, w, w.n)
    ensures SameOutcome(DeliverAll(cfg, w, st, ds), DeliverAll(cfg, w, st, StrictOrder(w.n, env)))
  {
    hide DeliverAll, Calm, SameOutcome, Indexed, Tiled, Holds;
    StrictOrderIsCalm(cfg, w, st, w.n, env);
    OrderDoesNotMatter(cfg, w, st, ds, StrictOrder(w.n, env));
    FinalizedHeight(cfg, w, st, ds, w.n);
    RunSettles(cfg, w, st, ds);
  }
}
