/** Runs that reach the states in which the code does less than one would expect. */
module WitnessRuns {
  import opened Wrappers
  import opened Store
  import opened Finalizer
  import opened ChainInvariant
  import opened Queue
  import opened Healing
  import opened Segments
  import opened Confluence
  import B = BoundaryAttempts
  import FinalizerService

  /** Ordinary traffic: for each height a commit records its snapshot and queues its entry, and the
      callback comes before the next commit. */
  function Ordinary(w: Workload, n: nat, env: Env): seq<Event> {
    if n == 0 then []
    else
      Ordinary(w, n - 1, env) +
      [Recorded(n, w.callback(n).snapshotCid), Submitted(n, w.queued(n)), Deliver(w.callback(n), env)]
  }

  /** Everything up to height n is finalized, and nothing is on its way. */
  ghost predicate Idle(st: Project, n: nat) {
    && st.blockHeight == n
    && (forall h | h > n :: At(st.pending, h) == [])
    && (forall c | c in st.payloadCids :: 1 <= st.payloadCids[c] <= n)
  }

  lemma RunMore(cfg: Config, st: Project, events: seq<Event>, ev: Event)
    requires cfg.segmentSize > 0
    ensures Run(cfg, st, events + [ev]) == Step(cfg, Run(cfg, st, events), ev)
  {
    assert (events + [ev])[..|events|] == events;
  }

  lemma RunThreeMore(cfg: Config, st: Project, events: seq<Event>, a: Event, b: Event, c: Event)
    requires cfg.segmentSize > 0
    ensures Run(cfg, st, events + [a, b, c]) == Step(cfg, Step(cfg, Step(cfg, Run(cfg, st, events), a), b), c)
  {
    hide Step, Run;
    RunMore(cfg, st, events, a);
    RunMore(cfg, st, events + [a], b);
    RunMore(cfg, st, events + [a] + [b], c);
    assert events + [a, b, c] == events + [a] + [b] + [c];
  }

  /** An entry is queued for the next height, and nothing above it. */
  ghost predicate Queued(st: Project, q: Pending) {
    && At(st.pending, st.blockHeight + 1) == [q]
    && (forall h | h > st.blockHeight + 1 :: At(st.pending, h) == [])
  }

  lemma DeliverNext(cfg: Config, lo: int, st: Project, q: Pending, cb: Callback, env: Env)
    requires cfg.segmentSize > 0 && Indexed(cfg, st, lo) && Queued(st, q)
    requires q.requestID == cb.requestID && cb.height == st.blockHeight + 1
    ensures Find(At(st.pending, cb.height), cb.requestID) == Some(q)
    ensures Process(cfg, st, cb, env) == InOrder(cfg, st, cb.height, cb.txHash, cb.snapshotCid, cb.timestamp, env.cut)
    ensures var st' := Process(cfg, st, cb, env.(cut := NoCut));
            && st'.blockHeight == st.blockHeight + 1 && st'.payloadCids == st.payloadCids
            && (forall h | h > st'.blockHeight :: At(st'.pending, h) == [])
  {
    hide Process, InOrder, Indexed, Carries, CarriesQueued;
    OtherCallback(cfg, st, cb, env);
    OtherCallback(cfg, st, cb, env.(cut := NoCut));
    InOrderComplete(cfg, st, lo, cb.txHash, cb.snapshotCid, cb.timestamp);
    NoneConfirmed();
    assert ConfirmedIn(At(st.pending, cb.height + 1)) == [];
    var st' := Process(cfg, st, cb, env.(cut := NoCut));
    forall h | h > cb.height ensures At(st'.pending, h) == [] {
      assert At(st.pending, h) == [];
    }
  }

  lemma CommitNext(cfg: Config, st: Project, w: Workload, n: nat)
    requires cfg.segmentSize > 0 && n > 0 && Idle(st, n - 1)
    ensures var st' := Step(cfg, Step(cfg, st, Recorded(n, w.callback(n).snapshotCid)), Submitted(n, w.queued(n)));
            && SameChain(st, st') && Queued(st', w.queued(n))
            && (forall c | c in st'.payloadCids :: 1 <= st'.payloadCids[c] <= n)
  {
    var q := w.queued(n);
    assert At(st.pending, n) == [] && Insert([], q) == [q];
    var z := st.pending[n := [q]];
    forall h | h > n ensures At(z, h) == [] {
      assert At(st.pending, h) == [];
    }
  }

  lemma {:induction false} OrdinaryReaches(cfg: Config, w: Workload, n: nat, env: Env)
    requires cfg.segmentSize > 0 && WellFormed(w) && n <= w.n && env.cut.NoCut?
    ensures Indexed(cfg, Run(cfg, EMPTY, Ordinary(w, n, env)), 0)
    ensures Idle(Run(cfg, EMPTY, Ordinary(w, n, env)), n)
  {
    hide Indexed, Process, WellFormed, Queued, Step, Run;
    if n == 0 {
      NothingRun(cfg);
      EveryRunIsIndexed(cfg, []);
    } else {
      OrdinaryReaches(cfg, w, n - 1, env);
      var events := Ordinary(w, n - 1, env);
      var st := Run(cfg, EMPTY, events);
      WellFormedAt(w, n);
      var recorded, queued := Recorded(n, w.callback(n).snapshotCid), Submitted(n, w.queued(n));
      RunThreeMore(cfg, EMPTY, events, recorded, queued, Deliver(w.callback(n), env));
      CommitNext(cfg, st, w, n);
      var due := Step(cfg, Step(cfg, st, recorded), queued);
      FrameIndexed(cfg, st, due, 0);
      DeliverNext(cfg, 0, due, w.queued(n), w.callback(n), env);
      assert env.(cut := NoCut) == env;
      StepIsProcess(cfg, due, w.callback(n), env);
      EveryRunIsIndexed(cfg, Ordinary(w, n, env));
    }
  }

  lemma NothingRun(cfg: Config)
    requires cfg.segmentSize > 0
    ensures Run(cfg, EMPTY, []) == EMPTY
  {
  }

  lemma StepIsProcess(cfg: Config, st: Project, cb: Callback, env: Env)
    requires cfg.segmentSize > 0
    ensures Step(cfg, st, Deliver(cb, env)) == Process(cfg, st, cb, env)
  {
  }

  lemma {:induction false} OrdinaryIsFaultFree(w: Workload, n: nat, env: Env)
    requires WellFormed(w) && n <= w.n && env.cut.NoCut?
    ensures forall ev | ev in Ordinary(w, n, env) :: BoundaryOnce(ev) && FaultFree(ev)
  {
    if n > 0 {
      OrdinaryIsFaultFree(w, n - 1, env);
      WellFormedAt(w, n);
    }
  }

  lemma WellFormedAt(w: Workload, n: nat)
    requires WellFormed(w) && 1 <= n <= w.n
    ensures w.callback(n).height == n && w.queued(n).requestID == w.callback(n).requestID && !Confirmed(w.queued(n))
  {
  }

  // --- a boundary that is attempted twice -----------------------------------------------

  function UpToBoundary(cfg: Config, w: Workload, env: Env): seq<Event>
    requires cfg.segmentSize > 0
  {
    var h := cfg.segmentSize + 1;
    Ordinary(w, h - 1, env) + [Recorded(h, w.callback(h).snapshotCid), Submitted(h, w.queued(h))]
  }

  /** Ordinary traffic, a death between the first segment and its boundary block, and the same callback
      once more: the first segment ends up as an empty range. */
  lemma TornBoundaryIsReached(cfg: Config, w: Workload, env: Env)
    requires cfg.segmentSize >= 2 && WellFormed(w) && w.n > cfg.segmentSize && env.cut.NoCut?
    ensures var size, cb := cfg.segmentSize, w.callback(cfg.segmentSize + 1);
            var died := UpToBoundary(cfg, w, env) + [Deliver(cb, env.(cut := BeforeHeight(0)))];
            var torn, again := Run(cfg, EMPTY, died), Run(cfg, EMPTY, died + [Deliver(cb, env)]);
            && torn.blockHeight == size && size in torn.segments && !Tiled(cfg, torn)
            && again.blockHeight == size + 1 && size in again.segments && again.segments[size].beginHeight == size + 1
  {
    hide Indexed, Process, Run, WellFormed, Tiled, InOrder, Ordinary, B.Tries, WellLinked, Ancestor, B.TiledOrTorn,
         Queued, Boundary, Insert;
    var size := cfg.segmentSize;
    var h, cb, q := size + 1, w.callback(size + 1), w.queued(size + 1);
    WellFormedAt(w, h);
    var st := AtBoundary(cfg, w, env);
    var events := UpToBoundary(cfg, w, env);
    var death, retry := Deliver(cb, env.(cut := BeforeHeight(0))), Deliver(cb, env);
    RunMore(cfg, EMPTY, events, death);
    RunMore(cfg, EMPTY, events + [death], retry);
    var torn, again := Run(cfg, EMPTY, events + [death]), Run(cfg, EMPTY, events + [death] + [retry]);
    BoundaryIsAfterMultiple(size, h);
    Numbers.DivModUnique(size, size, 1, 0);
    DeliverNext(cfg, 0, st, q, cb, env.(cut := BeforeHeight(0)));
    assert env.(cut := BeforeHeight(0)).(cut := NoCut) == env && env.(cut := NoCut) == env;
    ParentOfNext(cfg, st, 0);
    DiesAtBoundary(cfg, st, cb);
    assert torn == WithSegment(cfg, st, h);
    B.SegmentWrite(cfg, st, 0);
    NotTiled(cfg, torn);
    WithSegmentFrame(cfg, st, h);
    FrameIndexed(cfg, st, torn, 0);
    QueuedFrame(st, torn, q);
    DeliverNext(cfg, 0, torn, q, cb, env);
    TwoTries(cfg, events, death, retry);
    B.EveryRunTilesExactly(cfg, events + [death] + [retry], size);
    EmptyRange(cfg, again, size, B.Tries(cfg, events + [death] + [retry], size));
  }

  lemma EmptyRange(cfg: Config, st: Project, e: int, n: nat)
    requires cfg.segmentSize > 0 && B.TilesExactly(cfg, st, e, n) && n >= 2
    ensures e in st.segments && st.segments[e].beginHeight == e + 1
  {
    hide Ancestor;
  }

  lemma AtBoundary(cfg: Config, w: Workload, env: Env) returns (st: Project)
    requires cfg.segmentSize >= 2 && WellFormed(w) && w.n > cfg.segmentSize && env.cut.NoCut?
    ensures st == Run(cfg, EMPTY, UpToBoundary(cfg, w, env))
    ensures Indexed(cfg, st, 0) && B.TiledOrTorn(cfg, st) && st.blockHeight == cfg.segmentSize
    ensures Queued(st, w.queued(cfg.segmentSize + 1)) && cfg.segmentSize !in st.segments
  {
    hide Indexed, Tiled, WellFormed, Queued, Ordinary, B.TiledOrTorn;
    var h := cfg.segmentSize + 1;
    var events := Ordinary(w, h - 1, env);
    OrdinaryReaches(cfg, w, h - 1, env);
    OrdinaryIsFaultFree(w, h - 1, env);
    var recorded, queued := Recorded(h, w.callback(h).snapshotCid), Submitted(h, w.queued(h));
    RunMore(cfg, EMPTY, events, recorded);
    RunMore(cfg, EMPTY, events + [recorded], queued);
    assert UpToBoundary(cfg, w, env) == events + [recorded] + [queued];
    st := Run(cfg, EMPTY, UpToBoundary(cfg, w, env));
    CommitNext(cfg, Run(cfg, EMPTY, events), w, h);
    FrameIndexed(cfg, Run(cfg, EMPTY, events), st, 0);
    EveryRunTiles(cfg, UpToBoundary(cfg, w, env));
    B.TiledIsTiledOrTorn(cfg, st);
    NotTiled(cfg, st);
  }

  lemma NotTiled(cfg: Config, st: Project)
    requires cfg.segmentSize > 0
    ensures st.blockHeight in st.segments ==> !Tiled(cfg, st)
  {
  }

  lemma QueuedFrame(st: Project, st': Project, q: Pending)
    requires Queued(st, q) && st'.blockHeight == st.blockHeight && st'.pending == st.pending
    ensures Queued(st', q)
  {
  }

  lemma DiesAtBoundary(cfg: Config, st: Project, cb: Callback)
    requires cfg.segmentSize > 0 && cb.height >= 0 && !Raises(cfg, st, cb.height)
    ensures InOrder(cfg, st, cb.height, cb.txHash, cb.snapshotCid, cb.timestamp, BeforeHeight(0)) ==
            WithSegment(cfg, st, cb.height)
    ensures WithSegment(cfg, st, cb.height).pending == st.pending
  {
  }

  lemma TwoTries(cfg: Config, events: seq<Event>, death: Event, retry: Event)
    requires cfg.segmentSize >= 2 && Boundary(cfg.segmentSize, cfg.segmentSize + 1)
    requires death.Deliver? && death.env.cut.BeforeHeight?
    requires var size := cfg.segmentSize;
             var st, torn := Run(cfg, EMPTY, events), Run(cfg, EMPTY, events + [death]);
             && st.blockHeight == torn.blockHeight == size
             && Process(cfg, st, death.cb, death.env.(cut := NoCut)).blockHeight == size + 1
             && Run(cfg, EMPTY, events + [death] + [retry]).blockHeight == size + 1
    ensures B.Tries(cfg, events + [death] + [retry], cfg.segmentSize) >= 2
  {
    hide Process, Run;
    var all := events + [death] + [retry];
    RunMore(cfg, EMPTY, events, death);
    RunMore(cfg, EMPTY, events + [death], retry);
    assert all[..|all| - 1] == events + [death] && (events + [death])[..|events|] == events;
  }

  // --- two confirmed entries at the next height --------------------------------------------

  /** An early callback that is too near for a resubmission or for healing confirms its entry. */
  lemma ParksOnly(cfg: Config, st: Project, q: Pending, cb: Callback, env: Env)
    requires cfg.segmentSize > 0 && st.blockHeight + 1 < cb.height < st.blockHeight + HEALING_THRESHOLD
    requires Find(At(st.pending, cb.height), cb.requestID) == Some(q)
    ensures var st' := Process(cfg, st, cb, env);
            && SameChain(st, st')
            && (forall p :: p in At(st'.pending, cb.height) <==>
                              p == Saved(q, cb) || (p in At(st.pending, cb.height) && p != q))
            && (forall k | k != cb.height :: At(st'.pending, k) == At(st.pending, k))
  {
    hide Process, Heal, Find;
    EarlyCallback(cfg, st, cb, env);
    var saved := SaveEvent(st, q, cb);
    FinalizerService.TouchNone(saved.pending, st.blockHeight + 1, cb.height - RESUBMISSION_WAIT, cb.height);
  }

  /** Two commits for height 2 and one for height 1; both callbacks for height 2 come early, and the
      process dies once it has written the block at height 1. */
  function TwoForOneHeight(a: Callback, b: Callback, c: Callback, qa: Pending, qb: Pending, qc: Pending,
                           env: Env): seq<Event> {
    [Submitted(1, qc), Submitted(2, qa), Submitted(2, qb), Deliver(a, env), Deliver(b, env),
     Deliver(c, env.(cut := AfterClear(0)))]
  }

  /** So a project can come to stand still with two confirmed entries at the next height, which no
      callback five or more heights ahead gets going again. */
  lemma TwoConfirmedIsReached(cfg: Config, a: Callback, b: Callback, c: Callback, qa: Pending, qb: Pending,
                              qc: Pending, env: Env)
    requires cfg.segmentSize > 0 && a.height == b.height == 2 && c.height == 1
    requires qa.requestID == a.requestID && qb.requestID == b.requestID && qc.requestID == c.requestID
    requires a.requestID != b.requestID
    ensures var st := Run(cfg, EMPTY, TwoForOneHeight(a, b, c, qa, qb, qc, env));
            && Indexed(cfg, st, 0) && st.blockHeight == 1
            && Saved(qa, a) in ConfirmedIn(At(st.pending, 2)) && Saved(qb, b) in ConfirmedIn(At(st.pending, 2))
            && |ConfirmedIn(At(st.pending, st.blockHeight + 1))| > 1
  {
    hide Process, Indexed, InOrder, Insert, CreateBlock, Run, Find, TwoForOneHeight;
    var env' := env.(cut := AfterClear(0));
    EveryRunIsIndexed(cfg, TwoForOneHeight(a, b, c, qa, qb, qc, env));
    var st0 := Step(cfg, Step(cfg, Step(cfg, EMPTY, Submitted(1, qc)), Submitted(2, qa)), Submitted(2, qb));
    var st1 := Process(cfg, st0, a, env);
    var st2 := Process(cfg, st1, b, env);
    RunTwoForOneHeight(cfg, a, b, c, qa, qb, qc, env);
    QueuedTwo(cfg, qa, qb, qc);
    FoundOne(At(st0.pending, 2), qa, a.requestID);
    ParksOnly(cfg, st0, qa, a, env);
    FoundOne(At(st1.pending, 2), qb, b.requestID);
    ParksOnly(cfg, st1, qb, b, env);
    FoundOne(At(st2.pending, 1), qc, c.requestID);
    EmptyIsIndexed(cfg, st2);
    OtherCallback(cfg, st2, c, env');
    ParentOfNext(cfg, st2, 0);
    DiesAfterBlock(cfg, st2, c);
    var st := Process(cfg, st2, c, env');
    assert At(st.pending, 2) == At(st2.pending, 2);
    TwoMembers(ConfirmedIn(At(st.pending, 2)), Saved(qa, a), Saved(qb, b));
  }

  lemma EmptyIsIndexed(cfg: Config, st: Project)
    requires cfg.segmentSize > 0 && SameChain(EMPTY, st)
    ensures Indexed(cfg, st, 0)
  {
  }

  lemma TwoMembers<T>(s: seq<T>, x: T, y: T)
    requires x in s && y in s && x != y
    ensures |s| > 1
  {
    var i, j :| 0 <= i < |s| && 0 <= j < |s| && s[i] == x && s[j] == y;
  }

  lemma RunTwoForOneHeight(cfg: Config, a: Callback, b: Callback, c: Callback, qa: Pending, qb: Pending, qc: Pending,
                           env: Env)
    requires cfg.segmentSize > 0
    ensures var st0 := Step(cfg, Step(cfg, Step(cfg, EMPTY, Submitted(1, qc)), Submitted(2, qa)), Submitted(2, qb));
            Run(cfg, EMPTY, TwoForOneHeight(a, b, c, qa, qb, qc, env)) ==
            Process(cfg, Process(cfg, Process(cfg, st0, a, env), b, env), c, env.(cut := AfterClear(0)))
  {
    hide Process, Run;
    var queued := [Submitted(1, qc), Submitted(2, qa), Submitted(2, qb)];
    var delivered := [Deliver(a, env), Deliver(b, env), Deliver(c, env.(cut := AfterClear(0)))];
    NothingRun(cfg);
    RunThreeMore(cfg, EMPTY, [], queued[0], queued[1], queued[2]);
    RunThreeMore(cfg, EMPTY, queued, delivered[0], delivered[1], delivered[2]);
    assert queued == [] + queued && TwoForOneHeight(a, b, c, qa, qb, qc, env) == queued + delivered;
  }

  lemma QueuedTwo(cfg: Config, qa: Pending, qb: Pending, qc: Pending)
    requires cfg.segmentSize > 0
    ensures var st := Step(cfg, Step(cfg, Step(cfg, EMPTY, Submitted(1, qc)), Submitted(2, qa)), Submitted(2, qb));
            && st.blockHeight == 0 && At(st.pending, 1) == [qc]
            && (forall p :: p in At(st.pending, 2) <==> p == qa || p == qb)
  {
    assert Insert([], qc) == [qc];
    hide Insert;
  }

  lemma {:induction false} FoundOne(b: seq<Pending>, q: Pending, requestID: string)
    requires q in b && q.requestID == requestID && forall p | p in b && p.requestID == requestID :: p == q
    ensures Find(b, requestID) == Some(q)
  {
  }

  lemma DiesAfterBlock(cfg: Config, st: Project, cb: Callback)
    requires cfg.segmentSize > 0 && cb.height >= 0 && !Raises(cfg, st, cb.height)
    ensures InOrder(cfg, st, cb.height, cb.txHash, cb.snapshotCid, cb.timestamp, AfterClear(0)) ==
            CreateBlock(cfg, st, cb.height, cb.txHash, cb.snapshotCid, cb.timestamp)
  {
  }
}
