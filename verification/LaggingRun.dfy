/** A run in which an aggregator that lags behind the index by more than the buffer stores a wrong sum. */
module LaggingRun {
  import opened Wrappers
  import opened Store
  import opened Finalizer
  import opened ChainInvariant
  import opened Window
  import opened PrunedAggregates
  import opened WholeSystem
  import opened WitnessRuns
  import opened PayloadIndex
  import A = Aggregates
  import C = Confluence
  import G = GapRuns
  import S = SystemRun
  import P = Pruning

  // --- runs of keys, and runs put together --------------------------------------------------

  lemma {:induction false} RunConcat(cfg: Config, st: Project, a: seq<Event>, b: seq<Event>)
    requires cfg.segmentSize > 0
    ensures Run(cfg, st, a + b) == Run(cfg, Run(cfg, st, a), b)
    decreases |b|
  {
    hide Step;
    if b == [] {
      assert a + b == a;
    } else {
      var n := |b| - 1;
      assert (a + b)[..|a + b| - 1] == a + b[..n];
      RunConcat(cfg, st, a, b[..n]);
    }
  }

  function AsJoint(events: seq<Event>): (r: seq<JointAction>)
    ensures |r| == |events|
  {
    if events == [] then [] else AsJoint(events[..|events| - 1]) + [Shared(S.Keys(events[|events| - 1]))]
  }

  lemma JointMore(cfg: Config, settings: P.Settings, payloads: Payloads, actions: seq<JointAction>, a: JointAction)
    requires cfg.segmentSize > 0
    ensures JointRun(cfg, settings, payloads, actions + [a]) ==
            JointStep(cfg, settings, payloads, JointRun(cfg, settings, payloads, actions), a)
  {
    assert (actions + [a])[..|actions|] == actions;
  }

  lemma {:induction false} JointKeys(cfg: Config, settings: P.Settings, payloads: Payloads, actions: seq<JointAction>,
                                     events: seq<Event>)
    requires cfg.segmentSize > 0
    ensures var j := JointRun(cfg, settings, payloads, actions);
            JointRun(cfg, settings, payloads, actions + AsJoint(events)) ==
            j.(w := j.w.(st := Run(cfg, j.w.st, events)))
    decreases |events|
  {
    hide Step, JointRun;
    if events == [] {
      assert actions + AsJoint(events) == actions;
    } else {
      var n := |events| - 1;
      JointKeys(cfg, settings, payloads, actions, events[..n]);
      assert actions + AsJoint(events) == actions + AsJoint(events[..n]) + [Shared(S.Keys(events[n]))];
      JointMore(cfg, settings, payloads, actions + AsJoint(events[..n]), Shared(S.Keys(events[n])));
    }
  }

  /** The ordinary traffic for heights n + 1 and n + 2. */
  function TwoMore(w: C.Workload, n: nat, env: Env): seq<Event> {
    [Recorded(n + 1, w.callback(n + 1).snapshotCid), Submitted(n + 1, w.queued(n + 1)),
     Deliver(w.callback(n + 1), env)] +
    [Recorded(n + 2, w.callback(n + 2).snapshotCid), Submitted(n + 2, w.queued(n + 2)), Deliver(w.callback(n + 2), env)]
  }

  lemma OrdinaryTwoMore(w: C.Workload, n: nat, env: Env)
    ensures Ordinary(w, n + 2, env) == Ordinary(w, n, env) + TwoMore(w, n, env)
  {
    assert Ordinary(w, n + 2, env) == Ordinary(w, n + 1, env) + TwoMore(w, n, env)[3..];
    assert Ordinary(w, n + 1, env) == Ordinary(w, n, env) + TwoMore(w, n, env)[..3];
    assert TwoMore(w, n, env) == TwoMore(w, n, env)[..3] + TwoMore(w, n, env)[3..];
  }

  // --- the chain ----------------------------------------------------------------------------

  const ONE := Trade(1.0, 0.0, 0.0, 0.0, 0.0, 0.0)

  /** Heights up to n traded at time 0, later ones eight days later, always the same volume. */
  ghost predicate TwoAges(w: C.Workload, payloads: Payloads, n: nat) {
    forall h | 1 <= h <= n + 2 ::
      payloads(w.callback(h).snapshotCid) == Payload(if h <= n then 0 else 8 * DAY, h, ONE)
  }

  ghost predicate Aged(chain: Chain, n: nat) {
    && |chain| <= n + 2
    && forall h | 1 <= h <= |chain| :: PayloadAt(chain, h) == Some(Payload(if h <= n then 0 else 8 * DAY, h, ONE))
  }

  lemma ChainIsAged(cfg: Config, w: C.Workload, payloads: Payloads, n: nat, m: nat, env: Env)
    requires cfg.segmentSize > 0 && C.WellFormed(w) && m <= w.n && m <= n + 2 && env.cut.NoCut?
    requires G.RealSnapshots(w, m) && TwoAges(w, payloads, n)
    ensures var st := Run(cfg, EMPTY, Ordinary(w, m, env));
            st.blockHeight == m && Aged(ChainOf(payloads, st), n) && ReadOf(payloads, st) == ChainOf(payloads, st)
  {
    hide Run, C.WellFormed, Ordinary, G.RealSnapshots, Ancestor, WellLinked;
    var st := Run(cfg, EMPTY, Ordinary(w, m, env));
    OrdinaryReaches(cfg, w, m, env);
    G.OrdinaryIsPlain(cfg, w, m, env);
    var chain, read := ChainOf(payloads, st), ReadOf(payloads, st);
    forall h | 1 <= h <= m
      ensures PayloadAt(chain, h) == Some(Payload(if h <= n then 0 else 8 * DAY, h, ONE))
      ensures read[h - 1] == chain[h - 1]
    {
      assert At(st.cids, h) == [Ancestor(st.lastDagCid.value, h)];
      SlotPayload(payloads, st, h, w.callback(h).snapshotCid);
    }
    forall i | 0 <= i < m ensures read[i] == chain[i] {
      assert read[(i + 1) - 1] == chain[(i + 1) - 1];
    }
  }

  lemma SlotPayload(payloads: Payloads, st: Project, h: int, s: string)
    requires SlotAt(st, h) == BlockWith(Some(s))
    ensures GetDagCid(st, h).Some? && PayloadOf(payloads, GetDagCid(st, h).value) == Some(payloads(s))
  {
  }

  lemma FirstIs(chain: Chain, head: int, from: int, period: int, t: int)
    requires from <= t < head && InWindow(chain, head, t, period)
    requires forall k | from <= k < t :: !InWindow(chain, head, k, period)
    ensures FirstInWindow(chain, head, from, period) == Some(t)
  {
  }

  /** On the old part both windows begin at height 1, on the whole chain where the new part does. */
  lemma IndexOfAges(chain: Chain, n: nat, p: Pair)
    requires n >= 2 && Aged(chain, n)
    requires if |chain| == n then p == Pair(Markers(None, None), Markers(None, None))
             else |chain| == n + 2 && p == Pair(Markers(Some(n), Some(1)), Markers(Some(n), Some(1)))
    ensures var t := if |chain| == n then 1 else n + 1;
            var m := Markers(Some(|chain|), Some(t));
            IndexCycle(p, chain, |chain|) == Pair(m, m)
  {
    var t := if |chain| == n then 1 else n + 1;
    FirstIs(chain, |chain|, 1, PeriodOf("24h"), t);
    FirstIs(chain, |chain|, 1, PeriodOf("7d"), t);
  }

  lemma TotalOneMore(chain: Chain, hi: int)
    requires hi >= 1
    ensures A.Sum(chain, 1, hi).total == A.Sum(chain, 1, hi - 1).total + A.TradeAt(chain, hi).total
  {
  }

  lemma OneAt(chain: Chain, n: nat, h: int)
    requires Aged(chain, n) && 1 <= h <= |chain|
    ensures A.TradeAt(chain, h) == ONE
  {
  }

  /** Old heights have volume. */
  lemma {:induction false} TotalOf(chain: Chain, n: nat, hi: nat)
    requires Aged(chain, n) && hi <= |chain|
    ensures A.Sum(chain, 1, hi).total >= if hi == 0 then 0.0 else 1.0
    decreases hi
  {
    hide Aged, A.TradeAt;
    if hi > 0 {
      hide A.Sum;
      TotalOf(chain, n, hi - 1);
      TotalOneMore(chain, hi);
      OneAt(chain, n, hi);
    }
  }

  // --- the two aggregations --------------------------------------------------------------------

  /** The first aggregation, before anything is pruned. */
  lemma FirstAggregate(chain: Chain, n: nat)
    requires n >= 2 && Aged(chain, n) && |chain| == n
    ensures var m := Markers(Some(n), Some(1));
            var r := A.Commit(None, chain, Pair(m, m), true);
            && r.Some? && A.Exact(r.value, chain)
            && r.value.tail24 == r.value.tail7 == 1 && r.value.head24 == r.value.head7 == n
  {
    hide A.Volume, A.Sum, A.Plus, A.WithoutFees;
    var m := Markers(Some(n), Some(1));
    assert PayloadAt(chain, 1).Some?;
    A.NoBlocksInRange(chain, 1, n);
    A.CommitIsExact(None, chain, Pair(m, m), true);
  }

  /** The second one, when the index and the pruner have moved on. */
  lemma SecondAggregate(chain: Chain, n: nat, f: int, c: A.Cached)
    requires n >= 2 && Aged(chain, n) && |chain| == n + 2 && 1 <= f <= n
    requires A.Exact(c, chain) && c.tail24 == c.tail7 == 1 && c.head24 == c.head7 == n
    ensures var m := Markers(Some(n + 2), Some(n + 1));
            var r := A.Commit(Some(c), Forget(chain, f), Pair(m, m), true);
            r.Some? && !A.Exact(r.value, chain)
  {
    hide A.Volume, A.Sum, A.Plus, A.Minus, A.WithoutFees, A.Exact;
    var m := Markers(Some(n + 2), Some(n + 1));
    var read := Forget(chain, f);
    assert PayloadAt(read, n + 1).Some?;
    A.NoBlocksInRange(read, n + 1, n + 2);
    A.NoBlocksInRange(read, n + 1, n + 1);
    PrunedCommitExactly(Some(c), chain, f, Pair(m, m), true);
    TotalOf(chain, n, f);
  }

  // --- the run --------------------------------------------------------------------------------

  /** Heights 1..n are finalized, indexed and aggregated. */
  function Before(w: C.Workload, n: nat, env: Env): seq<JointAction> {
    AsJoint(Ordinary(w, n, env)) + [Index(n)] + [Aggregate(true)]
  }

  lemma BeforeReaches(cfg: Config, settings: P.Settings, payloads: Payloads, w: C.Workload, n: nat, env: Env)
    requires cfg.segmentSize >= 2 && C.WellFormed(w) && 2 <= n <= w.n && env.cut.NoCut?
    requires G.RealSnapshots(w, n) && TwoAges(w, payloads, n)
    ensures var j := JointRun(cfg, settings, payloads, Before(w, n, env));
            var m := Markers(Some(n), Some(1));
            && j.w == S.World(Run(cfg, EMPTY, Ordinary(w, n, env)), 0, Some(1), 0) && j.markers == Pair(m, m)
            && j.cache.Some? && A.Exact(j.cache.value, ChainOf(payloads, j.w.st))
            && j.cache.value.tail24 == j.cache.value.tail7 == 1 && j.cache.value.head24 == j.cache.value.head7 == n
  {
    hide JointRun, Run, C.WellFormed, Ordinary, G.RealSnapshots, TwoAges, Aged, ChainOf, ReadOf, A.Commit, A.Exact,
         IndexCycle, AsJoint;
    var keys := AsJoint(Ordinary(w, n, env));
    NothingJoint(cfg, settings, payloads);
    JointKeys(cfg, settings, payloads, [], Ordinary(w, n, env));
    assert [] + keys == keys;
    JointMore(cfg, settings, payloads, keys, Index(n));
    JointMore(cfg, settings, payloads, keys + [Index(n)], Aggregate(true));
    ChainIsAged(cfg, w, payloads, n, n, env);
    var st := Run(cfg, EMPTY, Ordinary(w, n, env));
    IndexOfAges(ChainOf(payloads, st), n, FRESH.markers);
    FirstAggregate(ChainOf(payloads, st), n);
  }

  lemma NothingJoint(cfg: Config, settings: P.Settings, payloads: Payloads)
    requires cfg.segmentSize > 0
    ensures JointRun(cfg, settings, payloads, []) == FRESH
  {
  }

  /** Two more heights eight days later, and the index with them. */
  function Between(w: C.Workload, n: nat, env: Env): seq<JointAction> {
    Before(w, n, env) + AsJoint(TwoMore(w, n, env)) + [Index(n + 2)]
  }

  lemma BetweenReaches(cfg: Config, settings: P.Settings, payloads: Payloads, w: C.Workload, n: nat, env: Env)
    requires cfg.segmentSize >= 2 && C.WellFormed(w) && n >= 2 && n + 2 <= w.n && env.cut.NoCut?
    requires G.RealSnapshots(w, n + 2) && TwoAges(w, payloads, n)
    ensures var j := JointRun(cfg, settings, payloads, Between(w, n, env));
            var m := Markers(Some(n + 2), Some(n + 1));
            && j.w == S.World(Run(cfg, EMPTY, Ordinary(w, n + 2, env)), 0, Some(n + 1), 0) && j.markers == Pair(m, m)
            && j.w.st.blockHeight == n + 2 && Aged(ChainOf(payloads, j.w.st), n)
            && j.cache.Some? && A.Exact(j.cache.value, ChainOf(payloads, j.w.st))
            && j.cache.value.tail24 == j.cache.value.tail7 == 1 && j.cache.value.head24 == j.cache.value.head7 == n
  {
    hide JointRun, Run, C.WellFormed, Ordinary, TwoAges, Aged, ChainOf, ReadOf, A.Exact, IndexCycle, AsJoint, Before,
         TwoMore, Extends;
    FewerSnapshots(w, n);
    BeforeReaches(cfg, settings, payloads, w, n, env);
    var before := Before(w, n, env);
    JointKeys(cfg, settings, payloads, before, TwoMore(w, n, env));
    JointMore(cfg, settings, payloads, before + AsJoint(TwoMore(w, n, env)), Index(n + 2));
    OrdinaryTwoMore(w, n, env);
    RunConcat(cfg, EMPTY, Ordinary(w, n, env), TwoMore(w, n, env));
    ChainIsAged(cfg, w, payloads, n, n + 2, env);
    var st, st' := Run(cfg, EMPTY, Ordinary(w, n, env)), Run(cfg, EMPTY, Ordinary(w, n + 2, env));
    ChainIsAged(cfg, w, payloads, n, n, env);
    var c := JointRun(cfg, settings, payloads, before).cache.value;
    SamePrefix(ChainOf(payloads, st), ChainOf(payloads, st'), n);
    ExactOnPrefix(c, ChainOf(payloads, st), ChainOf(payloads, st'));
    IndexOfAges(ChainOf(payloads, st'), n, JointRun(cfg, settings, payloads, before).markers);
  }

  lemma FewerSnapshots(w: C.Workload, n: nat)
    requires G.RealSnapshots(w, n + 2)
    ensures G.RealSnapshots(w, n)
  {
  }

  lemma SamePrefix(chain: Chain, more: Chain, n: nat)
    requires Aged(chain, n) && Aged(more, n) && |chain| <= |more|
    ensures chain <= more
  {
    forall i | 0 <= i < |chain| ensures chain[i] == more[i] {
      assert PayloadAt(chain, i + 1) == PayloadAt(more, i + 1);
    }
  }

  lemma ExactOnPrefix(c: A.Cached, chain: Chain, more: Chain)
    requires A.Exact(c, chain) && chain <= more
    ensures A.Exact(c, more)
  {
    hide A.Exact, OffBy;
    ExactIsOffByNothing(c, chain);
    ExactIsOffByNothing(c, more);
    OffByOnPrefix(c, chain, more, NO_DRIFT);
  }

  /** For every segment size and every buffer: a pair is aggregated once, misses the cycles in which the index
      moves on by more than the buffer and the first segment is pruned, and is then aggregated again. The
      commit succeeds, and the stored sums are wrong. */
  lemma LaggingAggregatorGoesWrong(cfg: Config, settings: P.Settings, payloads: Payloads, w: C.Workload, env: Env,
                                   fates: int -> P.Fate)
    returns (actions: seq<JointAction>)
    requires cfg.segmentSize >= 2 && settings.pruneZsets && (forall k :: P.Smooth(fates(k))) && env.cut.NoCut?
    requires C.WellFormed(w) && w.n == cfg.segmentSize + settings.buffer + 2 && G.RealSnapshots(w, w.n)
    requires TwoAges(w, payloads, w.n - 2)
    ensures var j := JointRun(cfg, settings, payloads, actions);
            && j.cache.Some? && Some(j.cache.value.head24) == j.markers.day.head
            && !A.Exact(j.cache.value, ChainOf(payloads, j.w.st))
  {
    hide JointRun, Run, C.WellFormed, Ordinary, TwoAges, Aged, ChainOf, ReadOf, A.Exact, A.Commit, Between, S.Safe,
         S.PruneStep, Forget;
    var n: nat := w.n - 2;
    var between := Between(w, n, env);
    BetweenReaches(cfg, settings, payloads, w, n, env);
    var j := JointRun(cfg, settings, payloads, between);
    EveryJointRunIsAccounted(cfg, settings, payloads, between);
    SafeThen(cfg, settings, payloads, j);
    FirstEnd(cfg, w, env);
    var ends := S.SortedExists(j.w.st.segments.Keys);
    var prune := Shared(S.Prune(ends, fates));
    actions := between + [prune] + [Aggregate(true)];
    JointMore(cfg, settings, payloads, between, prune);
    JointMore(cfg, settings, payloads, between + [prune], Aggregate(true));
    assert forall e :: e in ends <==> e in j.w.st.segments;
    S.PruneForgets(cfg, settings, j.w, ends, fates, cfg.segmentSize);
    var pruned := S.PruneStep(settings, j.w, ends, fates);
    S.PruneStepIsSafe(cfg, settings, j.w, ends, fates);
    S.PruneKeepsTail(settings, j.w, ends, fates);
    NoTailNoPruneLimit(cfg, settings, pruned);
    ReadIsForget(cfg, settings, payloads, pruned);
    SameChainOf(payloads, j.w.st, pruned.st);
    SecondAggregate(ChainOf(payloads, j.w.st), n, pruned.forgotten, j.cache.value);
    CommittedHead(j.cache.value, Forget(ChainOf(payloads, j.w.st), pruned.forgotten), j.markers);
  }

  lemma CommittedHead(c: A.Cached, read: Chain, p: Pair)
    ensures var r := A.Commit(Some(c), read, p, true);
            r.Some? ==> Some(r.value.head24) == p.day.head
  {
    hide A.Volume, A.BlocksInRange, A.Plus, A.Minus, A.WithoutFees;
  }

  lemma SafeThen(cfg: Config, settings: P.Settings, payloads: Payloads, j: Joint)
    requires cfg.segmentSize > 0 && Consistent(cfg, settings, payloads, j)
    ensures S.Safe(cfg, settings, j.w)
  {
  }

  lemma SameChainOf(payloads: Payloads, st: Project, st': Project)
    requires st'.blockHeight == st.blockHeight && st'.lastDagCid == st.lastDagCid
    ensures ChainOf(payloads, st') == ChainOf(payloads, st)
  {
  }

  lemma FirstEnd(cfg: Config, w: C.Workload, env: Env)
    requires cfg.segmentSize >= 2 && C.WellFormed(w) && w.n > cfg.segmentSize && env.cut.NoCut?
    ensures var st := Run(cfg, EMPTY, Ordinary(w, w.n, env));
            cfg.segmentSize in st.segments && st.segments[cfg.segmentSize].storage == PendingStorage
  {
    S.FirstSegmentIsThere(cfg, w, env);
  }
}
