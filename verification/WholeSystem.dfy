/** Finalizer, pruner, index and aggregator at work on one project: every service reads what the others have
    left in the shared keys. */
module WholeSystem {
  import opened Wrappers
  import opened Store
  import opened Finalizer
  import opened ChainInvariant
  import opened Window
  import opened PrunedAggregates
  import A = Aggregates
  import B = BoundaryAttempts
  import S = SystemRun
  import P = Pruning

  /** What the payload with a given CID says. */
  type Payloads = string -> Payload

  function PayloadOf(payloads: Payloads, c: Cid): Option<Payload> {
    match c.block.data
    case Some(s) => Some(payloads(s))
    case None => None
  }

  /** The finalized chain of a project, pruned or not. */
  function ChainOf(payloads: Payloads, st: Project): (chain: Chain)
    ensures |chain| == st.blockHeight
  {
    seq(st.blockHeight, i requires 0 <= i < st.blockHeight =>
      if st.lastDagCid.Some? then PayloadOf(payloads, Ancestor(st.lastDagCid.value, i + 1)) else None)
  }

  /** The chain as it is read by height through the Cids index. */
  function ReadOf(payloads: Payloads, st: Project): (chain: Chain)
    ensures |chain| == st.blockHeight
  {
    seq(st.blockHeight, i requires 0 <= i < st.blockHeight =>
      match GetDagCid(st, i + 1)
      case Some(c) => PayloadOf(payloads, c)
      case None => None)
  }

  /** Reading through the index forgets exactly what was pruned. */
  lemma ReadIsForget(cfg: Config, settings: P.Settings, payloads: Payloads, w: S.World)
    requires cfg.segmentSize > 0 && S.Safe(cfg, settings, w)
    ensures ReadOf(payloads, w.st) == Forget(ChainOf(payloads, w.st), w.forgotten)
  {
    hide WellLinked, Ancestor, PayloadOf;
    var st, lo := w.st, w.forgotten;
    forall i | 0 <= i < st.blockHeight
      ensures ReadOf(payloads, st)[i] == Forget(ChainOf(payloads, st), lo)[i]
    {
      assert At(st.cids, i + 1) == if lo < i + 1 then [Ancestor(st.lastDagCid.value, i + 1)] else [];
      assert PayloadAt(Forget(ChainOf(payloads, st), lo), i + 1) == Forget(ChainOf(payloads, st), lo)[i];
    }
  }

  lemma ChainGrows(payloads: Payloads, st: Project, st': Project)
    requires Extends(st, st')
    ensures ChainOf(payloads, st) <= ChainOf(payloads, st')
  {
    hide Ancestor, PayloadOf;
  }

  // --- the joint run -----------------------------------------------------------------------

  datatype Joint = Joint(w: S.World, markers: Pair, cache: Option<A.Cached>)

  /** Something happens to the shared keys, the index moves, or the pair is aggregated. */
  datatype JointAction =
    | Shared(a: S.Action)
    | Index(head: int)
    | Aggregate(liquid: bool)

  const FRESH := Joint(S.World(EMPTY, 0, None, 0), Pair(Markers(None, None), Markers(None, None)), None)

  ghost function JointStep(cfg: Config, settings: P.Settings, payloads: Payloads, j: Joint, a: JointAction): Joint
    requires cfg.segmentSize > 0
  {
    match a
    case Shared(b) => if b.MoveTail? then j else j.(w := S.Act(cfg, settings, j.w, b))
    case Index(head) =>
      if head > j.w.st.blockHeight then j
      else
        var m := IndexCycle(j.markers, ReadOf(payloads, j.w.st), head);
        j.(markers := m, w := j.w.(tail := if Present(m.week) then m.week.tail else None))
    case Aggregate(liquid) =>
      var r := A.Commit(j.cache, ReadOf(payloads, j.w.st), j.markers, liquid);
      if r.Some? then j.(cache := r) else j
  }

  ghost function JointRun(cfg: Config, settings: P.Settings, payloads: Payloads, actions: seq<JointAction>): Joint
    requires cfg.segmentSize > 0
    decreases |actions|
  {
    if actions == [] then FRESH
    else
      JointStep(cfg, settings, payloads, JointRun(cfg, settings, payloads, actions[..|actions| - 1]),
                actions[|actions| - 1])
  }

  // --- what every run keeps -------------------------------------------------------------------

  /** The lowest height that a pruning cycle guided by the index leaves alone. */
  function Limit(settings: P.Settings, j: Joint): int {
    if Present(j.markers.week) then j.markers.week.tail.value - settings.buffer else 0
  }

  /** A height at which some tail stood: it was readable then, and later only heights below the limit went. */
  predicate Spared(settings: P.Settings, j: Joint, tail: int) {
    j.w.forgotten < tail || j.w.forgotten < Limit(settings, j)
  }

  ghost predicate Consistent(cfg: Config, settings: P.Settings, payloads: Payloads, j: Joint)
    requires cfg.segmentSize > 0
  {
    && S.Safe(cfg, settings, j.w)
    && A.Sound(j.markers.day, ChainOf(payloads, j.w.st)) && A.Sound(j.markers.week, ChainOf(payloads, j.w.st))
    && j.w.tail == (if Present(j.markers.week) then j.markers.week.tail else None)
    && (Present(j.markers.day) ==> Present(j.markers.week) && Spared(settings, j, j.markers.day.tail.value))
    && (j.cache.Some? ==>
          && A.NotBefore(j.markers.day, j.cache.value.tail24) && A.NotBefore(j.markers.week, j.cache.value.tail7)
          && Spared(settings, j, j.cache.value.tail24) && Spared(settings, j, j.cache.value.tail7))
  }

  ghost predicate Accounted(payloads: Payloads, j: Joint, d: Drift) {
    j.cache.Some? ==> OffBy(j.cache.value, ChainOf(payloads, j.w.st), d)
  }

  lemma OffByOnPrefix(c: A.Cached, chain: Chain, more: Chain, d: Drift)
    requires OffBy(c, chain, d) && chain <= more
    ensures OffBy(c, more, d)
  {
    hide A.FieldSum, A.Read;
    forall f
      ensures A.FieldSum(f, more, c.tail24, c.head24) == A.FieldSum(f, chain, c.tail24, c.head24)
      ensures A.FieldSum(f, more, c.tail7, c.head7) == A.FieldSum(f, chain, c.tail7, c.head7)
    {
      A.SumOnPrefix(f, chain, more, c.tail24, c.head24);
      A.SumOnPrefix(f, chain, more, c.tail7, c.head7);
    }
  }

  lemma SharedKeeps(cfg: Config, settings: P.Settings, payloads: Payloads, j: Joint, b: S.Action, d: Drift)
    requires cfg.segmentSize >= 2 && !b.MoveTail?
    requires Consistent(cfg, settings, payloads, j) && Accounted(payloads, j, d)
    ensures var j' := JointStep(cfg, settings, payloads, j, Shared(b));
            Consistent(cfg, settings, payloads, j') && Accounted(payloads, j', d)
  {
    hide S.Safe, OffBy, ChainOf, S.Act;
    var w' := S.Act(cfg, settings, j.w, b);
    S.ActIsSafe(cfg, settings, j.w, b);
    ActExtends(cfg, settings, j.w, b);
    ActSpares(cfg, settings, j.w, b);
    NoTailNoPruneLimit(cfg, settings, j.w);
    ChainGrows(payloads, j.w.st, w'.st);
    if j.cache.Some? {
      OffByOnPrefix(j.cache.value, ChainOf(payloads, j.w.st), ChainOf(payloads, w'.st), d);
    }
  }

  lemma NoTailNoPruneLimit(cfg: Config, settings: P.Settings, w: S.World)
    requires cfg.segmentSize > 0 && S.Safe(cfg, settings, w)
    ensures w.forgotten >= 0
    ensures w.tail.Some? ==> w.forgotten < w.tail.value
  {
    hide WellLinked, Ancestor, B.TiledOrTorn;
  }

  lemma ActExtends(cfg: Config, settings: P.Settings, w: S.World, b: S.Action)
    requires cfg.segmentSize >= 2 && S.Safe(cfg, settings, w) && !b.MoveTail?
    ensures Extends(w.st, S.Act(cfg, settings, w, b).st)
    ensures S.Act(cfg, settings, w, b).tail == w.tail
  {
    hide Indexed, B.TiledOrTorn, Step, S.PruneStep, Ancestor;
    match b {
      case Keys(ev) => StepKeepsIndex(cfg, w.st, w.forgotten, ev);
      case Prune(ends, fates) =>
        if S.SortedKeys(w, ends) {
          S.PruneStepIsSafe(cfg, settings, w, ends, fates);
          S.PruneKeepsTail(settings, w, ends, fates);
        }
        LastOf(cfg, w.st, w.forgotten);
    }
  }

  lemma LastOf(cfg: Config, st: Project, lo: int)
    requires cfg.segmentSize > 0 && Indexed(cfg, st, lo)
    ensures st.blockHeight > 0 ==> st.lastDagCid.Some?
  {
    hide WellLinked, Ancestor;
  }

  /** An action forgets nothing, or only heights below the buffer before the tail. */
  lemma ActSpares(cfg: Config, settings: P.Settings, w: S.World, b: S.Action)
    requires cfg.segmentSize >= 2 && S.Safe(cfg, settings, w) && !b.MoveTail?
    ensures var w' := S.Act(cfg, settings, w, b);
            && (w'.forgotten == w.forgotten ||
                (w.tail.Some? ==> w'.forgotten < w.tail.value - settings.buffer))
  {
    hide Indexed, B.TiledOrTorn, Step, S.PruneStep, S.SortedKeys;
    if b.Prune? && S.SortedKeys(w, b.ends) {
      S.PruneStepIsSafe(cfg, settings, w, b.ends, b.fates);
    }
  }

  lemma FoundIsReadable(chain: Chain, f: int, m: Markers, head: int, period: int)
    requires A.Sound(m, chain) && head <= |chain|
    ensures var m' := Moved(m, Forget(chain, f), head, period);
            && A.Sound(m', chain)
            && (m' == m || (Present(m') && f < m'.tail.value))
            && (Present(m) ==> Present(m') && m'.tail.value >= m.tail.value)
  {
  }

  /** Where the day finds a first tail, so does the week. */
  lemma DayNeedsWeek(p: Pair, chain: Chain, head: int)
    requires Present(p.day) ==> Present(p.week)
    requires (p.day.head.Some? <==> p.day.tail.Some?) && (p.week.head.Some? <==> p.week.tail.Some?)
    ensures var p' := IndexCycle(p, chain, head); Present(p'.day) ==> Present(p'.week)
  {
    if !Present(p.week) && FirstInWindow(chain, head, 1, PeriodOf("24h")).Some? {
      WiderFindsEarlier(chain, head, 1, PeriodOf("24h"), PeriodOf("7d"));
    }
  }

  lemma IndexKeeps(cfg: Config, settings: P.Settings, payloads: Payloads, j: Joint, head: int, d: Drift)
    requires cfg.segmentSize >= 2
    requires Consistent(cfg, settings, payloads, j) && Accounted(payloads, j, d)
    ensures var j' := JointStep(cfg, settings, payloads, j, Index(head));
            Consistent(cfg, settings, payloads, j') && Accounted(payloads, j', d)
  {
    hide S.Safe, OffBy, ChainOf, ReadOf, Moved, Forget;
    if head <= j.w.st.blockHeight {
      var chain, f := ChainOf(payloads, j.w.st), j.w.forgotten;
      ReadIsForget(cfg, settings, payloads, j.w);
      FoundIsReadable(chain, f, j.markers.day, head, PeriodOf("24h"));
      FoundIsReadable(chain, f, j.markers.week, head, PeriodOf("7d"));
      DayNeedsWeek(j.markers, Forget(chain, f), head);
      var j' := JointStep(cfg, settings, payloads, j, Index(head));
      NoTailNoPruneLimit(cfg, settings, j.w);
      TailIsSafe(cfg, settings, payloads, j.w, j'.w.tail);
    }
  }

  lemma TailIsSafe(cfg: Config, settings: P.Settings, payloads: Payloads, w: S.World, tail: Option<int>)
    requires cfg.segmentSize > 0 && S.Safe(cfg, settings, w)
    requires tail.Some? ==> w.forgotten < tail.value <= w.st.blockHeight
    ensures S.Safe(cfg, settings, w.(tail := tail))
  {
    hide Indexed, B.TiledOrTorn;
  }

  lemma AggregateKeeps(cfg: Config, settings: P.Settings, payloads: Payloads, j: Joint, liquid: bool, d: Drift)
    requires cfg.segmentSize >= 2
    requires Consistent(cfg, settings, payloads, j) && Accounted(payloads, j, d)
    ensures var j' := JointStep(cfg, settings, payloads, j, Aggregate(liquid));
            && Consistent(cfg, settings, payloads, j')
            && Accounted(payloads, j', DriftOfStep(settings, payloads, j, Aggregate(liquid), d))
  {
    hide S.Safe, OffBy, ChainOf, ReadOf, A.Commit, DriftAfter, Forget;
    var chain, f := ChainOf(payloads, j.w.st), j.w.forgotten;
    ReadIsForget(cfg, settings, payloads, j.w);
    CommitDrifts(j.cache, chain, f, j.markers, liquid, d);
    A.CommitNeedsMarkers(j.cache, Forget(chain, f), j.markers, liquid);
    NoTailNoPruneLimit(cfg, settings, j.w);
  }

  /** How a step changes what the stored aggregates are off by. */
  ghost function DriftOfStep(settings: P.Settings, payloads: Payloads, j: Joint, a: JointAction, d: Drift): Drift {
    if a.Aggregate? && A.Commit(j.cache, ReadOf(payloads, j.w.st), j.markers, a.liquid).Some?
    then DriftAfter(j.cache, ChainOf(payloads, j.w.st), j.w.forgotten, j.markers, d)
    else d
  }

  ghost function DriftOf(cfg: Config, settings: P.Settings, payloads: Payloads, actions: seq<JointAction>): Drift
    requires cfg.segmentSize > 0
    decreases |actions|
  {
    if actions == [] then NO_DRIFT
    else
      var prefix := actions[..|actions| - 1];
      DriftOfStep(settings, payloads, JointRun(cfg, settings, payloads, prefix), actions[|actions| - 1],
                  DriftOf(cfg, settings, payloads, prefix))
  }

  lemma JointStepKeeps(cfg: Config, settings: P.Settings, payloads: Payloads, j: Joint, a: JointAction, d: Drift)
    requires cfg.segmentSize >= 2
    requires Consistent(cfg, settings, payloads, j) && Accounted(payloads, j, d)
    ensures var j' := JointStep(cfg, settings, payloads, j, a);
            && Consistent(cfg, settings, payloads, j')
            && Accounted(payloads, j', DriftOfStep(settings, payloads, j, a, d))
  {
    hide Consistent, Accounted, S.Act, A.Commit, IndexCycle;
    match a {
      case Shared(b) =>
        if !b.MoveTail? {
          SharedKeeps(cfg, settings, payloads, j, b, d);
        }
      case Index(head) => IndexKeeps(cfg, settings, payloads, j, head, d);
      case Aggregate(liquid) => AggregateKeeps(cfg, settings, payloads, j, liquid, d);
    }
  }

  lemma FreshIsConsistent(cfg: Config, settings: P.Settings, payloads: Payloads)
    requires cfg.segmentSize > 0
    ensures Consistent(cfg, settings, payloads, FRESH) && Accounted(payloads, FRESH, NO_DRIFT)
  {
    S.EmptyIsSafe(cfg, settings);
  }

  /** In every state of every joint run, whatever is delivered, healed, pruned, indexed and aggregated in any
      order, and wherever processes die: the stored aggregates are the sums over their windows plus what the
      commits so far have lost to pruning. */
  lemma {:induction false} EveryJointRunIsAccounted(cfg: Config, settings: P.Settings, payloads: Payloads,
                                                    actions: seq<JointAction>)
    requires cfg.segmentSize >= 2
    ensures var j := JointRun(cfg, settings, payloads, actions);
            && Consistent(cfg, settings, payloads, j)
            && Accounted(payloads, j, DriftOf(cfg, settings, payloads, actions))
    decreases |actions|
  {
    hide Consistent, Accounted, JointStep, DriftOfStep;
    if actions == [] {
      FreshIsConsistent(cfg, settings, payloads);
    } else {
      var prefix, a := actions[..|actions| - 1], actions[|actions| - 1];
      EveryJointRunIsAccounted(cfg, settings, payloads, prefix);
      JointStepKeeps(cfg, settings, payloads, JointRun(cfg, settings, payloads, prefix), a,
                     DriftOf(cfg, settings, payloads, prefix));
    }
  }

  /** So they are right exactly when what was lost adds up to nothing. */
  lemma JointRunIsExactExactly(cfg: Config, settings: P.Settings, payloads: Payloads, actions: seq<JointAction>)
    requires cfg.segmentSize >= 2
    ensures var j, d := JointRun(cfg, settings, payloads, actions), DriftOf(cfg, settings, payloads, actions);
            j.cache.Some? ==>
              (A.Exact(j.cache.value, ChainOf(payloads, j.w.st)) <==>
               d.day == A.ZERO && A.WithoutFees(d.week) == A.ZERO)
  {
    hide Consistent, JointRun, DriftOf, OffBy, A.Exact, ChainOf;
    EveryJointRunIsAccounted(cfg, settings, payloads, actions);
    var j := JointRun(cfg, settings, payloads, actions);
    if j.cache.Some? {
      OffByExactly(j.cache.value, ChainOf(payloads, j.w.st), DriftOf(cfg, settings, payloads, actions));
    }
  }

  // --- what the buffer buys -------------------------------------------------------------------

  /** When a pair is aggregated, its stored windows, or for a first aggregation its day window, begin no
      further below the tail of the 7d index than the buffer. */
  predicate WithinBuffer(settings: P.Settings, j: Joint, a: JointAction) {
    a.Aggregate? ==>
      match j.cache
      case Some(c) => Limit(settings, j) <= c.tail24 && Limit(settings, j) <= c.tail7
      case None => Present(j.markers.day) ==> Limit(settings, j) <= j.markers.day.tail.value
  }

  lemma NothingLostWithin(cfg: Config, settings: P.Settings, payloads: Payloads, j: Joint, a: JointAction)
    requires cfg.segmentSize >= 2 && Consistent(cfg, settings, payloads, j) && WithinBuffer(settings, j, a)
    ensures DriftOfStep(settings, payloads, j, a, NO_DRIFT) == NO_DRIFT
  {
    hide S.Safe, A.Commit, ReadOf, A.Sound, DriftAfter, ChainOf;
    NoTailNoPruneLimit(cfg, settings, j.w);
    if a.Aggregate? {
      NothingForgotten(j.cache, ChainOf(payloads, j.w.st), j.w.forgotten, j.markers);
    }
  }

  /** An aggregator that never lags behind the index by more than the buffer stores right sums, in every
      state of every joint run. */
  lemma {:induction false} BufferKeepsExact(cfg: Config, settings: P.Settings, payloads: Payloads,
                                            actions: seq<JointAction>)
    requires cfg.segmentSize >= 2
    requires forall i | 0 <= i < |actions| ::
               WithinBuffer(settings, JointRun(cfg, settings, payloads, actions[..i]), actions[i])
    ensures DriftOf(cfg, settings, payloads, actions) == NO_DRIFT
    ensures var j := JointRun(cfg, settings, payloads, actions);
            j.cache.Some? ==> A.Exact(j.cache.value, ChainOf(payloads, j.w.st))
    decreases |actions|
  {
    hide WithinBuffer, DriftOfStep, JointStep, A.Exact, Consistent, ChainOf;
    if actions != [] {
      var n := |actions| - 1;
      var prefix := actions[..n];
      forall i | 0 <= i < n ensures prefix[..i] == actions[..i] && prefix[i] == actions[i] {
      }
      BufferKeepsExact(cfg, settings, payloads, prefix);
      EveryJointRunIsAccounted(cfg, settings, payloads, prefix);
      NothingLostWithin(cfg, settings, payloads, JointRun(cfg, settings, payloads, prefix), actions[n]);
    }
    JointRunIsExactExactly(cfg, settings, payloads, actions);
  }
}
