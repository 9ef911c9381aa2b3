/** The finalizer, the 7d index and the pruner at work on the same project keys. */
module SystemRun {
  import opened Wrappers
  import opened Store
  import opened Finalizer
  import opened ChainInvariant
  import opened Segments
  import opened BoundaryAttempts
  import opened Confluence
  import P = Pruning
  import Sets
  import Numbers
  import WitnessRuns

  /** The keys of a project, the pruner's last pruned height, the tail of the 7d index, and the height up to
      which the Cids index has been forgotten. */
  datatype World = World(st: Project, lastPruned: int, tail: Option<int>, forgotten: int)

  datatype Action =
    | Keys(ev: Event)
    | Prune(ends: seq<int>, fates: int -> P.Fate)
    | MoveTail(tail: int)

  function PrunerView(w: World): P.State {
    P.State(w.st.segments, w.lastPruned, w.st.cids, w.st.payloadCids)
  }

  ghost predicate SortedKeys(w: World, ends: seq<int>) {
    P.Ascending(ends) && forall e :: e in ends <==> e in w.st.segments
  }

  /** The tail of the 7d index only moves ahead, once there is one; the first may appear at any time. The
      search that moves it returns only heights that it can read. */
  predicate MayMove(w: World, tail: int) {
    && GetDagCid(w.st, tail).Some?
    && match w.tail
       case Some(t) => t <= tail
       case None => true
  }

  function PruningHeight(settings: P.Settings, w: World): int {
    P.HeightToPrune(settings, w.lastPruned, P.OldestIndexed(settings, w.tail, w.st.blockHeight))
  }

  /** The segments that a pruning cycle retires. */
  ghost function DueOf(settings: P.Settings, w: World, ends: seq<int>, fates: int -> P.Fate): seq<int>
    requires SortedKeys(w, ends)
  {
    if PruningHeight(settings, w) <= w.lastPruned then []
    else P.Due(settings, w.st.segments, ends, PruningHeight(settings, w), fates)
  }

  function Further(forgotten: int, cut: Option<int>): int {
    if cut.Some? && cut.value > forgotten then cut.value else forgotten
  }

  /** A pruning cycle of `ProcessProject` on the shared keys. */
  ghost function PruneStep(settings: P.Settings, w: World, ends: seq<int>, fates: int -> P.Fate): World
    requires SortedKeys(w, ends)
  {
    if PruningHeight(settings, w) <= w.lastPruned then w
    else
      var s := P.RetireAll(settings, PrunerView(w), ends, PruningHeight(settings, w), fates).0;
      var st := w.st.(segments := s.segments, cids := s.cids, payloadCids := s.payloadCids);
      World(st, s.lastPruned, w.tail, Further(w.forgotten, P.CidsCut(settings, DueOf(settings, w, ends, fates), fates)))
  }

  ghost function Act(cfg: Config, settings: P.Settings, w: World, a: Action): World
    requires cfg.segmentSize > 0
  {
    match a
    case Keys(ev) => w.(st := Step(cfg, w.st, ev))
    case Prune(ends, fates) => if SortedKeys(w, ends) then PruneStep(settings, w, ends, fates) else w
    case MoveTail(t) => if MayMove(w, t) then w.(tail := Some(t)) else w
  }

  ghost function RunAll(cfg: Config, settings: P.Settings, actions: seq<Action>): World
    requires cfg.segmentSize > 0
    decreases |actions|
  {
    if actions == [] then World(EMPTY, 0, None, 0)
    else Act(cfg, settings, RunAll(cfg, settings, actions[..|actions| - 1]), actions[|actions| - 1])
  }

  ghost predicate Safe(cfg: Config, settings: P.Settings, w: World)
    requires cfg.segmentSize > 0
  {
    && Indexed(cfg, w.st, w.forgotten)
    && TiledOrTorn(cfg, w.st)
    && (w.lastPruned == 0 || 0 < w.lastPruned < w.st.blockHeight)
    && (w.tail.Some? ==> w.forgotten < w.tail.value <= w.st.blockHeight)
    && (!settings.pruneZsets ==> w.forgotten == 0)
  }

  /** What is forgotten lies below the buffer before a tail. */
  predicate Covers(settings: P.Settings, w: World, tail: int) {
    w.forgotten == 0 || w.forgotten < tail - settings.buffer
  }

  predicate TailCovered(settings: P.Settings, w: World) {
    match w.tail
    case Some(t) => Covers(settings, w, t)
    case None => true
  }

  // --- one action ------------------------------------------------------------------

  lemma KeysStepIsSafe(cfg: Config, settings: P.Settings, w: World, ev: Event)
    requires cfg.segmentSize >= 2 && Safe(cfg, settings, w)
    ensures Safe(cfg, settings, Act(cfg, settings, w, Keys(ev)))
    ensures OldSegmentsStay(w.st, Step(cfg, w.st, ev))
  {
    hide Step, Indexed, TiledOrTorn, Attempts, DiedBeforeBlock;
    var st' := Step(cfg, w.st, ev);
    StepKeepsIndex(cfg, w.st, w.forgotten, ev);
    NothingRecorded(cfg, w.st);
    StepCounted(cfg, w.st, w.forgotten, ev, -1, 0);
    CountedParts(cfg, w.st, st', DiedBeforeBlock(cfg, w.st, ev), -1, 0);
  }

  lemma NothingRecorded(cfg: Config, st: Project)
    requires cfg.segmentSize > 0 && TiledOrTorn(cfg, st)
    ensures RecordedTimes(cfg, st, -1, 0)
  {
  }

  lemma PositiveEnds(cfg: Config, st: Project)
    requires cfg.segmentSize > 0 && TiledOrTorn(cfg, st)
    ensures forall e | e in st.segments :: e > 0
  {
    hide Ancestor;
  }

  lemma {:induction false} CutIsDue(settings: P.Settings, due: seq<int>, fates: int -> P.Fate)
    ensures var cut := P.CidsCut(settings, due, fates); cut.Some? ==> cut.value in due && settings.pruneZsets
    ensures P.PayloadsCut(settings, due, fates).Some? ==> P.PayloadsCut(settings, due, fates).value in due
    decreases |due|
  {
    if due != [] {
      assert forall e | e in due[..|due| - 1] :: e in due;
      CutIsDue(settings, due[..|due| - 1], fates);
    }
  }

  /** What a pruning cycle does to the keys: it retires pending segments that end below the pruning height, and
      so below the tail less the buffer and below the finalized height. */
  lemma CycleExactly(cfg: Config, settings: P.Settings, w: World, ends: seq<int>, fates: int -> P.Fate)
    requires cfg.segmentSize >= 2 && Safe(cfg, settings, w) && SortedKeys(w, ends)
    ensures var w', due := PruneStep(settings, w, ends, fates), DueOf(settings, w, ends, fates);
            && P.Passed(settings, PrunerView(w), PrunerView(w'), due, fates)
            && w'.st.blockHeight == w.st.blockHeight && w'.st.lastDagCid == w.st.lastDagCid && w'.tail == w.tail
            && w'.forgotten == Further(w.forgotten, P.CidsCut(settings, due, fates))
            && forall e | e in due ::
                 && e in w.st.segments && w.st.segments[e].storage == PendingStorage
                 && 0 < e < PruningHeight(settings, w) <= w.st.blockHeight
                 && (w.tail.Some? ==> e < w.tail.value - settings.buffer)
  {
    hide P.RetireAll, P.Due, P.Passed, Indexed, TiledOrTorn, P.CidsCut, P.Fails;
    PositiveEnds(cfg, w.st);
    P.NothingPassed(settings, PrunerView(w), fates);
    if PruningHeight(settings, w) > w.lastPruned {
      P.PassExactly(settings, PrunerView(w), ends, PruningHeight(settings, w), fates);
    } else {
      NothingCut(settings, fates);
    }
  }

  lemma NothingCut(settings: P.Settings, fates: int -> P.Fate)
    ensures P.CidsCut(settings, [], fates) == None
  {
  }

  lemma PruneStepIsSafe(cfg: Config, settings: P.Settings, w: World, ends: seq<int>, fates: int -> P.Fate)
    requires cfg.segmentSize >= 2 && Safe(cfg, settings, w) && SortedKeys(w, ends)
    ensures Safe(cfg, settings, PruneStep(settings, w, ends, fates))
    ensures var w' := PruneStep(settings, w, ends, fates);
            w'.forgotten == w.forgotten || (w.tail.Some? ==> w'.forgotten < w.tail.value - settings.buffer)
  {
    hide P.Passed, Indexed, TiledOrTorn, PruneStep, DueOf, P.CidsCut;
    var w', due := PruneStep(settings, w, ends, fates), DueOf(settings, w, ends, fates);
    CycleExactly(cfg, settings, w, ends, fates);
    CutIsDue(settings, due, fates);
    TiledAfterPrune(cfg, settings, w, w', due, fates);
    IndexedAfterPrune(cfg, settings, w, w', due, fates);
    LastPrunedIsDue(settings, w, w', due, fates);
  }

  lemma LastPrunedIsDue(settings: P.Settings, w: World, w': World, due: seq<int>, fates: int -> P.Fate)
    requires P.Passed(settings, PrunerView(w), PrunerView(w'), due, fates)
    ensures w'.lastPruned == w.lastPruned || w'.lastPruned in due
  {
    hide P.CidsCut, P.PayloadsCut;
  }

  lemma TiledAfterPrune(cfg: Config, settings: P.Settings, w: World, w': World, due: seq<int>, fates: int -> P.Fate)
    requires cfg.segmentSize > 0 && TiledOrTorn(cfg, w.st)
    requires w'.st.blockHeight == w.st.blockHeight && w'.st.lastDagCid == w.st.lastDagCid
    requires P.Passed(settings, PrunerView(w), PrunerView(w'), due, fates)
    ensures TiledOrTorn(cfg, w'.st)
    ensures Tiled(cfg, w.st) ==> Tiled(cfg, w'.st)
  {
    hide Ancestor, EndsSegment, P.CidsCut, P.PayloadsCut;
    P.SameEnds(settings, PrunerView(w), PrunerView(w'), due, fates);
  }

  lemma IndexedAfterPrune(cfg: Config, settings: P.Settings, w: World, w': World, due: seq<int>, fates: int -> P.Fate)
    requires cfg.segmentSize > 0 && Indexed(cfg, w.st, w.forgotten)
    requires w'.st.blockHeight == w.st.blockHeight && w'.st.lastDagCid == w.st.lastDagCid
    requires P.Passed(settings, PrunerView(w), PrunerView(w'), due, fates)
    requires w'.forgotten == Further(w.forgotten, P.CidsCut(settings, due, fates))
    requires w'.forgotten == w.forgotten || w'.forgotten < w.st.blockHeight
    ensures Indexed(cfg, w'.st, w'.forgotten)
  {
    hide Ancestor, WellLinked, P.CidsCut, P.PayloadsCut;
    forall h ensures At(w'.st.cids, h) == if w'.forgotten < h <= w.st.blockHeight
                                          then [Ancestor(w.st.lastDagCid.value, h)] else []
    {
      assert At(w.st.cids, h) == if w.forgotten < h <= w.st.blockHeight
                                 then [Ancestor(w.st.lastDagCid.value, h)] else [];
    }
  }

  lemma TailStepIsSafe(cfg: Config, settings: P.Settings, w: World, tail: int)
    requires cfg.segmentSize > 0 && Safe(cfg, settings, w)
    ensures Safe(cfg, settings, Act(cfg, settings, w, MoveTail(tail)))
  {
    hide TiledOrTorn, WellLinked, Ancestor;
    if MayMove(w, tail) {
      assert At(w.st.cids, tail) != [];
    }
  }

  lemma ActIsSafe(cfg: Config, settings: P.Settings, w: World, a: Action)
    requires cfg.segmentSize >= 2 && Safe(cfg, settings, w)
    ensures Safe(cfg, settings, Act(cfg, settings, w, a))
  {
    hide Safe, Step, PruneStep, SortedKeys;
    match a {
      case Keys(ev) => KeysStepIsSafe(cfg, settings, w, ev);
      case Prune(ends, fates) =>
        if SortedKeys(w, ends) {
          PruneStepIsSafe(cfg, settings, w, ends, fates);
        }
      case MoveTail(t) => TailStepIsSafe(cfg, settings, w, t);
    }
  }

  // --- every run -------------------------------------------------------------------

  lemma EmptyIsSafe(cfg: Config, settings: P.Settings)
    requires cfg.segmentSize > 0
    ensures Safe(cfg, settings, World(EMPTY, 0, None, 0)) && Tiled(cfg, EMPTY)
  {
  }

  /** Whatever is delivered, wherever processes die, whenever tails appear and whatever fails while segments
      are retired. */
  lemma {:induction false} EveryRunIsSafe(cfg: Config, settings: P.Settings, actions: seq<Action>)
    requires cfg.segmentSize >= 2
    ensures Safe(cfg, settings, RunAll(cfg, settings, actions))
    decreases |actions|
  {
    hide Safe, Act;
    if actions == [] {
      EmptyIsSafe(cfg, settings);
    } else {
      var n := |actions| - 1;
      EveryRunIsSafe(cfg, settings, actions[..n]);
      ActIsSafe(cfg, settings, RunAll(cfg, settings, actions[..n]), actions[n]);
    }
  }

  predicate Clean(a: Action) {
    a.Keys? ==> BoundaryOnce(a.ev)
  }

  /** Without a death between a segment and its boundary block the segments stay tiles, pruned or not. */
  lemma {:induction false} EveryCleanRunTiles(cfg: Config, settings: P.Settings, actions: seq<Action>)
    requires cfg.segmentSize >= 2
    requires forall i | 0 <= i < |actions| :: Clean(actions[i])
    ensures Tiled(cfg, RunAll(cfg, settings, actions).st)
    decreases |actions|
  {
    hide Safe, Act, Tiled;
    if actions == [] {
      EmptyIsSafe(cfg, settings);
    } else {
      var n := |actions| - 1;
      EveryCleanRunTiles(cfg, settings, actions[..n]);
      EveryRunIsSafe(cfg, settings, actions[..n]);
      assert Clean(actions[n]);
      ActKeepsTiles(cfg, settings, RunAll(cfg, settings, actions[..n]), actions[n]);
    }
  }

  lemma ActKeepsTiles(cfg: Config, settings: P.Settings, w: World, a: Action)
    requires cfg.segmentSize >= 2 && Safe(cfg, settings, w) && Tiled(cfg, w.st) && Clean(a)
    ensures Tiled(cfg, Act(cfg, settings, w, a).st)
  {
    hide Indexed, Tiled, TiledOrTorn, Step, PruneStep, DueOf, SortedKeys, P.Passed, BoundaryOnce;
    match a {
      case Keys(ev) => StepKeepsTiling(cfg, w.st, w.forgotten, ev);
      case Prune(ends, fates) =>
        if SortedKeys(w, ends) {
          CycleExactly(cfg, settings, w, ends, fates);
          TiledAfterPrune(cfg, settings, w, PruneStep(settings, w, ends, fates), DueOf(settings, w, ends, fates),
                          fates);
        }
      case MoveTail(_) =>
    }
  }

  /** The storage type of every segment that a cycle retires is noted. */
  ghost predicate Notes(a: Action) {
    a.Prune? ==> forall e :: a.fates(e).noted
  }

  lemma ActKeepsPrefix(cfg: Config, settings: P.Settings, w: World, a: Action)
    requires cfg.segmentSize >= 2 && Safe(cfg, settings, w) && P.RetiredPrefix(PrunerView(w)) && Notes(a)
    ensures P.RetiredPrefix(PrunerView(Act(cfg, settings, w, a)))
  {
    hide Indexed, TiledOrTorn, Step, P.RetireAll, P.Due, P.RetiredPrefix, OldSegmentsStay;
    match a {
      case Keys(ev) =>
        KeysStepIsSafe(cfg, settings, w, ev);
        PositiveEnds(cfg, Step(cfg, w.st, ev));
        PrefixStays(w, Step(cfg, w.st, ev));
      case Prune(ends, fates) =>
        if SortedKeys(w, ends) {
          P.PassKeepsPrefix(settings, PrunerView(w), ends, PruningHeight(settings, w), fates);
        }
      case MoveTail(_) =>
    }
  }

  lemma PrefixStays(w: World, st': Project)
    requires P.RetiredPrefix(PrunerView(w)) && OldSegmentsStay(w.st, st')
    requires w.lastPruned == 0 || w.lastPruned < w.st.blockHeight
    requires forall e | e in st'.segments :: e > 0
    ensures P.RetiredPrefix(PrunerView(w.(st := st')))
  {
  }

  /** As long as storage types get noted, what is retired is a prefix of the segments that ends at the last
      pruned height; deaths, archival failures and lost index removals do not change that. */
  lemma {:induction false} EveryNotedRunRetiresPrefix(cfg: Config, settings: P.Settings, actions: seq<Action>)
    requires cfg.segmentSize >= 2
    requires forall i | 0 <= i < |actions| :: Notes(actions[i])
    ensures P.RetiredPrefix(PrunerView(RunAll(cfg, settings, actions)))
    decreases |actions|
  {
    if actions != [] {
      hide Safe, Act, Notes, P.RetiredPrefix;
      var n := |actions| - 1;
      EveryNotedRunRetiresPrefix(cfg, settings, actions[..n]);
      EveryRunIsSafe(cfg, settings, actions[..n]);
      assert Notes(actions[n]);
      ActKeepsPrefix(cfg, settings, RunAll(cfg, settings, actions[..n]), actions[n]);
    }
  }

  // --- what becomes of a segment -----------------------------------------------------------

  /** The height from which on a pruning cycle leaves everything alone, but for the buffer: the tail of the 7d
      index, or for a project without one a fixed distance behind the finalized height. */
  function Oldest(settings: P.Settings, w: World): int {
    match w.tail
    case Some(t) => t
    case None => w.st.blockHeight - settings.behindHead
  }

  /** A pending segment whose end and the buffer lie below the oldest height, when none up to it fails. */
  ghost predicate CycleReaches(settings: P.Settings, w: World, fates: int -> P.Fate, e: int) {
    && e in w.st.segments && w.st.segments[e].storage == PendingStorage
    && e + settings.buffer < Oldest(settings, w)
    && forall k | k <= e && k in w.st.segments && w.st.segments[k].storage == PendingStorage ::
         fates(k).readable && (settings.performArchival ==> fates(k).archived)
  }

  /** A pruning cycle makes exactly the reached segments whose storage type gets noted cold, with archival on, or
      pruned, with archival off, provided that it looks beyond the last pruned height at all. */
  lemma CycleStores(cfg: Config, settings: P.Settings, w: World, ends: seq<int>, fates: int -> P.Fate)
    requires cfg.segmentSize >= 2 && Safe(cfg, settings, w) && SortedKeys(w, ends)
    ensures var w', begins := PruneStep(settings, w, ends, fates), w.lastPruned + settings.buffer < Oldest(settings, w);
            && w'.st.segments.Keys == w.st.segments.Keys
            && (forall e | e in w.st.segments ::
                  var retires := begins && CycleReaches(settings, w, fates, e) && fates(e).noted;
                  && (w'.st.segments[e].storage == Cold <==>
                        w.st.segments[e].storage == Cold || (retires && settings.performArchival))
                  && (w'.st.segments[e].storage == Pruned <==>
                        w.st.segments[e].storage == Pruned || (retires && !settings.performArchival)))
            && (forall e | begins && CycleReaches(settings, w, fates, e) :: e <= w'.lastPruned)
            && (w'.lastPruned == w.lastPruned || (begins && CycleReaches(settings, w, fates, w'.lastPruned)))
  {
    hide Indexed, TiledOrTorn, P.RetireAll, P.Retired, P.Ascending;
    PositiveEnds(cfg, w.st);
    var height := PruningHeight(settings, w);
    assert height > w.lastPruned <==> w.lastPruned + settings.buffer < Oldest(settings, w);
    if height > w.lastPruned {
      P.RetiredExactly(settings, PrunerView(w), ends, height, fates);
      forall e ensures P.Reached(settings, PrunerView(w), height, fates, e) <==> CycleReaches(settings, w, fates, e) {
        ReachedInCycle(settings, w, height, fates, e);
      }
      StoresAs(settings, w, PruneStep(settings, w, ends, fates), height, fates);
    }
  }

  lemma ReachedInCycle(settings: P.Settings, w: World, height: int, fates: int -> P.Fate, e: int)
    requires height == Oldest(settings, w) - settings.buffer
    ensures P.Reached(settings, PrunerView(w), height, fates, e) <==> CycleReaches(settings, w, fates, e)
  {
    var s := PrunerView(w);
    if P.Reached(settings, s, height, fates, e) {
      forall k | k <= e && k in w.st.segments && w.st.segments[k].storage == PendingStorage
        ensures fates(k).readable && (settings.performArchival ==> fates(k).archived)
      {
        assert P.Turn(s, height, k) && P.Works(settings, fates(k));
      }
    }
  }

  lemma StoresAs(settings: P.Settings, w: World, w': World, height: int, fates: int -> P.Fate)
    requires P.Retired(settings, PrunerView(w), PrunerView(w'), height, fates)
    requires forall e :: P.Reached(settings, PrunerView(w), height, fates, e) <==> CycleReaches(settings, w, fates, e)
    ensures w'.st.segments.Keys == w.st.segments.Keys
    ensures forall e | e in w.st.segments ::
              var retires := CycleReaches(settings, w, fates, e) && fates(e).noted;
              && (w'.st.segments[e].storage == Cold <==>
                    w.st.segments[e].storage == Cold || (retires && settings.performArchival))
              && (w'.st.segments[e].storage == Pruned <==>
                    w.st.segments[e].storage == Pruned || (retires && !settings.performArchival))
    ensures forall e | CycleReaches(settings, w, fates, e) :: e <= w'.lastPruned
    ensures w'.lastPruned == w.lastPruned || CycleReaches(settings, w, fates, w'.lastPruned)
  {
    hide P.RetiredHeights, P.Reached;
  }

  /** With archival on nothing is pruned, and with archival off nothing is cold. */
  ghost predicate StoredAsSet(settings: P.Settings, w: World) {
    forall e | e in w.st.segments ::
      w.st.segments[e].storage != if settings.performArchival then Pruned else Cold
  }

  lemma ActStoresAsSet(cfg: Config, settings: P.Settings, w: World, a: Action)
    requires cfg.segmentSize >= 2 && Safe(cfg, settings, w) && StoredAsSet(settings, w)
    ensures StoredAsSet(settings, Act(cfg, settings, w, a))
  {
    hide Safe, Step, PruneStep, SortedKeys, CycleReaches;
    match a {
      case Keys(ev) => KeysStepIsSafe(cfg, settings, w, ev);
      case Prune(ends, fates) =>
        if SortedKeys(w, ends) {
          CycleStores(cfg, settings, w, ends, fates);
          assert forall e :: e in PruneStep(settings, w, ends, fates).st.segments.Keys <==> e in w.st.segments.Keys;
        }
      case MoveTail(_) =>
    }
  }

  /** In every state of every run. */
  lemma {:induction false} EveryRunStoresAsSet(cfg: Config, settings: P.Settings, actions: seq<Action>)
    requires cfg.segmentSize >= 2
    ensures StoredAsSet(settings, RunAll(cfg, settings, actions))
    decreases |actions|
  {
    if actions != [] {
      hide Safe, Act, StoredAsSet;
      var n := |actions| - 1;
      EveryRunStoresAsSet(cfg, settings, actions[..n]);
      EveryRunIsSafe(cfg, settings, actions[..n]);
      ActStoresAsSet(cfg, settings, RunAll(cfg, settings, actions[..n]), actions[n]);
    }
  }

  /** A tail that appears for the first time is not within the buffer above what was forgotten. */
  predicate InTime(settings: P.Settings, w: World, a: Action) {
    a.MoveTail? && w.tail.None? ==> Covers(settings, w, a.tail)
  }

  lemma ActKeepsTailCovered(cfg: Config, settings: P.Settings, w: World, a: Action)
    requires cfg.segmentSize >= 2 && Safe(cfg, settings, w) && TailCovered(settings, w)
    requires InTime(settings, w, a)
    ensures TailCovered(settings, Act(cfg, settings, w, a))
  {
    hide Step, PruneStep, Indexed, TiledOrTorn, SortedKeys;
    if a.Prune? && SortedKeys(w, a.ends) {
      PruneStepIsSafe(cfg, settings, w, a.ends, a.fates);
      PruneKeepsTail(settings, w, a.ends, a.fates);
    }
  }

  lemma PruneKeepsTail(settings: P.Settings, w: World, ends: seq<int>, fates: int -> P.Fate)
    requires SortedKeys(w, ends)
    ensures var w' := PruneStep(settings, w, ends, fates);
            && w'.tail == w.tail && w'.st.blockHeight == w.st.blockHeight && w'.st.lastDagCid == w.st.lastDagCid
  {
    hide P.RetireAll, P.Due;
  }

  lemma {:induction false} TimelyTailIsCovered(cfg: Config, settings: P.Settings, actions: seq<Action>)
    requires cfg.segmentSize >= 2
    requires forall i | 0 <= i < |actions| :: InTime(settings, RunAll(cfg, settings, actions[..i]), actions[i])
    ensures TailCovered(settings, RunAll(cfg, settings, actions))
    decreases |actions|
  {
    if actions != [] {
      var n := |actions| - 1;
      var prefix := actions[..n];
      forall i | 0 <= i < n ensures prefix[..i] == actions[..i] && prefix[i] == actions[i] {
      }
      EveryRunIsSafe(cfg, settings, prefix);
      TimelyTailIsCovered(cfg, settings, prefix);
      hide Safe, Act, InTime, TailCovered;
      ActKeepsTailCovered(cfg, settings, RunAll(cfg, settings, prefix), actions[n]);
    }
  }

  /** Every finalized height from a height on gives its block. */
  ghost predicate IndexedFrom(w: World, from: int) {
    forall h | from <= h <= w.st.blockHeight && 1 <= h ::
      w.st.lastDagCid.Some? && GetDagCid(w.st, h) == Some(Ancestor(w.st.lastDagCid.value, h))
  }

  lemma IndexedFromExactly(cfg: Config, settings: P.Settings, w: World, from: int)
    requires cfg.segmentSize > 0 && Safe(cfg, settings, w)
    ensures IndexedFrom(w, from) <==> w.forgotten == 0 || w.forgotten < from
  {
    hide WellLinked, Ancestor, TiledOrTorn;
    var lo := w.forgotten;
    forall h ensures At(w.st.cids, h) ==
                     if lo < h <= w.st.blockHeight then [Ancestor(w.st.lastDagCid.value, h)] else []
    {
    }
    if lo > 0 && from <= lo {
      assert GetDagCid(w.st, lo) == None;
    }
  }

  /** In every state of every run: the parent of the next block is indexed, every finalized height from the 7d
      tail on gives its block, and so does every one from the buffer below the tail on, exactly when the tail
      covers what was forgotten. */
  lemma NeededHeightsStayIndexed(cfg: Config, settings: P.Settings, actions: seq<Action>)
    requires cfg.segmentSize >= 2
    ensures var w := RunAll(cfg, settings, actions);
            && GetDagCid(w.st, w.st.blockHeight) == w.st.lastDagCid
            && !Raises(cfg, w.st, w.st.blockHeight + 1)
            && (w.tail.Some? ==>
                  && IndexedFrom(w, w.tail.value)
                  && (IndexedFrom(w, w.tail.value - settings.buffer) <==> Covers(settings, w, w.tail.value)))
    ensures (forall i | 0 <= i < |actions| :: InTime(settings, RunAll(cfg, settings, actions[..i]), actions[i])) ==>
              var w := RunAll(cfg, settings, actions);
              w.tail.Some? ==> IndexedFrom(w, w.tail.value - settings.buffer)
  {
    hide RunAll, Indexed, TiledOrTorn, IndexedFrom;
    var w := RunAll(cfg, settings, actions);
    EveryRunIsSafe(cfg, settings, actions);
    ParentOfNext(cfg, w.st, w.forgotten);
    if w.tail.Some? {
      IndexedFromExactly(cfg, settings, w, w.tail.value);
      IndexedFromExactly(cfg, settings, w, w.tail.value - settings.buffer);
    }
    if forall i | 0 <= i < |actions| :: InTime(settings, RunAll(cfg, settings, actions[..i]), actions[i]) {
      TimelyTailIsCovered(cfg, settings, actions);
    }
  }

  // --- a tail that comes too late ---------------------------------------------------------

  lemma {:induction false} SortedExists(keys: set<int>) returns (ends: seq<int>)
    ensures P.Ascending(ends) && forall e :: e in ends <==> e in keys
    decreases |keys|
  {
    ends := [];
    if |keys| > 0 {
      var last := Sets.MaxOf(keys);
      var rest := SortedExists(keys - {last});
      forall e | e in rest ensures e < last {
        assert e in keys - {last};
      }
      forall i | 0 <= i < |rest| ensures rest[i] < last {
        assert rest[i] in rest;
      }
      ends := rest + [last];
    }
  }

  lemma LastRemoved(settings: P.Settings, due: seq<int>, fates: int -> P.Fate)
    requires settings.pruneZsets && (forall k :: P.Smooth(fates(k))) && due != []
    ensures P.CidsCut(settings, due, fates) == Some(due[|due| - 1])
  {
    var e := due[|due| - 1];
    assert P.Smooth(fates(e));
  }

  /** What a pruning cycle without failures spares, exactly: a height below which there is every segment end that
      is due. With the buffer, these are the heights down to the last segment end that lies below the tail by
      more than the buffer. */
  lemma PruneSparesExactly(cfg: Config, settings: P.Settings, w: World, ends: seq<int>, fates: int -> P.Fate, from: int)
    requires cfg.segmentSize >= 2 && Safe(cfg, settings, w) && SortedKeys(w, ends)
    requires settings.pruneZsets && (forall k :: P.Smooth(fates(k)))
    ensures PruneStep(settings, w, ends, fates).forgotten < from <==>
            && w.forgotten < from
            && (w.lastPruned < PruningHeight(settings, w) ==>
                  forall e | e in w.st.segments && w.st.segments[e].storage == PendingStorage ::
                    e < PruningHeight(settings, w) ==> e < from)
  {
    hide P.RetireAll, P.Due, P.CidsCut, Indexed, TiledOrTorn, P.Passed;
    var height := PruningHeight(settings, w);
    if height > w.lastPruned {
      var due := P.Due(settings, w.st.segments, ends, height, fates);
      P.PassExactly(settings, PrunerView(w), ends, height, fates);
      forall k ensures !P.Fails(settings, fates(k)) {
        assert P.Smooth(fates(k));
      }
      if due == [] {
        NothingCut(settings, fates);
      } else {
        LastRemoved(settings, due, fates);
        P.LastIsLargest(due);
      }
    }
  }

  /** It retires every pending segment below its height. */
  lemma PruneForgets(cfg: Config, settings: P.Settings, w: World, ends: seq<int>, fates: int -> P.Fate, e: int)
    requires cfg.segmentSize >= 2 && Safe(cfg, settings, w) && SortedKeys(w, ends)
    requires settings.pruneZsets && (forall k :: P.Smooth(fates(k)))
    requires e in w.st.segments && w.st.segments[e].storage == PendingStorage
    requires w.lastPruned < PruningHeight(settings, w) && e < PruningHeight(settings, w)
    ensures PruneStep(settings, w, ends, fates).forgotten >= e
  {
    hide PruneStep, Safe, SortedKeys, PruningHeight;
    PruneSparesExactly(cfg, settings, w, ends, fates, e);
  }

  function AsKeys(events: seq<Event>): (r: seq<Action>)
    ensures |r| == |events| && forall i | 0 <= i < |r| :: r[i] == Keys(events[i])
  {
    if events == [] then [] else AsKeys(events[..|events| - 1]) + [Keys(events[|events| - 1])]
  }

  lemma {:induction false} RunOfKeys(cfg: Config, settings: P.Settings, events: seq<Event>)
    requires cfg.segmentSize > 0
    ensures RunAll(cfg, settings, AsKeys(events)) == World(Run(cfg, EMPTY, events), 0, None, 0)
    decreases |events|
  {
    hide Step;
    if events != [] {
      var prefix := events[..|events| - 1];
      RunOfKeys(cfg, settings, prefix);
      assert AsKeys(events)[..|events| - 1] == AsKeys(prefix);
    }
  }

  lemma ActMore(cfg: Config, settings: P.Settings, actions: seq<Action>, a: Action)
    requires cfg.segmentSize > 0
    ensures RunAll(cfg, settings, actions + [a]) == Act(cfg, settings, RunAll(cfg, settings, actions), a)
  {
    assert (actions + [a])[..|actions|] == actions;
  }

  /** The run in which it happens: ordinary traffic, one pruning cycle by the distance from the head, and only
      then the first tail of the 7d index, at the lowest height that can still be read. */
  lemma LateTailMissesHeights(cfg: Config, settings: P.Settings, w: Workload, env: Env, fates: int -> P.Fate)
    returns (actions: seq<Action>, tail: int)
    requires cfg.segmentSize >= 2 && settings.pruneZsets && settings.buffer > 0 && (forall k :: P.Smooth(fates(k)))
    requires WellFormed(w) && w.n > cfg.segmentSize + settings.buffer + settings.behindHead && env.cut.NoCut?
    ensures var world := RunAll(cfg, settings, actions);
            && world.tail == Some(tail) && world.st.blockHeight == w.n
            && IndexedFrom(world, tail) && !IndexedFrom(world, tail - settings.buffer)
  {
    hide Safe, RunAll, WellFormed, Run, IndexedFrom, PruneStep, TiledOrTorn, Indexed, WitnessRuns.Ordinary, P.Smooth;
    var events := WitnessRuns.Ordinary(w, w.n, env);
    WitnessRuns.OrdinaryReaches(cfg, w, w.n, env);
    RunOfKeys(cfg, settings, events);
    var st := Run(cfg, EMPTY, events);
    EveryRunIsSafe(cfg, settings, AsKeys(events));
    FirstSegmentIsThere(cfg, w, env);
    var ends := SortedExists(st.segments.Keys);
    var before := World(st, 0, None, 0);
    assert forall e :: e in ends <==> e in before.st.segments;
    PruneForgets(cfg, settings, before, ends, fates, cfg.segmentSize);
    PruneStepIsSafe(cfg, settings, before, ends, fates);
    PruneKeepsTail(settings, before, ends, fates);
    var pruned := PruneStep(settings, before, ends, fates);
    tail := pruned.forgotten + 1;
    FirstReadable(cfg, settings, pruned);
    actions := AsKeys(events) + [Prune(ends, fates)] + [MoveTail(tail)];
    ActMore(cfg, settings, AsKeys(events), Prune(ends, fates));
    ActMore(cfg, settings, AsKeys(events) + [Prune(ends, fates)], MoveTail(tail));
    EveryRunIsSafe(cfg, settings, actions);
    IndexedFromExactly(cfg, settings, RunAll(cfg, settings, actions), tail);
    IndexedFromExactly(cfg, settings, RunAll(cfg, settings, actions), tail - settings.buffer);
  }

  lemma FirstReadable(cfg: Config, settings: P.Settings, w: World)
    requires cfg.segmentSize > 0 && Safe(cfg, settings, w) && w.forgotten > 0
    ensures GetDagCid(w.st, w.forgotten + 1).Some?
  {
    hide WellLinked, Ancestor, TiledOrTorn;
    assert At(w.st.cids, w.forgotten + 1) != [];
  }

  lemma FirstSegmentIsThere(cfg: Config, w: Workload, env: Env)
    requires cfg.segmentSize >= 2 && WellFormed(w) && w.n > cfg.segmentSize && env.cut.NoCut?
    ensures var st := Run(cfg, EMPTY, WitnessRuns.Ordinary(w, w.n, env));
            cfg.segmentSize in st.segments && st.segments[cfg.segmentSize].storage == PendingStorage
  {
    hide Run, WitnessRuns.Ordinary, Indexed, Ancestor, WellFormed;
    var events := WitnessRuns.Ordinary(w, w.n, env);
    WitnessRuns.OrdinaryReaches(cfg, w, w.n, env);
    WitnessRuns.OrdinaryIsFaultFree(w, w.n, env);
    EveryRunTiles(cfg, events);
    Numbers.DivModUnique(cfg.segmentSize, cfg.segmentSize, 1, 0);
    assert EndsSegment(cfg.segmentSize, Run(cfg, EMPTY, events).blockHeight, cfg.segmentSize);
    NothingRetired(cfg, events, cfg.segmentSize);
  }

  lemma NothingRetired(cfg: Config, events: seq<Event>, e: int)
    requires cfg.segmentSize >= 2
    ensures var st := Run(cfg, EMPTY, events); e in st.segments ==> st.segments[e].storage == PendingStorage
  {
    hide Run, RunAll;
    var settings := P.Settings(true, true, 0, 0);
    RunOfKeys(cfg, settings, events);
    KeysOnlyNote(events);
    EveryNotedRunRetiresPrefix(cfg, settings, AsKeys(events));
  }

  lemma KeysOnlyNote(events: seq<Event>)
    ensures forall i | 0 <= i < |events| :: Notes(AsKeys(events)[i])
  {
    forall i | 0 <= i < |events| ensures Notes(AsKeys(events)[i]) {
      assert AsKeys(events)[i] == Keys(events[i]);
    }
  }
}
