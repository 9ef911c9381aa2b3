/** Two payload index members at one height: what ends it, and what it stops until then. */
module StaleMembers {
  import opened Store
  import opened Finalizer
  import opened ChainInvariant
  import opened Healing
  import opened PayloadIndex
  import opened SystemRun
  import B = BoundaryAttempts
  import HealedIndex
  import PayloadMerge
  import Sets
  import P = Pruning

  // --- what moves a member -------------------------------------------------------------

  lemma BlockKeepsPayloads(cfg: Config, st: Project, h: nat, txHash: string, snapshotCid: string, timestamp: int)
    requires cfg.segmentSize > 0 && !Raises(cfg, st, h)
    ensures WithSegment(cfg, st, h).payloadCids == st.payloadCids
    ensures IndexBlock(cfg, st, h, txHash, snapshotCid, timestamp).payloadCids == st.payloadCids
  {
  }

  lemma {:induction false} InOrderKeepsPayloads(cfg: Config, st: Project, h: nat, txHash: string, snapshotCid: string,
                                                timestamp: int, cut: Cut)
    requires cfg.segmentSize > 0
    ensures InOrder(cfg, st, h, txHash, snapshotCid, timestamp, cut).payloadCids == st.payloadCids
    decreases |st.pending - {h}|, 1
  {
    hide Drain, CreateBlock, IndexBlock, WithSegment;
    if !Raises(cfg, st, h) {
      BlockKeepsPayloads(cfg, st, h, txHash, snapshotCid, timestamp);
      if cut.NoCut? || cut.blocks > 0 {
        DrainKeepsPayloads(cfg, CreateBlock(cfg, st, h, txHash, snapshotCid, timestamp), OneLess(cut));
      }
    }
  }

  lemma {:induction false} DrainKeepsPayloads(cfg: Config, st: Project, cut: Cut)
    requires cfg.segmentSize > 0
    ensures Drain(cfg, st, cut).payloadCids == st.payloadCids
    decreases |st.pending|, 0
  {
    hide InOrder;
    var next := st.blockHeight + 1;
    var queued := ConfirmedIn(At(st.pending, next));
    if queued != [] {
      assert queued[0] in At(st.pending, next);
      Sets.SmallerWithout(st.pending, next);
      var e := queued[0].event;
      InOrderKeepsPayloads(cfg, st, next, e.txHash, e.snapshotCid, e.timestamp, cut);
    }
  }

  /** A callback that heals, with a member as the CID of one of the heights that it fills. */
  ghost predicate FillsWith(cfg: Config, st: Project, cb: Callback, env: Env, c: string) {
    && cb.height >= st.blockHeight + HEALING_THRESHOLD && ConsensusReady(cfg)
    && Find(At(st.pending, cb.height), cb.requestID).Some?
    && var seen := SaveEvent(st, Find(At(st.pending, cb.height), cb.requestID).value, cb).pending;
    && ConfirmedIn(At(seen, st.blockHeight + 1)) == []
    && IsFill(cfg, env, st.blockHeight + 1, Earliest(seen, st.blockHeight + 2, cb.height), c)
  }

  /** The events that take a member away from a finalized height. */
  ghost predicate Moves(cfg: Config, st: Project, ev: Event, c: string, k: int) {
    match ev
    case Recorded(h, s) => s == c && h != k
    case Interrupted(_, _, z) => !Sits(z, c, k)
    case Deliver(cb, env) => FillsWith(cfg, st, cb, env, c)
    case _ => false
  }

  lemma HealMoves(cfg: Config, st: Project, seen: map<int, seq<Pending>>, height: int, env: Env, c: string, k: int)
    requires cfg.segmentSize > 0 && Sits(st.payloadCids, c, k) && k <= st.blockHeight
    ensures var hi := Earliest(seen, st.blockHeight + 2, height);
            Sits(Heal(cfg, st, seen, height, env).payloadCids, c, k) <==>
            !(ConfirmedIn(At(seen, st.blockHeight + 1)) == [] && ConsensusReady(cfg) &&
              IsFill(cfg, env, st.blockHeight + 1, hi, c))
  {
    hide InOrder, Earliest, IsFill, FillCid, Fill, ConfirmedIn;
    var next := st.blockHeight + 1;
    var stuck := ConfirmedIn(At(seen, next));
    if |stuck| == 1 {
      var e := stuck[0];
      InOrderKeepsPayloads(cfg, st, next, e.txHash, e.event.snapshotCid, e.event.timestamp, env.cut);
    } else if stuck == [] && ConsensusReady(cfg) {
      var hi := Earliest(seen, next + 1, height);
      FillIndexExactly(cfg, st, env, next, hi, c);
      var filled := Fill(cfg, st, env, next, hi);
      InOrderKeepsPayloads(cfg, filled, next, cfg.dummyTxHash, FillCid(cfg, env, next), env.now, env.cut);
      assert Heal(cfg, st, seen, height, env).payloadCids == filled.payloadCids;
    }
  }

  lemma DeliveryMoves(cfg: Config, st: Project, cb: Callback, env: Env, c: string, k: int)
    requires cfg.segmentSize > 0 && Sits(st.payloadCids, c, k) && k <= st.blockHeight
    ensures Sits(Process(cfg, st, cb, env).payloadCids, c, k) <==> !FillsWith(cfg, st, cb, env, c)
  {
    hide InOrder, Heal, IsFill, Earliest, ConfirmedIn, ZAdd, ZRem, TouchedIn, Find;
    var found := Find(At(st.pending, cb.height), cb.requestID);
    if cb.height > st.blockHeight && found.Some? {
      if cb.height == st.blockHeight + 1 {
        InOrderKeepsPayloads(cfg, st, cb.height, cb.txHash, cb.snapshotCid, cb.timestamp, env.cut);
      } else {
        var saved := SaveEvent(st, found.value, cb);
        HealMoves(cfg, Resubmit(saved, cb.height), saved.pending, cb.height, env, c, k);
      }
    }
  }

  lemma EventMovesExactly(cfg: Config, st: Project, ev: Event, c: string, k: int)
    requires cfg.segmentSize > 0 && Sits(st.payloadCids, c, k) && k <= st.blockHeight
    ensures Sits(Step(cfg, st, ev).payloadCids, c, k) <==> !Moves(cfg, st, ev, c, k)
  {
    hide Process, FillsWith, ZAdd;
    if ev.Deliver? {
      DeliveryMoves(cfg, st, ev.cb, ev.env, c, k);
    }
  }

  /** The same for every action on the shared keys: a pruning cycle takes away what it reaches. */
  ghost predicate TakesAway(cfg: Config, settings: P.Settings, w: World, a: Action, c: string, k: int)
    requires cfg.segmentSize > 0
  {
    match a
    case Keys(ev) => Moves(cfg, w.st, ev, c, k)
    case Prune(ends, fates) =>
      SortedKeys(w, ends) && P.Gone(P.PayloadsCut(settings, DueOf(settings, w, ends, fates), fates), k)
    case MoveTail(_) => false
  }

  lemma MembersMoveExactly(cfg: Config, settings: P.Settings, w: World, a: Action, c: string, k: int)
    requires cfg.segmentSize >= 2 && Safe(cfg, settings, w)
    requires Sits(w.st.payloadCids, c, k) && k <= w.st.blockHeight
    ensures Sits(Act(cfg, settings, w, a).st.payloadCids, c, k) <==> !TakesAway(cfg, settings, w, a, c, k)
  {
    hide Safe, Step, Moves, PruneStep, DueOf, SortedKeys, P.PayloadsCut, P.Passed;
    match a {
      case Keys(ev) => EventMovesExactly(cfg, w.st, ev, c, k);
      case Prune(ends, fates) =>
        if SortedKeys(w, ends) {
          CycleExactly(cfg, settings, w, ends, fates);
          ForgottenPayload(settings, PrunerView(w), PrunerView(PruneStep(settings, w, ends, fates)),
                           DueOf(settings, w, ends, fates), fates, c, k);
        }
      case MoveTail(_) =>
    }
  }

  lemma ForgottenPayload(settings: P.Settings, s: P.State, s': P.State, due: seq<int>, fates: int -> P.Fate, c: string,
                         k: int)
    requires P.Passed(settings, s, s', due, fates) && Sits(s.payloadCids, c, k)
    ensures Sits(s'.payloadCids, c, k) <==> !P.Gone(P.PayloadsCut(settings, due, fates), k)
  {
    hide P.PayloadsCut, P.CidsCut;
  }

  // --- until then -------------------------------------------------------------------------

  lemma HeightsGrow(cfg: Config, settings: P.Settings, w: World, a: Action)
    requires cfg.segmentSize >= 2 && Safe(cfg, settings, w)
    ensures w.st.blockHeight <= Act(cfg, settings, w, a).st.blockHeight
  {
    hide Indexed, B.TiledOrTorn, Step, PruneStep, SortedKeys;
    match a {
      case Keys(ev) => StepKeepsIndex(cfg, w.st, w.forgotten, ev);
      case Prune(ends, fates) =>
        if SortedKeys(w, ends) {
          PruneKeepsTail(settings, w, ends, fates);
        }
      case MoveTail(_) =>
    }
  }

  lemma SafeReads(cfg: Config, settings: P.Settings, w: World, start: int)
    requires cfg.segmentSize > 0 && Safe(cfg, settings, w)
    ensures OneEach(w.st, start, w.st.blockHeight)
  {
    hide Indexed, B.TiledOrTorn;
    HealedIndex.OneEachIndexed(cfg, w.st, w.forgotten, start);
  }

  /** From any state with two members at a height on, for as long as no action takes one of them away,
      whatever is delivered, healed, committed and pruned: no verification that reads the height succeeds,
      and so none moves past it. */
  lemma {:induction false} TwoMembersStopEveryVerification(cfg: Config, settings: P.Settings, before: seq<Action>,
                                                           more: seq<Action>,
                                                           k: int, c: string, c': string)
    requires cfg.segmentSize >= 2 && c != c'
    requires var w := RunAll(cfg, settings, before);
             k <= w.st.blockHeight && Sits(w.st.payloadCids, c, k) && Sits(w.st.payloadCids, c', k)
    requires forall i | 0 <= i < |more| ::
               var w := RunAll(cfg, settings, before + more[..i]);
               !TakesAway(cfg, settings, w, more[i], c, k) && !TakesAway(cfg, settings, w, more[i], c', k)
    ensures var w := RunAll(cfg, settings, before + more);
            && k <= w.st.blockHeight && Sits(w.st.payloadCids, c, k) && Sits(w.st.payloadCids, c', k)
            && forall text, ranges, start, r | start <= k && ReadsFrom(text, ranges, w.st, start, r) ::
                 !PayloadMerge.Merge(r.dag, r.payloads, 0, r.ipfs).Merged?
    decreases |more|
  {
    hide Safe, Act, TakesAway, ReadsFrom, PayloadMerge.Merge, RunAll, Sits;
    if more == [] {
      assert before + more == before;
    } else {
      var n := |more| - 1;
      var prefix := more[..n];
      forall i | 0 <= i < n ensures prefix[..i] == more[..i] && prefix[i] == more[i] {
      }
      TwoMembersStopEveryVerification(cfg, settings, before, prefix, k, c, c');
      EveryRunIsSafe(cfg, settings, before + prefix);
      var w := RunAll(cfg, settings, before + prefix);
      MembersMoveExactly(cfg, settings, w, more[n], c, k);
      MembersMoveExactly(cfg, settings, w, more[n], c', k);
      HeightsGrow(cfg, settings, w, more[n]);
      ActMore(cfg, settings, before + prefix, more[n]);
      assert before + more == before + prefix + [more[n]];
    }
    var w := RunAll(cfg, settings, before + more);
    EveryRunIsSafe(cfg, settings, before + more);
    forall text, ranges, start, r | start <= k && ReadsFrom(text, ranges, w.st, start, r)
      ensures !PayloadMerge.Merge(r.dag, r.payloads, 0, r.ipfs).Merged?
    {
      SafeReads(cfg, settings, w, start);
      TwoMembersStopVerification(text, ranges, w.st, start, r, k, c, c');
    }
  }
}
