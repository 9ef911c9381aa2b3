/** Self-healing of a stuck chain: it makes progress, and fills every missing height. */
module Healing {
  import opened Store
  import opened Finalizer
  import opened ChainInvariant
  import opened Queue

  /** No confirmed entry waits directly above the finalized height. */
  predicate NotStranded(st: Project) {
    ConfirmedIn(At(st.pending, st.blockHeight + 1)) == []
  }

  /** The filled heights carry exactly one confirmed entry, the others keep what they had. */
  lemma {:induction false} FillConfirms(cfg: Config, env: Env, z: map<int, seq<Pending>>, lo: int, hi: int)
    requires cfg.epochSize.Some? && cfg.firstEpochEnd.Some? && lo <= hi
    requires forall k | lo <= k < hi :: ConfirmedIn(At(z, k)) == []
    ensures var z' := AddFillEntries(cfg, env, z, lo, hi);
            forall k :: if lo <= k < hi then ConfirmedIn(At(z', k)) == [FillEntry(cfg, env, k)]
                        else At(z', k) == At(z, k)
    decreases hi - lo
  {
    hide FillCid, Insert, ConfirmedIn;
    if lo < hi {
      var last := hi - 1;
      FillConfirms(cfg, env, z, lo, last);
      var z' := AddFillEntries(cfg, env, z, lo, last);
      var e := FillEntry(cfg, env, last);
      assert At(z', last) == At(z, last);
      hide FillEntry;
      OneMoreConfirmed(z', last, e);
    }
  }

  lemma OneMoreConfirmed(z: map<int, seq<Pending>>, h: int, e: Pending)
    requires ConfirmedIn(At(z, h)) == [] && Confirmed(e)
    ensures ConfirmedIn(At(ZAdd(z, h, e), h)) == [e]
    ensures forall k | k != h :: At(ZAdd(z, h, e), k) == At(z, k)
  {
    hide Insert, ConfirmedIn;
    assert e !in ConfirmedIn(At(z, h));
    ConfirmedInsert(At(z, h), e);
  }

  /** Filling missing heights next..earliest-1 finalizes them all, with the consensus payload or a
      null payload, and goes on to the end of the confirmed run that starts at `earliest`. */
  ghost predicate Healed(cfg: Config, lo: int, st: Project, z: map<int, seq<Pending>>, st': Project, earliest: int,
                         env: Env)
    requires cfg.segmentSize > 0 && cfg.epochSize.Some? && cfg.firstEpochEnd.Some?
  {
    && Indexed(cfg, st', lo) && Extends(st, st')
    && st.blockHeight + 1 < earliest <= st'.blockHeight && IsRunEnd(z, earliest - 1, st'.blockHeight)
    && (forall k | st.blockHeight < k < earliest :: FilledFrom(cfg, env, Ancestor(st'.lastDagCid.value, k), k,
                                                             st.blockHeight + 1))
    && (forall k | earliest <= k <= st'.blockHeight :: CarriesQueued(z, st'.lastDagCid.value, k))
    && st'.payloadCids == Fill(cfg, st, env, st.blockHeight + 1, earliest).payloadCids
    && st'.discarded == st.discarded
  }

  /** A filled block has the consensus snapshot where consensus was achieved and no payload elsewhere; it is
      stamped with the time at which its entry was made, the first one with that of its creation. */
  predicate FilledFrom(cfg: Config, env: Env, c: Cid, k: int, first: int) {
    && c.block.height == k
    && c.block.timestamp == (if k == first then env.now else env.clock(k))
    && c.block.txHash == cfg.dummyTxHash
    && if Reached(env, k) then LinksPayload(c, env.replies[k].snapshotCid) else c.block.data.None?
  }

  lemma FillCidLinks(cfg: Config, env: Env, c: Cid, k: int)
    requires cfg.epochSize.Some? && cfg.firstEpochEnd.Some? && LinksPayload(c, FillCid(cfg, env, k))
    ensures if Reached(env, k) then LinksPayload(c, env.replies[k].snapshotCid) else c.block.data.None?
  {
    if !Reached(env, k) {
      var s := FillCid(cfg, env, k);
      assert s[..4] == "null";
    }
  }

  lemma FillFromHeals(cfg: Config, lo: int, st: Project, earliest: int, env: Env)
    requires cfg.segmentSize > 0 && cfg.epochSize.Some? && cfg.firstEpochEnd.Some?
    requires Indexed(cfg, st, lo) && env.cut.NoCut?
    requires earliest > st.blockHeight + 1 && ConfirmedIn(At(st.pending, earliest)) != []
    requires forall k | st.blockHeight < k < earliest :: ConfirmedIn(At(st.pending, k)) == []
    ensures Healed(cfg, lo, st, st.pending, FillFrom(cfg, st, earliest, env), earliest, env)
    ensures NotStranded(FillFrom(cfg, st, earliest, env))
  {
    hide InOrder, AddFillEntries, AddFills, DropUnreached, FillCid, Finalized, Healed, ConfirmedIn, At;
    var next := st.blockHeight + 1;
    var filled := Fill(cfg, st, env, next, earliest);
    var st' := FillFrom(cfg, st, earliest, env);
    FillConfirms(cfg, env, st.pending, next, earliest);
    FrameIndexed(cfg, st, filled, lo);
    InOrderComplete(cfg, filled, lo, cfg.dummyTxHash, FillCid(cfg, env, next), env.now);
    HealedFrom(cfg, lo, st, filled, st', earliest, env);
  }

  lemma HealedFrom(cfg: Config, lo: int, st: Project, filled: Project, st': Project, earliest: int, env: Env)
    requires cfg.segmentSize > 0 && cfg.epochSize.Some? && cfg.firstEpochEnd.Some?
    requires earliest > st.blockHeight + 1 && ConfirmedIn(At(st.pending, earliest)) != []
    requires SameChain(st, filled) && filled.discarded == st.discarded
    requires filled.payloadCids == Fill(cfg, st, env, st.blockHeight + 1, earliest).payloadCids
    requires forall k ::
               if st.blockHeight < k < earliest then ConfirmedIn(At(filled.pending, k)) == [FillEntry(cfg, env, k)]
               else At(filled.pending, k) == At(st.pending, k)
    requires Finalized(cfg, lo, filled, st', cfg.dummyTxHash, FillCid(cfg, env, st.blockHeight + 1), env.now)
    ensures Healed(cfg, lo, st, st.pending, st', earliest, env) && NotStranded(st')
  {
    hide FillCid, ConfirmedIn, LinksPayload, WellLinked, Fill;
    var head := st'.lastDagCid.value;
    assert st'.blockHeight >= earliest by {
      assert ConfirmedIn(At(filled.pending, st'.blockHeight + 1)) == [];
    }
    forall k | st.blockHeight < k < earliest ensures FilledFrom(cfg, env, Ancestor(head, k), k, st.blockHeight + 1) {
      if k > st.blockHeight + 1 {
        assert CarriesQueued(filled.pending, head, k);
      }
      FillCidLinks(cfg, env, Ancestor(head, k), k);
    }
    forall k | earliest <= k <= st'.blockHeight
      ensures CarriesQueued(st.pending, head, k) && ConfirmedIn(At(st.pending, k)) != []
    {
      assert CarriesQueued(filled.pending, head, k);
      assert At(filled.pending, k) == At(st.pending, k);
    }
    assert At(st'.pending, st'.blockHeight + 1) == At(filled.pending, st'.blockHeight + 1);
  }

  // --- one callback -----------------------------------------------------------

  /** Two pending sets that agree on what is confirmed at every height. */
  ghost predicate SameConfirmed(z: map<int, seq<Pending>>, z': map<int, seq<Pending>>) {
    forall k :: ConfirmedIn(At(z, k)) == ConfirmedIn(At(z', k))
  }

  lemma ReplaceConfirms(z: map<int, seq<Pending>>, h: int, e: Pending, e': Pending)
    requires Confirmed(e')
    ensures ConfirmedIn(At(Replace(z, h, e, e'), h)) != []
    ensures forall k | k != h :: At(Replace(z, h, e, e'), k) == At(z, k)
  {
    var z' := Replace(z, h, e, e');
    assert e' in At(z', h);
    assert e' in ConfirmedIn(At(z', h));
  }

  lemma TouchedConfirmsNothing(z: map<int, seq<Pending>>, lo: int, hi: int, height: int)
    requires height != CALLBACK_RECEIVED
    ensures SameConfirmed(z, TouchedIn(z, lo, hi, height))
  {
    var z' := TouchedIn(z, lo, hi, height);
    forall k ensures ConfirmedIn(At(z, k)) == ConfirmedIn(At(z', k)) {
      ConfirmedTouched(At(z, k), height);
    }
  }

  /** What an early callback leaves behind before any healing. */
  lemma Parked(st: Project, e: Pending, cb: Callback)
    requires cb.height > st.blockHeight
    ensures var saved := SaveEvent(st, e, cb);
            && SameChain(st, Resubmit(saved, cb.height))
            && Resubmit(saved, cb.height).discarded == st.discarded
            && Resubmit(saved, cb.height).payloadCids == st.payloadCids
            && ConfirmedIn(At(saved.pending, cb.height)) != []
            && (forall k | k != cb.height :: At(saved.pending, k) == At(st.pending, k))
            && SameConfirmed(saved.pending, Resubmit(saved, cb.height).pending)
  {
    hide Insert, Without, Touched, ConfirmedIn;
    var saved := SaveEvent(st, e, cb);
    ReplaceConfirms(st.pending, cb.height, e, Saved(e, cb));
    TouchedConfirmsNothing(saved.pending, st.blockHeight + 1, cb.height - RESUBMISSION_WAIT, cb.height);
  }

  lemma EarlyCallback(cfg: Config, st: Project, cb: Callback, env: Env)
    requires cfg.segmentSize > 0 && cb.height > st.blockHeight + 1
    requires Find(At(st.pending, cb.height), cb.requestID).Some?
    ensures var saved := SaveEvent(st, Find(At(st.pending, cb.height), cb.requestID).value, cb);
            var resubmitted := Resubmit(saved, cb.height);
            Process(cfg, st, cb, env) ==
            if cb.height >= st.blockHeight + HEALING_THRESHOLD
            then Heal(cfg, resubmitted, saved.pending, cb.height, env) else resubmitted
  {
    hide InOrder, FillFrom, Earliest, SaveEvent, Resubmit;
  }

  lemma OtherCallback(cfg: Config, st: Project, cb: Callback, env: Env)
    requires cfg.segmentSize > 0
    ensures var found := Find(At(st.pending, cb.height), cb.requestID);
            && (cb.height <= st.blockHeight ==> Process(cfg, st, cb, env) == DiscardLate(st, cb))
            && (cb.height > st.blockHeight && found.None? ==> Process(cfg, st, cb, env) == Discard(st, cb))
            && (cb.height == st.blockHeight + 1 && found.Some? ==>
                  Process(cfg, st, cb, env) ==
                  InOrder(cfg, st, cb.height, cb.txHash, cb.snapshotCid, cb.timestamp, env.cut))
  {
    hide InOrder, Heal, FillFrom, Find;
  }

  /** With consensus on and nothing confirmed at the next height, an accepted callback five or more
      heights ahead always moves the chain past its first confirmed entry. */
  lemma HealingMakesProgress(cfg: Config, lo: int, st: Project, cb: Callback, env: Env) returns (earliest: int)
    requires cfg.segmentSize > 0 && cfg.useConsensus && cfg.epochSize.Some? && cfg.firstEpochEnd.Some?
    requires Indexed(cfg, st, lo) && NotStranded(st) && env.cut.NoCut?
    requires cb.height >= st.blockHeight + HEALING_THRESHOLD
    requires Find(At(st.pending, cb.height), cb.requestID).Some?
    ensures var saved := SaveEvent(st, Find(At(st.pending, cb.height), cb.requestID).value, cb);
            && st.blockHeight + 1 < earliest <= cb.height
            && ConfirmedIn(At(saved.pending, earliest)) != []
            && (forall k | st.blockHeight < k < earliest :: ConfirmedIn(At(saved.pending, k)) == [])
            && Healed(cfg, lo, st, saved.pending, Process(cfg, st, cb, env), earliest, env)
    ensures NotStranded(Process(cfg, st, cb, env))
  {
    hide Process, Heal, FillFrom, Earliest, SaveEvent, Resubmit, Healed, ConfirmedIn, At, Find;
    var e := Find(At(st.pending, cb.height), cb.requestID).value;
    var saved := SaveEvent(st, e, cb);
    var resubmitted := Resubmit(saved, cb.height);
    Parked(st, e, cb);
    FrameIndexed(cfg, st, resubmitted, lo);
    EarlyCallback(cfg, st, cb, env);
    earliest := Earliest(saved.pending, st.blockHeight + 2, cb.height);
    assert ConfirmedIn(At(saved.pending, st.blockHeight + 1)) == [];
    HealIsFill(cfg, resubmitted, saved.pending, cb.height, env);
    FillFromHeals(cfg, lo, resubmitted, earliest, env);
    HealedFrame(cfg, lo, st, resubmitted, saved.pending, Process(cfg, st, cb, env), earliest, env);
  }

  lemma HealIsFill(cfg: Config, st: Project, seen: map<int, seq<Pending>>, height: int, env: Env)
    requires cfg.segmentSize > 0 && cfg.useConsensus && cfg.epochSize.Some? && cfg.firstEpochEnd.Some?
    requires ConfirmedIn(At(seen, st.blockHeight + 1)) == []
    ensures Heal(cfg, st, seen, height, env) == FillFrom(cfg, st, Earliest(seen, st.blockHeight + 2, height), env)
  {
    hide InOrder, FillFrom, Earliest;
  }

  lemma HealIsOff(cfg: Config, st: Project, seen: map<int, seq<Pending>>, height: int, env: Env)
    requires cfg.segmentSize > 0 && ConfirmedIn(At(seen, st.blockHeight + 1)) == []
    ensures !cfg.useConsensus || cfg.epochSize.None? || cfg.firstEpochEnd.None? ==>
              Heal(cfg, st, seen, height, env) == st
  {
    hide InOrder, FillFrom, Earliest, ConfirmedIn, At;
  }

  lemma HealedFrame(cfg: Config, lo: int, before: Project, st: Project, z: map<int, seq<Pending>>, st': Project,
                    earliest: int, env: Env)
    requires cfg.segmentSize > 0 && cfg.epochSize.Some? && cfg.firstEpochEnd.Some?
    requires SameChain(before, st) && SameConfirmed(z, st.pending) && before.discarded == st.discarded
    requires before.payloadCids == st.payloadCids
    requires Healed(cfg, lo, st, st.pending, st', earliest, env)
    ensures Healed(cfg, lo, before, z, st', earliest, env)
  {
    forall k | earliest <= k <= st'.blockHeight ensures CarriesQueued(z, st'.lastDagCid.value, k) {
      assert CarriesQueued(st.pending, st'.lastDagCid.value, k);
    }
  }

  lemma HealStuckEntry(cfg: Config, st: Project, seen: map<int, seq<Pending>>, height: int, env: Env)
    requires cfg.segmentSize > 0
    ensures var stuck := ConfirmedIn(At(seen, st.blockHeight + 1));
            && (|stuck| == 1 ==>
                  Heal(cfg, st, seen, height, env) ==
                  InOrder(cfg, st, st.blockHeight + 1, stuck[0].txHash, stuck[0].event.snapshotCid,
                          stuck[0].event.timestamp, env.cut))
            && (|stuck| > 1 ==> Heal(cfg, st, seen, height, env) == st)
  {
    hide InOrder, FillFrom, Earliest, ConfirmedIn;
  }

  predicate ConsensusReady(cfg: Config) {
    cfg.useConsensus && cfg.epochSize.Some? && cfg.firstEpochEnd.Some?
  }

  /** Exactly when an early callback gets a chain going again: it is five or more heights ahead, and one
      confirmed entry was left at the next height by a death, or none was and consensus can be asked. Two
      confirmed entries at the next height, or none on a standalone system, leave it where it is. */
  lemma HealingMovesExactly(cfg: Config, lo: int, st: Project, cb: Callback, env: Env)
    requires cfg.segmentSize > 0 && Indexed(cfg, st, lo) && env.cut.NoCut?
    requires cb.height > st.blockHeight + 1
    requires Find(At(st.pending, cb.height), cb.requestID).Some?
    ensures var stuck := ConfirmedIn(At(st.pending, st.blockHeight + 1));
            Process(cfg, st, cb, env).blockHeight > st.blockHeight
            <==> cb.height >= st.blockHeight + 5 && (|stuck| == 1 || (|stuck| == 0 && ConsensusReady(cfg)))
  {
    hide Process, Heal, InOrder, SaveEvent, Resubmit, Healed, Find, ConfirmedIn, At, Indexed, IsRunEnd;
    var e := Find(At(st.pending, cb.height), cb.requestID).value;
    var saved := SaveEvent(st, e, cb);
    var resubmitted := Resubmit(saved, cb.height);
    var stuck := ConfirmedIn(At(st.pending, st.blockHeight + 1));
    Parked(st, e, cb);
    EarlyCallback(cfg, st, cb, env);
    assert At(saved.pending, st.blockHeight + 1) == At(st.pending, st.blockHeight + 1);
    HealStuckEntry(cfg, resubmitted, saved.pending, cb.height, env);
    if cb.height >= st.blockHeight + HEALING_THRESHOLD {
      if |stuck| == 1 {
        FrameIndexed(cfg, st, resubmitted, lo);
        InOrderMoves(cfg, resubmitted, lo, stuck[0].txHash, stuck[0].event.snapshotCid, stuck[0].event.timestamp);
      } else if |stuck| == 0 {
        if ConsensusReady(cfg) {
          var earliest := HealingMakesProgress(cfg, lo, st, cb, env);
          HealedMoves(cfg, lo, st, saved.pending, Process(cfg, st, cb, env), earliest, env);
        } else {
          HealIsOff(cfg, resubmitted, saved.pending, cb.height, env);
        }
      }
    }
  }

  /** What an early callback does when healing has nothing to ask for: it is parked, and stale entries are
      resubmitted. One confirmed entry left at the next height becomes its block first, with the entry's own
      transaction hash and what its callback said, and the confirmed run above it follows. */
  lemma ResumesExactly(cfg: Config, lo: int, st: Project, cb: Callback, env: Env)
    requires cfg.segmentSize > 0 && Indexed(cfg, st, lo) && env.cut.NoCut?
    requires cb.height > st.blockHeight + 1
    requires Find(At(st.pending, cb.height), cb.requestID).Some?
    ensures var stuck := ConfirmedIn(At(st.pending, st.blockHeight + 1));
            var saved := SaveEvent(st, Find(At(st.pending, cb.height), cb.requestID).value, cb);
            var resubmitted := Resubmit(saved, cb.height);
            var st' := Process(cfg, st, cb, env);
            && (cb.height >= st.blockHeight + 5 && |stuck| == 1 ==>
                  Finalized(cfg, lo, resubmitted, st', stuck[0].txHash, stuck[0].event.snapshotCid,
                            stuck[0].event.timestamp))
            && (cb.height < st.blockHeight + 5 || |stuck| > 1 || (|stuck| == 0 && !ConsensusReady(cfg)) ==>
                  st' == resubmitted)
  {
    hide Process, Heal, InOrder, SaveEvent, Resubmit, Finalized, Find, ConfirmedIn, At, Indexed, IsRunEnd;
    var e := Find(At(st.pending, cb.height), cb.requestID).value;
    var saved := SaveEvent(st, e, cb);
    var resubmitted := Resubmit(saved, cb.height);
    var stuck := ConfirmedIn(At(st.pending, st.blockHeight + 1));
    Parked(st, e, cb);
    EarlyCallback(cfg, st, cb, env);
    assert At(saved.pending, st.blockHeight + 1) == At(st.pending, st.blockHeight + 1);
    HealStuckEntry(cfg, resubmitted, saved.pending, cb.height, env);
    if cb.height >= st.blockHeight + 5 && |stuck| == 1 {
      FrameIndexed(cfg, st, resubmitted, lo);
      InOrderComplete(cfg, resubmitted, lo, stuck[0].txHash, stuck[0].event.snapshotCid, stuck[0].event.timestamp);
    } else if |stuck| == 0 && !ConsensusReady(cfg) {
      HealIsOff(cfg, resubmitted, saved.pending, cb.height, env);
    }
  }

  lemma InOrderMoves(cfg: Config, st: Project, lo: int, txHash: string, snapshotCid: string, timestamp: int)
    requires cfg.segmentSize > 0 && Indexed(cfg, st, lo)
    ensures InOrder(cfg, st, st.blockHeight + 1, txHash, snapshotCid, timestamp, NoCut).blockHeight > st.blockHeight
  {
    hide InOrder, Indexed;
    InOrderComplete(cfg, st, lo, txHash, snapshotCid, timestamp);
  }

  lemma HealedMoves(cfg: Config, lo: int, st: Project, z: map<int, seq<Pending>>, st': Project, earliest: int, env: Env)
    requires cfg.segmentSize > 0 && cfg.epochSize.Some? && cfg.firstEpochEnd.Some?
    requires Healed(cfg, lo, st, z, st', earliest, env)
    ensures st'.blockHeight > st.blockHeight
  {
    hide Indexed;
  }

  // --- rejected callbacks ------------------------------------------------------

  /** A callback is recorded as discarded exactly when its height is finalized already or no entry of
      its request waits there. Such a callback leaves the chain alone; a late one clears the queue at its own
      height and nowhere else, an unknown one leaves all of it. An accepted callback discards nothing. */
  lemma RejectedExactly(cfg: Config, lo: int, st: Project, cb: Callback, env: Env)
    requires cfg.segmentSize > 0 && Indexed(cfg, st, lo) && env.cut.NoCut?
    ensures var st' := Process(cfg, st, cb, env);
            if cb.height <= st.blockHeight || Find(At(st.pending, cb.height), cb.requestID).None? then
              && SameChain(st, st') && st'.segments == st.segments && st'.payloadCids == st.payloadCids
              && st'.discarded == st.discarded[cb.requestID := cb.height]
              && (if cb.height > st.blockHeight then st'.pending == st.pending
                  else At(st'.pending, cb.height) == [] &&
                       forall k | k != cb.height :: At(st'.pending, k) == At(st.pending, k))
            else st'.discarded == st.discarded
  {
    hide Process, Heal, InOrder, SaveEvent, Resubmit, Healed, Find, Indexed, ConfirmedIn;
    OtherCallback(cfg, st, cb, env);
    if cb.height > st.blockHeight && Find(At(st.pending, cb.height), cb.requestID).Some? {
      if cb.height == st.blockHeight + 1 {
        InOrderComplete(cfg, st, lo, cb.txHash, cb.snapshotCid, cb.timestamp);
      } else {
        EarlyDiscardsNothing(cfg, lo, st, cb, env);
      }
    }
  }

  lemma EarlyDiscardsNothing(cfg: Config, lo: int, st: Project, cb: Callback, env: Env)
    requires cfg.segmentSize > 0 && Indexed(cfg, st, lo) && env.cut.NoCut?
    requires cb.height > st.blockHeight + 1 && Find(At(st.pending, cb.height), cb.requestID).Some?
    ensures Process(cfg, st, cb, env).discarded == st.discarded
  {
    hide Process, Heal, InOrder, SaveEvent, Resubmit, Healed, Find, Indexed, ConfirmedIn, At;
    var saved := SaveEvent(st, Find(At(st.pending, cb.height), cb.requestID).value, cb);
    var resubmitted := Resubmit(saved, cb.height);
    var stuck := ConfirmedIn(At(saved.pending, st.blockHeight + 1));
    Parked(st, Find(At(st.pending, cb.height), cb.requestID).value, cb);
    EarlyCallback(cfg, st, cb, env);
    assert At(saved.pending, st.blockHeight + 1) == At(st.pending, st.blockHeight + 1);
    if cb.height >= st.blockHeight + HEALING_THRESHOLD && stuck == [] && ConsensusReady(cfg) {
      var earliest := HealingMakesProgress(cfg, lo, st, cb, env);
      HealedDiscardsNothing(cfg, lo, st, cb, Process(cfg, st, cb, env), earliest, env);
    } else if cb.height >= st.blockHeight + HEALING_THRESHOLD && |stuck| == 1 {
      FrameIndexed(cfg, st, resubmitted, lo);
      InOrderComplete(cfg, resubmitted, lo, stuck[0].txHash, stuck[0].event.snapshotCid, stuck[0].event.timestamp);
      HealStuckEntry(cfg, resubmitted, saved.pending, cb.height, env);
    } else {
      HealStuckEntry(cfg, resubmitted, saved.pending, cb.height, env);
      if stuck == [] {
        HealIsOff(cfg, resubmitted, saved.pending, cb.height, env);
      }
    }
  }

  lemma HealedDiscardsNothing(cfg: Config, lo: int, st: Project, cb: Callback, st': Project, earliest: int, env: Env)
    requires cfg.segmentSize > 0 && cfg.epochSize.Some? && cfg.firstEpochEnd.Some?
    requires exists z :: Healed(cfg, lo, st, z, st', earliest, env)
    ensures st'.discarded == st.discarded
  {
    hide Indexed;
  }

  // --- resubmissions -------------------------------------------------------------

  /** A resubmission pass marks, per height that is ten or more below the callback, the last entry
      nobody has confirmed or marked yet, and touches nothing else; what it marks is not marked again. */
  lemma ResubmittedOnce(st: Project, height: int, k: int, p: Pending)
    requires height > 0
    ensures var before, after := At(st.pending, k), At(Resubmit(st, height).pending, k);
            var due := LastFresh(before);
            if st.blockHeight < k && k + 10 <= height && due.Some? && due.value.hasData then
              && (p in after <==> (p in before && p != due.value) || p == due.value.(lastTouched := height))
              && due.value !in after
            else after == before
  {
    hide Insert, Without, LastFresh;
  }

  // --- the payload index of filled heights --------------------------------------

  lemma {:induction false} DroppedExactly(env: Env, z: map<string, int>, lo: int, hi: int, c: string)
    ensures var z' := DropUnreached(env, z, lo, hi);
            && (c in z' <==> c in z && (lo <= z[c] < hi ==> Reached(env, z[c])))
            && (c in z' ==> z'[c] == z[c])
    decreases hi - lo
  {
    if lo < hi {
      DroppedExactly(env, z, lo, hi - 1, c);
    }
  }

  /** A member that is the CID of some filled height. */
  predicate IsFill(cfg: Config, env: Env, lo: int, hi: int, c: string)
    requires cfg.epochSize.Some? && cfg.firstEpochEnd.Some?
  {
    exists k :: lo <= k < hi && FillCid(cfg, env, k) == c
  }

  lemma {:induction false} AddedExactly(cfg: Config, env: Env, z: map<string, int>, lo: int, hi: int, c: string)
    requires cfg.epochSize.Some? && cfg.firstEpochEnd.Some?
    ensures var z' := AddFills(cfg, env, z, lo, hi);
            if IsFill(cfg, env, lo, hi, c) then
              && c in z' && lo <= z'[c] < hi && FillCid(cfg, env, z'[c]) == c
              && forall k | z'[c] < k < hi :: FillCid(cfg, env, k) != c
            else (c in z' <==> c in z) && (c in z' ==> z'[c] == z[c])
    decreases hi - lo
  {
    hide FillCid;
    if lo < hi {
      AddedExactly(cfg, env, z, lo, hi - 1, c);
      if c == FillCid(cfg, env, hi - 1) {
        assert IsFill(cfg, env, lo, hi, c);
      } else {
        IsFillBelow(cfg, env, lo, hi, c);
      }
    }
  }

  lemma IsFillBelow(cfg: Config, env: Env, lo: int, hi: int, c: string)
    requires cfg.epochSize.Some? && cfg.firstEpochEnd.Some? && lo < hi && c != FillCid(cfg, env, hi - 1)
    ensures IsFill(cfg, env, lo, hi, c) <==> IsFill(cfg, env, lo, hi - 1, c)
  {
    hide FillCid;
    if IsFill(cfg, env, lo, hi, c) {
      var k :| lo <= k < hi && FillCid(cfg, env, k) == c;
      assert k < hi - 1;
    }
  }

  /** Exactly what the payload index holds after a fill: a member that is the CID of a filled height has
      moved to the last such height; any other member is where it was, except that those at filled
      heights without consensus are gone. So a member recorded earlier for a filled height with
      consensus stays next to the consensus CID, and a consensus CID recorded for any other height
      leaves that height. */
  lemma FillIndexExactly(cfg: Config, st: Project, env: Env, lo: int, hi: int, c: string)
    requires cfg.epochSize.Some? && cfg.firstEpochEnd.Some?
    ensures var z, z' := st.payloadCids, Fill(cfg, st, env, lo, hi).payloadCids;
            if IsFill(cfg, env, lo, hi, c) then
              && c in z' && lo <= z'[c] < hi && FillCid(cfg, env, z'[c]) == c
              && forall k | z'[c] < k < hi :: FillCid(cfg, env, k) != c
            else
              && (c in z' <==> c in z && (lo <= z[c] < hi ==> Reached(env, z[c])))
              && (c in z' ==> z'[c] == z[c])
  {
    hide DropUnreached, AddFills, AddFillEntries, FillCid;
    DroppedExactly(env, st.payloadCids, lo, hi, c);
    AddedExactly(cfg, env, DropUnreached(env, st.payloadCids, lo, hi), lo, hi, c);
  }

  /** After a fill, a height without consensus has no payloadCids entry other than its null marker. */
  lemma UnreachedHeightsAreNull(cfg: Config, st: Project, env: Env, lo: int, hi: int, c: string)
    requires cfg.epochSize.Some? && cfg.firstEpochEnd.Some?
    ensures var z := Fill(cfg, st, env, lo, hi).payloadCids;
            c in z && lo <= z[c] < hi && !Reached(env, z[c]) ==> c == FillCid(cfg, env, z[c]) && IsNull(c)
  {
    hide Fill;
    FillIndexExactly(cfg, st, env, lo, hi, c);
    var z := Fill(cfg, st, env, lo, hi).payloadCids;
    if c in z && lo <= z[c] < hi && !Reached(env, z[c]) {
      var s := FillCid(cfg, env, z[c]);
      assert s[..4] == "null";
    }
  }

  // --- fault-free runs never strand an entry ------------------------------------

  predicate FaultFree(ev: Event) {
    match ev
    case Deliver(_, env) => env.cut.NoCut?
    case Submitted(_, e) => !Confirmed(e)
    case Resubmitted(_, e) => !Confirmed(e)
    case Recorded(_, _) => true
    case Interrupted(_, _, _) => false
  }

  lemma DeliveryStrandsNothing(cfg: Config, lo: int, st: Project, cb: Callback, env: Env)
    requires cfg.segmentSize > 0 && Indexed(cfg, st, lo) && NotStranded(st) && env.cut.NoCut?
    ensures NotStranded(Process(cfg, st, cb, env))
  {
    hide Process, InOrder, Find, Indexed, ConfirmedIn;
    OtherCallback(cfg, st, cb, env);
    if cb.height > st.blockHeight && Find(At(st.pending, cb.height), cb.requestID).Some? {
      if cb.height == st.blockHeight + 1 {
        InOrderStrandsNothing(cfg, lo, st, cb.txHash, cb.snapshotCid, cb.timestamp);
      } else {
        EarlyStrandsNothing(cfg, lo, st, cb, env);
      }
    }
  }

  lemma EarlyStrandsNothing(cfg: Config, lo: int, st: Project, cb: Callback, env: Env)
    requires cfg.segmentSize > 0 && Indexed(cfg, st, lo) && NotStranded(st) && env.cut.NoCut?
    requires cb.height > st.blockHeight + 1 && Find(At(st.pending, cb.height), cb.requestID).Some?
    ensures NotStranded(Process(cfg, st, cb, env))
  {
    hide Process, Heal, SaveEvent, Resubmit, Healed, Find, Indexed, ConfirmedIn, At;
    if cb.height >= st.blockHeight + HEALING_THRESHOLD
       && cfg.useConsensus && cfg.epochSize.Some? && cfg.firstEpochEnd.Some? {
      var _ := HealingMakesProgress(cfg, lo, st, cb, env);
    } else {
      var e := Find(At(st.pending, cb.height), cb.requestID).value;
      var saved := SaveEvent(st, e, cb);
      Parked(st, e, cb);
      EarlyCallback(cfg, st, cb, env);
      assert At(saved.pending, st.blockHeight + 1) == At(st.pending, st.blockHeight + 1);
      HealIsOff(cfg, Resubmit(saved, cb.height), saved.pending, cb.height, env);
    }
  }

  lemma InOrderStrandsNothing(cfg: Config, lo: int, st: Project, txHash: string, snapshotCid: string, timestamp: int)
    requires cfg.segmentSize > 0 && Indexed(cfg, st, lo)
    ensures NotStranded(InOrder(cfg, st, st.blockHeight + 1, txHash, snapshotCid, timestamp, NoCut))
  {
    hide InOrder, ConfirmedIn, Indexed;
    InOrderComplete(cfg, st, lo, txHash, snapshotCid, timestamp);
    var st' := InOrder(cfg, st, st.blockHeight + 1, txHash, snapshotCid, timestamp, NoCut);
    assert At(st'.pending, st'.blockHeight + 1) == At(st.pending, st'.blockHeight + 1);
  }

  lemma StepStrandsNothing(cfg: Config, lo: int, st: Project, ev: Event)
    requires cfg.segmentSize > 0 && Indexed(cfg, st, lo) && NotStranded(st) && FaultFree(ev)
    ensures NotStranded(Step(cfg, st, ev))
  {
    hide Process, ZAdd, ConfirmedIn, Indexed;
    match ev {
      case Deliver(cb, env) => DeliveryStrandsNothing(cfg, lo, st, cb, env);
      case Submitted(h, e) => AddedUnconfirmed(st.pending, h, e);
      case Resubmitted(h, e) =>
        AddedUnconfirmed(st.pending - {h}, h, e);
        NoneConfirmed();
      case Recorded(_, _) =>
    }
  }

  lemma AddedUnconfirmed(z: map<int, seq<Pending>>, h: int, e: Pending)
    requires !Confirmed(e)
    ensures SameConfirmed(z, ZAdd(z, h, e))
  {
    hide Insert;
    ConfirmedInsert(At(z, h), e);
  }

  lemma {:induction false} EveryFaultFreeRunStrandsNothing(cfg: Config, events: seq<Event>)
    requires cfg.segmentSize > 0
    requires forall ev | ev in events :: FaultFree(ev)
    ensures NotStranded(Run(cfg, EMPTY, events))
    decreases |events|
  {
    if events != [] {
      var prefix := events[..|events| - 1];
      EveryFaultFreeRunStrandsNothing(cfg, prefix);
      EveryRunIsIndexed(cfg, prefix);
      StepStrandsNothing(cfg, 0, Run(cfg, EMPTY, prefix), events[|events| - 1]);
    }
  }
}
