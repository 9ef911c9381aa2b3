/** A death between the key writes of one block: why it is never repaired. */
module TornWrites {
  import opened Wrappers
  import opened Store
  import opened Finalizer
  import opened ChainInvariant
  import opened Sets

  /** The finalized height h was never indexed; blocks above it do not lead back to a first block. */
  ghost predicate Lost(cfg: Config, st: Project, h: int)
    requires cfg.segmentSize > 0
  {
    && 1 <= h <= st.blockHeight
    && At(st.cids, h) == []
    && (forall k | k > st.blockHeight :: At(st.cids, k) == [])
    && (h < st.blockHeight ==>
          st.lastDagCid.Some? && GetDagCid(st, st.blockHeight) == st.lastDagCid
              && !WellLinked(cfg, st.lastDagCid.value))
  }

  lemma LostIsUnsound(cfg: Config, st: Project, h: int, lo: int)
    requires cfg.segmentSize > 0 && Lost(cfg, st, h)
    ensures !Indexed(cfg, st, lo)
  {
    hide WellLinked, Ancestor;
    assert Indexed(cfg, st, lo) && st.blockHeight == h ==> At(st.cids, h) != [];
  }

  lemma LostFrame(cfg: Config, st: Project, st': Project, h: int)
    requires cfg.segmentSize > 0 && Lost(cfg, st, h) && SameChain(st, st')
    ensures Lost(cfg, st', h)
  {
  }

  lemma OrphanIsNotLinked(cfg: Config, st: Project, h: int, txHash: string, snapshotCid: string, timestamp: int)
    requires cfg.segmentSize > 0 && Lost(cfg, st, h)
    ensures var next := st.blockHeight + 1;
            !WellLinked(cfg, BlockOn(cfg, GetDagCid(st, next - 1), next, txHash, snapshotCid, timestamp))
  {
    hide DataOf;
  }

  lemma LostBlock(cfg: Config, st: Project, h: int, txHash: string, snapshotCid: string, timestamp: int)
    requires cfg.segmentSize > 0 && Lost(cfg, st, h) && !Raises(cfg, st, st.blockHeight + 1)
    ensures Lost(cfg, IndexBlock(cfg, st, st.blockHeight + 1, txHash, snapshotCid, timestamp), h)
    ensures Lost(cfg, CreateBlock(cfg, st, st.blockHeight + 1, txHash, snapshotCid, timestamp), h)
    ensures Lost(cfg, WithSegment(cfg, st, st.blockHeight + 1), h)
  {
    hide WellLinked, Boundary, IdentifyPruneTarget, BlockOn;
    var next := st.blockHeight + 1;
    var c := BlockOn(cfg, GetDagCid(st, next - 1), next, txHash, snapshotCid, timestamp);
    assert At(st.cids, next) == [];
    OrphanIsNotLinked(cfg, st, h, txHash, snapshotCid, timestamp);
    WithSegmentFrame(cfg, st, next);
    var st' := IndexBlock(cfg, st, next, txHash, snapshotCid, timestamp);
    forall k ensures At(st'.cids, k) == if k == next then [c] else At(st.cids, k) {
    }
  }

  lemma {:induction false} InOrderKeepsLost(cfg: Config, st: Project, h: int, txHash: string, snapshotCid: string,
                                            timestamp: int, cut: Cut)
    requires cfg.segmentSize > 0 && Lost(cfg, st, h)
    ensures Lost(cfg, InOrder(cfg, st, st.blockHeight + 1, txHash, snapshotCid, timestamp, cut), h)
    decreases |st.pending - {st.blockHeight + 1}|, 1
  {
    hide Drain, Lost, CreateBlock, IndexBlock, WithSegment;
    if !Raises(cfg, st, st.blockHeight + 1) {
      LostBlock(cfg, st, h, txHash, snapshotCid, timestamp);
      if cut.NoCut? || cut.blocks > 0 {
        DrainKeepsLost(cfg, CreateBlock(cfg, st, st.blockHeight + 1, txHash, snapshotCid, timestamp), h, OneLess(cut));
      }
    }
  }

  lemma {:induction false} DrainKeepsLost(cfg: Config, st: Project, h: int, cut: Cut)
    requires cfg.segmentSize > 0 && Lost(cfg, st, h)
    ensures Lost(cfg, Drain(cfg, st, cut), h)
    decreases |st.pending|, 0
  {
    hide Lost, InOrder;
    var next := st.blockHeight + 1;
    var queued := ConfirmedIn(At(st.pending, next));
    if queued != [] {
      assert queued[0] in At(st.pending, next);
      SmallerWithout(st.pending, next);
      InOrderKeepsLost(cfg, st, h, queued[0].event.txHash, queued[0].event.snapshotCid, queued[0].event.timestamp, cut);
    }
  }

  lemma HealKeepsLost(cfg: Config, st: Project, h: int, seen: map<int, seq<Pending>>, height: int, env: Env)
    requires cfg.segmentSize > 0 && Lost(cfg, st, h)
    ensures Lost(cfg, Heal(cfg, st, seen, height, env), h)
  {
    hide Lost, InOrder, Earliest, FillCid, AddFillEntries, AddFills, DropUnreached;
    var next := st.blockHeight + 1;
    var stuck := ConfirmedIn(At(seen, next));
    if |stuck| == 1 {
      InOrderKeepsLost(cfg, st, h, stuck[0].txHash, stuck[0].event.snapshotCid, stuck[0].event.timestamp, env.cut);
    } else if |stuck| == 0 && cfg.useConsensus && cfg.epochSize.Some? && cfg.firstEpochEnd.Some? {
      var filled := Fill(cfg, st, env, next, Earliest(seen, next + 1, height));
      LostFrame(cfg, st, filled, h);
      InOrderKeepsLost(cfg, filled, h, cfg.dummyTxHash, FillCid(cfg, env, next), env.now, env.cut);
    }
  }

  lemma StepKeepsLost(cfg: Config, st: Project, h: int, ev: Event)
    requires cfg.segmentSize > 0 && Lost(cfg, st, h)
    ensures Lost(cfg, Step(cfg, st, ev), h)
  {
    hide Lost, Process, ZAdd;
    if ev.Deliver? {
      ProcessKeepsLost(cfg, st, h, ev.cb, ev.env);
    } else {
      LostFrame(cfg, st, Step(cfg, st, ev), h);
    }
  }

  lemma ProcessKeepsLost(cfg: Config, st: Project, h: int, cb: Callback, env: Env)
    requires cfg.segmentSize > 0 && Lost(cfg, st, h)
    ensures Lost(cfg, Process(cfg, st, cb, env), h)
  {
    hide Lost, InOrder, Heal, ZAdd, ZRem, TouchedIn;
    var found := Find(At(st.pending, cb.height), cb.requestID);
    LostFrame(cfg, st, DiscardLate(st, cb), h);
    LostFrame(cfg, st, Discard(st, cb), h);
    if cb.height > st.blockHeight && found.Some? {
      if cb.height == st.blockHeight + 1 {
        InOrderKeepsLost(cfg, st, h, cb.txHash, cb.snapshotCid, cb.timestamp, env.cut);
      } else {
        var saved := SaveEvent(st, found.value, cb);
        LostFrame(cfg, st, Resubmit(saved, cb.height), h);
        HealKeepsLost(cfg, Resubmit(saved, cb.height), h, saved.pending, cb.height, env);
      }
    }
  }

  lemma {:induction false} RunKeepsLost(cfg: Config, st: Project, h: int, events: seq<Event>)
    requires cfg.segmentSize > 0 && Lost(cfg, st, h)
    ensures Lost(cfg, Run(cfg, st, events), h)
    decreases |events|
  {
    hide Lost, Step;
    if events != [] {
      RunKeepsLost(cfg, st, h, events[..|events| - 1]);
      StepKeepsLost(cfg, Run(cfg, st, events[..|events| - 1]), h, events[|events| - 1]);
    }
  }

  lemma {:induction false} RunKeepsIndex(cfg: Config, st: Project, lo: int, events: seq<Event>)
    requires cfg.segmentSize > 0 && Indexed(cfg, st, lo)
    ensures Indexed(cfg, Run(cfg, st, events), lo)
    decreases |events|
  {
    hide Indexed, Step, Extends;
    if events != [] {
      RunKeepsIndex(cfg, st, lo, events[..|events| - 1]);
      StepKeepsIndex(cfg, Run(cfg, st, events[..|events| - 1]), lo, events[|events| - 1]);
    }
  }

  /** The first `writes` of the three key writes of create_dag_block. */
  function PartialWrite(st: Project, h: nat, c: Cid, writes: nat): Project {
    if writes == 0 then st
    else if writes == 1 then st.(blockHeight := h)
    else if writes == 2 then st.(blockHeight := h, lastDagCid := Some(c))
    else WriteBlock(st, h, c)
  }

  lemma TornIsLost(cfg: Config, st: Project, lo: int, writes: nat, c: Cid)
    requires cfg.segmentSize > 0 && Indexed(cfg, st, lo) && writes in {1, 2}
    ensures Lost(cfg, PartialWrite(st, st.blockHeight + 1, c, writes), st.blockHeight + 1)
  {
    hide WellLinked, Ancestor;
    assert forall k | k > st.blockHeight :: At(st.cids, k) == [];
  }

  /** A process that dies between the key writes of a block damages the project for good: after any
      further run, with deliveries, healing, resubmissions and deaths, the index is sound, for some pruning
      height, exactly when none or all of the three writes had happened. */
  lemma TornWriteIsForever(cfg: Config, st: Project, lo: int, writes: nat, txHash: string, snapshotCid: string,
                           timestamp: int, events: seq<Event>)
    requires cfg.segmentSize > 0 && Indexed(cfg, st, lo)
    ensures var h := st.blockHeight + 1;
            var c := BlockOn(cfg, GetDagCid(st, h - 1), h, txHash, snapshotCid, timestamp);
            var later := Run(cfg, PartialWrite(st, h, c, writes), events);
            (exists l :: Indexed(cfg, later, l)) <==> (writes == 0 || writes >= 3)
  {
    hide Run, Indexed, Lost, PartialWrite, BlockOn;
    var h := st.blockHeight + 1;
    var c := BlockOn(cfg, GetDagCid(st, h - 1), h, txHash, snapshotCid, timestamp);
    var torn := PartialWrite(st, h, c, writes);
    var later := Run(cfg, torn, events);
    if writes == 0 || writes >= 3 {
      WholeIsIndexed(cfg, st, lo, writes, txHash, snapshotCid, timestamp);
      RunKeepsIndex(cfg, torn, lo, events);
    } else {
      TornIsLost(cfg, st, lo, writes, c);
      RunKeepsLost(cfg, torn, h, events);
      forall l ensures !Indexed(cfg, later, l) {
        LostIsUnsound(cfg, later, h, l);
      }
    }
  }

  lemma WholeIsIndexed(cfg: Config, st: Project, lo: int, writes: nat, txHash: string, snapshotCid: string,
                       timestamp: int)
    requires cfg.segmentSize > 0 && Indexed(cfg, st, lo) && (writes == 0 || writes >= 3)
    ensures var h := st.blockHeight + 1;
            Indexed(cfg, PartialWrite(st, h, BlockOn(cfg, GetDagCid(st, h - 1), h, txHash, snapshotCid, timestamp),
                                      writes), lo)
  {
    hide WellLinked, Ancestor;
    IndexBlockKeepsIndex(cfg, st, lo, txHash, snapshotCid, timestamp);
  }

  // --- runs in which such deaths are steps -----------------------------------------------

  /** A step of a run: any event, or a delivery that dies after some of the key writes of its next block. */
  datatype Happening =
    | Whole(ev: Event)
    | Torn(writes: nat, txHash: string, snapshotCid: string, timestamp: int)

  ghost function Happen(cfg: Config, st: Project, h: Happening): Project
    requires cfg.segmentSize > 0
  {
    match h
    case Whole(ev) => Step(cfg, st, ev)
    case Torn(writes, txHash, snapshotCid, timestamp) =>
      var next := st.blockHeight + 1;
      if Raises(cfg, st, next) then st
      else
        PartialWrite(st, next, BlockOn(cfg, GetDagCid(st, next - 1), next, txHash, snapshotCid, timestamp), writes)
  }

  ghost function RunTorn(cfg: Config, hs: seq<Happening>): Project
    requires cfg.segmentSize > 0
    decreases |hs|
  {
    if hs == [] then EMPTY else Happen(cfg, RunTorn(cfg, hs[..|hs| - 1]), hs[|hs| - 1])
  }

  /** The process dies after the first or the second of the three key writes. */
  predicate Breaks(cfg: Config, st: Project, h: Happening)
    requires cfg.segmentSize > 0
  {
    h.Torn? && 1 <= h.writes <= 2 && !Raises(cfg, st, st.blockHeight + 1)
  }

  lemma HappenKeepsIndex(cfg: Config, st: Project, h: Happening)
    requires cfg.segmentSize > 0 && Indexed(cfg, st, 0) && !Breaks(cfg, st, h)
    ensures Indexed(cfg, Happen(cfg, st, h), 0)
  {
    hide Indexed, Step, PartialWrite, BlockOn, Extends;
    match h {
      case Whole(ev) => StepKeepsIndex(cfg, st, 0, ev);
      case Torn(writes, txHash, snapshotCid, timestamp) =>
        ParentOfNext(cfg, st, 0);
        WholeIsIndexed(cfg, st, 0, writes, txHash, snapshotCid, timestamp);
    }
  }

  ghost predicate Broken(cfg: Config, st: Project)
    requires cfg.segmentSize > 0
  {
    exists h :: Lost(cfg, st, h)
  }

  lemma BreakingLoses(cfg: Config, st: Project, h: Happening)
    requires cfg.segmentSize > 0 && Indexed(cfg, st, 0) && Breaks(cfg, st, h)
    ensures Broken(cfg, Happen(cfg, st, h))
  {
    hide Indexed, Lost, PartialWrite, BlockOn;
    var c := BlockOn(cfg, GetDagCid(st, st.blockHeight), st.blockHeight + 1, h.txHash, h.snapshotCid, h.timestamp);
    TornIsLost(cfg, st, 0, h.writes, c);
  }

  lemma HappenKeepsBroken(cfg: Config, st: Project, h: Happening)
    requires cfg.segmentSize > 0 && Broken(cfg, st)
    ensures Broken(cfg, Happen(cfg, st, h))
  {
    hide Lost, Step, PartialWrite, BlockOn;
    var k :| Lost(cfg, st, k);
    match h {
      case Whole(ev) => StepKeepsLost(cfg, st, k, ev);
      case Torn(writes, txHash, snapshotCid, timestamp) =>
        if !Raises(cfg, st, st.blockHeight + 1) {
          TornKeepsBroken(cfg, st, k, writes, txHash, snapshotCid, timestamp);
        }
    }
  }

  lemma TornKeepsBroken(cfg: Config, st: Project, k: int, writes: nat, txHash: string, snapshotCid: string,
                        timestamp: int)
    requires cfg.segmentSize > 0 && Lost(cfg, st, k) && !Raises(cfg, st, st.blockHeight + 1)
    ensures var next := st.blockHeight + 1;
            Broken(cfg, PartialWrite(st, next, BlockOn(cfg, GetDagCid(st, next - 1), next, txHash, snapshotCid,
                                                       timestamp), writes))
  {
    hide WellLinked, BlockOn, Boundary, IdentifyPruneTarget;
    var next := st.blockHeight + 1;
    var c := BlockOn(cfg, GetDagCid(st, next - 1), next, txHash, snapshotCid, timestamp);
    var st' := PartialWrite(st, next, c, writes);
    if writes == 0 {
      assert Lost(cfg, st', k);
    } else if writes <= 2 {
      assert At(st'.cids, next) == [];
      assert Lost(cfg, st', next);
    } else {
      LostBlock(cfg, st, k, txHash, snapshotCid, timestamp);
      WithSegmentFrame(cfg, st, next);
      LostFrame(cfg, IndexBlock(cfg, st, next, txHash, snapshotCid, timestamp), st', k);
    }
  }

  /** In every state of every run, with deaths anywhere: the index is sound, for some pruning height, exactly
      when no process has died between the key writes of a block. */
  lemma {:induction false} EveryRunIsIndexedExactly(cfg: Config, hs: seq<Happening>)
    requires cfg.segmentSize > 0
    ensures (exists l :: Indexed(cfg, RunTorn(cfg, hs), l)) <==>
            forall i | 0 <= i < |hs| :: !Breaks(cfg, RunTorn(cfg, hs[..i]), hs[i])
  {
    hide Indexed, Broken, Breaks, RunTorn;
    SoundOrBroken(cfg, hs);
    var st := RunTorn(cfg, hs);
    if forall i | 0 <= i < |hs| :: !Breaks(cfg, RunTorn(cfg, hs[..i]), hs[i]) {
      assert Indexed(cfg, st, 0);
    } else {
      BrokenIsUnsound(cfg, st);
    }
  }

  lemma BrokenIsUnsound(cfg: Config, st: Project)
    requires cfg.segmentSize > 0 && Broken(cfg, st)
    ensures forall l :: !Indexed(cfg, st, l)
  {
    hide Lost, Indexed;
    var h :| Lost(cfg, st, h);
    forall l ensures !Indexed(cfg, st, l) {
      LostIsUnsound(cfg, st, h, l);
    }
  }

  lemma {:induction false} SoundOrBroken(cfg: Config, hs: seq<Happening>)
    requires cfg.segmentSize > 0
    ensures if forall i | 0 <= i < |hs| :: !Breaks(cfg, RunTorn(cfg, hs[..i]), hs[i])
            then Indexed(cfg, RunTorn(cfg, hs), 0) else Broken(cfg, RunTorn(cfg, hs))
    decreases |hs|
  {
    hide Indexed, Broken, Breaks, Happen;
    if hs == [] {
      EveryRunIsIndexed(cfg, []);
    } else {
      var n := |hs| - 1;
      var prefix, st := hs[..n], RunTorn(cfg, hs[..n]);
      SoundOrBroken(cfg, prefix);
      forall i | 0 <= i < n ensures prefix[..i] == hs[..i] && prefix[i] == hs[i] {
      }
      if exists i :: 0 <= i < n && Breaks(cfg, RunTorn(cfg, hs[..i]), hs[i]) {
        var i :| 0 <= i < n && Breaks(cfg, RunTorn(cfg, hs[..i]), hs[i]);
        assert Breaks(cfg, RunTorn(cfg, prefix[..i]), prefix[i]);
        HappenKeepsBroken(cfg, st, hs[n]);
      } else {
        forall i | 0 <= i < n ensures !Breaks(cfg, RunTorn(cfg, prefix[..i]), prefix[i]) {
          assert !Breaks(cfg, RunTorn(cfg, hs[..i]), hs[i]);
        }
        if Breaks(cfg, st, hs[n]) {
          BreakingLoses(cfg, st, hs[n]);
        } else {
          HappenKeepsIndex(cfg, st, hs[n]);
        }
      }
    }
  }
}
