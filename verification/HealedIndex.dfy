/** What healing leaves for the verifier: exactly when its index reads describe the healed chain, and
    what a verification cycle then reports. */
module HealedIndex {
  import opened Wrappers
  import opened Store
  import opened Finalizer
  import opened ChainInvariant
  import opened Queue
  import opened Healing
  import opened PayloadMerge
  import opened GapScan
  import opened NullGaps
  import opened PayloadIndex
  import E = Epochs
  import C = Confluence
  import W = WitnessRuns

  /** The payload index without the CIDs of the filled heights. */
  ghost function Others(cfg: Config, env: Env, z: map<string, int>, lo: int, hi: int): map<string, int>
    requires cfg.epochSize.Some? && cfg.firstEpochEnd.Some?
  {
    map c | c in z && !IsFill(cfg, env, lo, hi, c) :: z[c]
  }

  /** No later filled height has the same CID. */
  predicate Lasting(cfg: Config, env: Env, k: int, hi: int)
    requires cfg.epochSize.Some? && cfg.firstEpochEnd.Some?
  {
    forall j | k < j < hi :: FillCid(cfg, env, j) != FillCid(cfg, env, k)
  }

  /** What sits at a height of the payload index after a fill. */
  lemma SitsAfterFill(cfg: Config, st: Project, env: Env, lo: int, hi: int, c: string, h: int)
    requires cfg.epochSize.Some? && cfg.firstEpochEnd.Some?
    ensures var z', others := Fill(cfg, st, env, lo, hi).payloadCids, Others(cfg, env, st.payloadCids, lo, hi);
            Sits(z', c, h) <==>
            if lo <= h < hi then (c == FillCid(cfg, env, h) && Lasting(cfg, env, h, hi))
                || (Reached(env, h) && Sits(others, c, h))
            else Sits(others, c, h)
  {
    hide Fill, FillCid;
    FillIndexExactly(cfg, st, env, lo, hi, c);
    if lo <= h < hi && c == FillCid(cfg, env, h) {
      assert IsFill(cfg, env, lo, hi, c);
    }
  }

  // --- the condition ------------------------------------------------------------------------

  /** A filled height gets the one member that stands for its block: its own CID lasts and, where
      consensus was reached, is a CID and finds nothing else there; or it does not last, and what else
      was recorded there happens to stand for it. */
  ghost predicate FillFits(cfg: Config, env: Env, ranges: Ranges, others: map<string, int>, k: int, hi: int)
    requires cfg.epochSize.Some? && cfg.firstEpochEnd.Some?
  {
    if Lasting(cfg, env, k, hi) then
      Reached(env, k) ==> env.replies[k].snapshotCid != "" && forall c :: !Sits(others, c, k)
    else
      Reached(env, k) && Fits(ranges, others, k, BlockWith(DataOf(env.replies[k].snapshotCid)))
  }

  /** The block due at a height outside the fill: the old chain's, or that of the first confirmed entry. */
  ghost function DueAt(st: Project, seen: map<int, seq<Pending>>, h: int): Slot {
    var queued := ConfirmedIn(At(seen, h));
    if h <= st.blockHeight || queued == [] then SlotAt(st, h) else BlockWith(DataOf(queued[0].event.snapshotCid))
  }

  /** The payload index before healing, the consensus answers and the queue are such that the index
      describes the chain afterwards: apart from the fill's CIDs it does so at the heights outside the
      fill, and the filled heights fit. So no consensus CID is one recorded for a height outside the
      fill, none is shared with a later filled height, and nothing else was recorded for a height
      with consensus. */
  ghost predicate HealingFits(cfg: Config, env: Env, ranges: Ranges, st: Project, seen: map<int, seq<Pending>>,
                              start: int, earliest: int, m: int)
    requires cfg.epochSize.Some? && cfg.firstEpochEnd.Some?
  {
    var others := Others(cfg, env, st.payloadCids, st.blockHeight + 1, earliest);
    forall h | start <= h <= m ::
      if st.blockHeight < h < earliest then FillFits(cfg, env, ranges, others, h, earliest)
      else Fits(ranges, others, h, DueAt(st, seen, h))
  }

  lemma LinkedData(c: Cid, snapshotCid: string)
    requires LinksPayload(c, snapshotCid)
    ensures c.block.data == DataOf(snapshotCid)
  {
  }

  /** The slots of a healed chain. */
  lemma HealedSlot(cfg: Config, lo: int, st: Project, seen: map<int, seq<Pending>>, st': Project, earliest: int,
                   env: Env, h: int)
    requires cfg.segmentSize > 0 && ConsensusReady(cfg) && Indexed(cfg, st, lo)
    requires Healed(cfg, lo, st, seen, st', earliest, env) && h <= st'.blockHeight
    ensures if st.blockHeight < h < earliest
            then SlotAt(st', h) == BlockWith(if Reached(env, h) then DataOf(env.replies[h].snapshotCid) else None)
            else SlotAt(st', h) == DueAt(st, seen, h)
  {
    hide WellLinked, LinksPayload, DataOf, Fill, ConfirmedIn;
    var head := st'.lastDagCid.value;
    assert At(st'.cids, h) == if lo < h <= st'.blockHeight then [Ancestor(head, h)] else [];
    if h <= st.blockHeight {
      assert At(st.cids, h) == if lo < h then [Ancestor(st.lastDagCid.value, h)] else [];
    } else if h < earliest {
      assert FilledFrom(cfg, env, Ancestor(head, h), h, st.blockHeight + 1);
      if Reached(env, h) {
        LinkedData(Ancestor(head, h), env.replies[h].snapshotCid);
      }
    } else {
      assert CarriesQueued(seen, head, h);
      LinkedData(Ancestor(head, h), ConfirmedIn(At(seen, h))[0].event.snapshotCid);
    }
  }

  lemma FilledFits(cfg: Config, st: Project, env: Env, ranges: Ranges, lo: int, hi: int, k: int, data: Option<string>)
    requires cfg.epochSize.Some? && cfg.firstEpochEnd.Some? && lo <= k < hi
    requires data == if Reached(env, k) then DataOf(env.replies[k].snapshotCid) else None
    requires data.Some? ==> data.value in ranges
    ensures var z', others := Fill(cfg, st, env, lo, hi).payloadCids, Others(cfg, env, st.payloadCids, lo, hi);
            Fits(ranges, z', k, BlockWith(data)) <==> FillFits(cfg, env, ranges, others, k, hi)
  {
    hide Fill, Others, IsFill, Lasting;
    var z', others := Fill(cfg, st, env, lo, hi).payloadCids, Others(cfg, env, st.payloadCids, lo, hi);
    var own := FillCid(cfg, env, k);
    forall c ensures Sits(z', c, k) <==>
                     (c == own && Lasting(cfg, env, k, hi)) || (Reached(env, k) && Sits(others, c, k))
    {
      SitsAfterFill(cfg, st, env, lo, hi, c, k);
    }
    OwnCid(cfg, env, ranges, k, data);
    hide FillCid, Names, DataOf, Sits, Fits;
    if Lasting(cfg, env, k, hi) {
      FitsWith(ranges, z', k, data, own);
      forall c | Reached(env, k) && Sits(others, c, k) ensures c != own && Sits(z', c, k) {
        NoFillAmongOthers(cfg, env, st.payloadCids, lo, hi, c, k);
      }
    } else if Reached(env, k) {
      SameSits(ranges, z', others, k, BlockWith(data));
    } else {
      NothingSits(ranges, z', k, data);
    }
  }

  lemma FitsWith(ranges: Ranges, z: map<string, int>, h: int, data: Option<string>, own: string)
    requires Sits(z, own, h)
    ensures Fits(ranges, z, h, BlockWith(data)) <==> Names(ranges, own, data) && forall c :: Sits(z, c, h) ==> c == own
  {
  }

  lemma SameSits(ranges: Ranges, z: map<string, int>, z': map<string, int>, h: int, slot: Slot)
    requires forall c :: Sits(z, c, h) <==> Sits(z', c, h)
    ensures Fits(ranges, z, h, slot) <==> Fits(ranges, z', h, slot)
  {
  }

  lemma NothingSits(ranges: Ranges, z: map<string, int>, h: int, data: Option<string>)
    requires forall c :: !Sits(z, c, h)
    ensures !Fits(ranges, z, h, BlockWith(data))
  {
    if Fits(ranges, z, h, BlockWith(data)) {
      SomeMember(ranges, z, h, BlockWith(data));
    }
  }

  lemma NoFillAmongOthers(cfg: Config, env: Env, z: map<string, int>, lo: int, hi: int, c: string, k: int)
    requires cfg.epochSize.Some? && cfg.firstEpochEnd.Some? && lo <= k < hi
    requires Sits(Others(cfg, env, z, lo, hi), c, k)
    ensures c != FillCid(cfg, env, k)
  {
    hide FillCid;
  }

  lemma OwnCid(cfg: Config, env: Env, ranges: Ranges, k: int, data: Option<string>)
    requires cfg.epochSize.Some? && cfg.firstEpochEnd.Some?
    requires data == if Reached(env, k) then DataOf(env.replies[k].snapshotCid) else None
    requires data.Some? ==> data.value in ranges
    ensures Names(ranges, FillCid(cfg, env, k), data) <==> (Reached(env, k) ==> env.replies[k].snapshotCid != "")
  {
    if !Reached(env, k) {
      var s := FillCid(cfg, env, k);
      assert s[..4] == "null";
    }
  }

  /** After healing the payload index describes the chain at every height exactly when that condition holds. */
  lemma HealedIndexFitsExactly(cfg: Config, lo: int, st: Project, seen: map<int, seq<Pending>>, st': Project,
                               earliest: int, env: Env, ranges: Ranges, start: int)
    requires cfg.segmentSize > 0 && ConsensusReady(cfg) && Indexed(cfg, st, lo)
    requires Healed(cfg, lo, st, seen, st', earliest, env)
    requires Fetchable(ranges, st', start, st'.blockHeight)
    ensures (forall h | start <= h <= st'.blockHeight :: Fits(ranges, st'.payloadCids, h, SlotAt(st', h))) <==>
            HealingFits(cfg, env, ranges, st, seen, start, earliest, st'.blockHeight)
  {
    hide Healed, Fits, FillFits, SlotAt, DueAt, Fetchable, Others;
    var others := Others(cfg, env, st.payloadCids, st.blockHeight + 1, earliest);
    forall h | start <= h <= st'.blockHeight
      ensures Fits(ranges, st'.payloadCids, h, SlotAt(st', h)) <==>
              if st.blockHeight < h < earliest then FillFits(cfg, env, ranges, others, h, earliest)
              else Fits(ranges, others, h, DueAt(st, seen, h))
    {
      FitsHere(cfg, lo, st, seen, st', earliest, env, ranges, start, h);
    }
  }

  lemma FitsHere(cfg: Config, lo: int, st: Project, seen: map<int, seq<Pending>>, st': Project, earliest: int,
                 env: Env, ranges: Ranges, start: int, h: int)
    requires cfg.segmentSize > 0 && ConsensusReady(cfg) && Indexed(cfg, st, lo)
    requires Healed(cfg, lo, st, seen, st', earliest, env)
    requires Fetchable(ranges, st', start, st'.blockHeight) && start <= h <= st'.blockHeight
    ensures var others := Others(cfg, env, st.payloadCids, st.blockHeight + 1, earliest);
            Fits(ranges, st'.payloadCids, h, SlotAt(st', h)) <==>
            if st.blockHeight < h < earliest then FillFits(cfg, env, ranges, others, h, earliest)
            else Fits(ranges, others, h, DueAt(st, seen, h))
  {
    hide SlotAt, DueAt, Fits, FillFits, Others, DataOf, Indexed, Fill;
    HealedSlot(cfg, lo, st, seen, st', earliest, env, h);
    if st.blockHeight < h < earliest {
      FilledFits(cfg, st, env, ranges, st.blockHeight + 1, earliest, h, SlotAt(st', h).data);
    } else {
      SameFits(cfg, st, env, ranges, st.blockHeight + 1, earliest, h, SlotAt(st', h));
    }
  }

  lemma SameFits(cfg: Config, st: Project, env: Env, ranges: Ranges, lo: int, hi: int, h: int, slot: Slot)
    requires cfg.epochSize.Some? && cfg.firstEpochEnd.Some? && !(lo <= h < hi)
    ensures var z', others := Fill(cfg, st, env, lo, hi).payloadCids, Others(cfg, env, st.payloadCids, lo, hi);
            Fits(ranges, z', h, slot) <==> Fits(ranges, others, h, slot)
  {
    hide Fill, Others, Sits, Fits;
    var z', others := Fill(cfg, st, env, lo, hi).payloadCids, Others(cfg, env, st.payloadCids, lo, hi);
    forall c ensures Sits(z', c, h) <==> Sits(others, c, h) {
      SitsAfterFill(cfg, st, env, lo, hi, c, h);
    }
    SameSits(ranges, z', others, h, slot);
  }

  lemma OneEachIndexed(cfg: Config, st: Project, lo: int, start: int)
    requires cfg.segmentSize > 0 && Indexed(cfg, st, lo)
    ensures OneEach(st, start, st.blockHeight)
  {
    hide WellLinked, Ancestor;
  }

  lemma HealedIsIndexed(cfg: Config, lo: int, st: Project, seen: map<int, seq<Pending>>, st': Project, earliest: int,
                        env: Env)
    requires cfg.segmentSize > 0 && ConsensusReady(cfg) && Healed(cfg, lo, st, seen, st', earliest, env)
    ensures Indexed(cfg, st', lo) && st.blockHeight + 1 < earliest <= st'.blockHeight
  {
    hide Indexed, Fill;
  }

  /** A healing callback leaves index reads that describe the chain exactly when the payload index, the
      consensus answers and the queue before it fit together. */
  lemma HealedReadsDescribeExactly(cfg: Config, lo: int, st: Project, cb: Callback, env: Env, text: Cid -> string,
                                   ranges: Ranges, start: int)
    returns (earliest: int)
    requires cfg.segmentSize > 0 && ConsensusReady(cfg) && Indexed(cfg, st, lo) && NotStranded(st) && env.cut.NoCut?
    requires cb.height >= st.blockHeight + HEALING_THRESHOLD
    requires Find(At(st.pending, cb.height), cb.requestID).Some?
    ensures var st' := Process(cfg, st, cb, env);
            var seen := SaveEvent(st, Find(At(st.pending, cb.height), cb.requestID).value, cb).pending;
            && Healed(cfg, lo, st, seen, st', earliest, env)
            && (Fetchable(ranges, st', start, st'.blockHeight) ==>
                  forall r | ReadsFrom(text, ranges, st', start, r) ::
                    Describes(r, ChainRead(ranges, st', start, st'.blockHeight)) <==>
                    HealingFits(cfg, env, ranges, st, seen, start, earliest, st'.blockHeight))
  {
    hide Process, Healed, SaveEvent, Fetchable, ReadsFrom, Describes, HealingFits, Fits, Indexed, Find, ConfirmedIn,
         SlotAt, ChainRead;
    var st' := Process(cfg, st, cb, env);
    var seen := SaveEvent(st, Find(At(st.pending, cb.height), cb.requestID).value, cb).pending;
    earliest := HealingMakesProgress(cfg, lo, st, cb, env);
    HealedIsIndexed(cfg, lo, st, seen, st', earliest, env);
    OneEachIndexed(cfg, st', lo, start);
    if Fetchable(ranges, st', start, st'.blockHeight) {
      HealedIndexFitsExactly(cfg, lo, st, seen, st', earliest, env, ranges, start);
      forall r | ReadsFrom(text, ranges, st', start, r)
        ensures Describes(r, ChainRead(ranges, st', start, st'.blockHeight)) <==>
                HealingFits(cfg, env, ranges, st, seen, start, earliest, st'.blockHeight)
      {
        DescribesExactly(text, ranges, st', start, r);
      }
    }
  }

  // --- what the verifier then reports ---------------------------------------------------------

  lemma FromOne(ranges: Ranges, st: Project, h: int, start: int)
    ensures From(EntryAt(ranges, st, h), start) == if h >= start then EntryAt(ranges, st, h) else []
  {
    hide SlotAt, RangeOf;
    FromAll([], start);
    OneEntry(Entry(h, RangeOf(ranges, SlotAt(st, h))), start);
  }

  lemma {:induction false} ResumedChain(ranges: Ranges, st: Project, first: int, start: int, end: int)
    requires first <= start
    ensures From(ChainRead(ranges, st, first, end), start) == ChainRead(ranges, st, start, end)
    decreases end - first
  {
    hide EntryAt, From;
    FromAll([], start);
    if first <= end {
      ResumedChain(ranges, st, first, start, end - 1);
      FromConcat(ChainRead(ranges, st, first, end - 1), EntryAt(ranges, st, end), start);
      FromOne(ranges, st, end, start);
    }
  }

  /** A cycle whose reads describe the chain is the scan's cycle over the whole chain, wherever the last
      one stopped; `first` is any height at or below the start. */
  lemma CycleOfReads(v: Progress, text: Cid -> string, ranges: Ranges, st: Project, first: int, r: Reads)
    requires first <= v.last && ReadsFrom(text, ranges, st, v.last, r)
    requires Describes(r, ChainRead(ranges, st, v.last, st.blockHeight))
    requires NonNull(ChainRead(ranges, st, v.last, st.blockHeight)) != []
    ensures var m := Merge(r.dag, r.payloads, 0, r.ipfs);
            && m.Merged? && m.chain != [] && (forall b | b in m.chain :: b.payloadCid in r.ranges)
            && var chain := WithRanges(m.chain, r.ranges);
            Cycle(v, ChainRead(ranges, st, first, st.blockHeight)) ==
            Progress(chain[|chain| - 1].height, v.reported + Scan(chain))
  {
    hide Merge, Describes, ReadsFrom, NonNull, WithRanges, Scan, ChainRead, Cycle;
    ResumedChain(ranges, st, first, v.last, st.blockHeight);
    ReadsGiveCycle(v, r, ChainRead(ranges, st, first, st.blockHeight));
  }

  /** Every payload covers the epoch of its block's height. */
  predicate FollowsEpochs(size: int, first: int, ranges: Ranges, st: Project, end: int) {
    forall h | 1 <= h <= end ::
      var slot := SlotAt(st, h);
      slot.BlockWith? && slot.data.Some? ==>
        slot.data.value in ranges && ranges[slot.data.value] == (E.Begin(size, first, h), E.End(size, first, h))
  }

  lemma {:induction false} ChainOfEpochs(cfg: Config, size: int, first: int, ranges: Ranges, st: Project, end: nat)
    requires cfg.segmentSize > 0 && Indexed(cfg, st, 0) && st.blockHeight > 0 && end <= st.blockHeight
    requires FollowsEpochs(size, first, ranges, st, end)
    ensures ChainRead(ranges, st, 0, end) == ChainUpTo(size, first, NullHeights(st.lastDagCid.value, st.blockHeight),
                                                       end)
  {
    hide WellLinked, NullHeights, E.Begin, E.End, Ancestor;
    var head := st.lastDagCid.value;
    assert At(st.cids, end) == if 0 < end then [Ancestor(head, end)] else [];
    if end == 0 {
      assert ChainRead(ranges, st, 0, -1) == [] && ChainRead(ranges, st, 0, 0) == [] + [];
    } else {
      ChainOfEpochs(cfg, size, first, ranges, st, end - 1);
      assert SlotAt(st, end) == BlockWith(Ancestor(head, end).block.data);
    }
  }

  /** The null blocks that healing makes: the missing heights without consensus, and those whose consensus
      snapshot is itself a null marker. */
  lemma HealedNulls(cfg: Config, lo: int, st: Project, seen: map<int, seq<Pending>>, st': Project, earliest: int,
                    env: Env, k: int)
    requires cfg.segmentSize > 0 && ConsensusReady(cfg) && Indexed(cfg, st, lo)
    requires Healed(cfg, lo, st, seen, st', earliest, env) && st.blockHeight < k < earliest
    ensures st'.lastDagCid.Some?
    ensures k in NullHeights(st'.lastDagCid.value, st'.blockHeight) <==>
            !Reached(env, k) || DataOf(env.replies[k].snapshotCid).None?
  {
    hide DataOf, Fill, Ancestor, WellLinked;
    assert FilledFrom(cfg, env, Ancestor(st'.lastDagCid.value, k), k, st.blockHeight + 1);
    if Reached(env, k) {
      LinkedData(Ancestor(st'.lastDagCid.value, k), env.replies[k].snapshotCid);
    }
  }

  /** The verifier's progress covers the chain up to some height. */
  ghost predicate Verifying(v: Progress, ranges: Ranges, st: Project) {
    && v.last <= st.blockHeight
    && var chain := ChainRead(ranges, st, 0, st.blockHeight);
    exists m: nat :: m <= |chain| && UpTo(v, chain[..m])
  }

  /** What a cycle reads merges, and completes the report of all null runs of the chain. */
  ghost predicate ReportsAll(cfg: Config, nulls: set<int>, m: int, v: Progress, r: Reads)
    requires ConsensusReady(cfg) && m >= 0
  {
    var merged := Merge(r.dag, r.payloads, 0, r.ipfs);
    && merged.Merged? && merged.chain != [] && (forall b | b in merged.chain :: b.payloadCid in r.ranges)
    && ReportsRuns(cfg.epochSize.value, cfg.firstEpochEnd.value, nulls, m,
                   v.reported + Scan(WithRanges(merged.chain, r.ranges)))
  }

  /** Healing shows up as gaps, whatever the consensus service answered and wherever the verifier stands:
      where the index reads fit from its last height on, its next cycle succeeds, and all it has reported
      then is one gap issue per maximal run of null blocks between blocks with payloads, with the run's
      exact source range. Among the filled heights the null ones are those that got no consensus snapshot. */
  lemma HealingIsReported(cfg: Config, st: Project, cb: Callback, env: Env, text: Cid -> string, ranges: Ranges,
                          v: Progress)
    returns (earliest: int)
    requires cfg.segmentSize > 0 && ConsensusReady(cfg) && cfg.epochSize.value > 0 && cfg.firstEpochEnd.value > 0
    requires Indexed(cfg, st, 0) && NotStranded(st) && env.cut.NoCut?
    requires cb.height >= st.blockHeight + HEALING_THRESHOLD
    requires Find(At(st.pending, cb.height), cb.requestID).Some?
    ensures var st' := Process(cfg, st, cb, env);
            var seen := SaveEvent(st, Find(At(st.pending, cb.height), cb.requestID).value, cb).pending;
            && Healed(cfg, 0, st, seen, st', earliest, env) && st'.lastDagCid.Some?
            && var nulls := NullHeights(st'.lastDagCid.value, st'.blockHeight);
            && (forall k | st.blockHeight < k < earliest ::
                  k in nulls <==> !Reached(env, k) || DataOf(env.replies[k].snapshotCid).None?)
            && (FollowsEpochs(cfg.epochSize.value, cfg.firstEpochEnd.value, ranges, st', st'.blockHeight)
                && Verifying(v, ranges, st')
                && HealingFits(cfg, env, ranges, st, seen, v.last, earliest, st'.blockHeight)
                && (exists h :: 1 <= h <= st'.blockHeight && h !in nulls) ==>
                  forall r | ReadsFrom(text, ranges, st', v.last, r) :: ReportsAll(cfg, nulls, st'.blockHeight, v, r))
  {
    hide Process, Healed, SaveEvent, Indexed, Find, ConfirmedIn, ReadsFrom, HealingFits, NullHeights, DataOf,
         FollowsEpochs, Fits, SlotAt, Verifying, ReportsAll;
    var st' := Process(cfg, st, cb, env);
    var seen := SaveEvent(st, Find(At(st.pending, cb.height), cb.requestID).value, cb).pending;
    earliest := HealingMakesProgress(cfg, 0, st, cb, env);
    HealedIsIndexed(cfg, 0, st, seen, st', earliest, env);
    HealedNulls(cfg, 0, st, seen, st', earliest, env, st.blockHeight + 1);
    var nulls := NullHeights(st'.lastDagCid.value, st'.blockHeight);
    forall k | st.blockHeight < k < earliest
      ensures k in nulls <==> !Reached(env, k) || DataOf(env.replies[k].snapshotCid).None?
    {
      HealedNulls(cfg, 0, st, seen, st', earliest, env, k);
    }
    if FollowsEpochs(cfg.epochSize.value, cfg.firstEpochEnd.value, ranges, st', st'.blockHeight)
       && Verifying(v, ranges, st')
       && HealingFits(cfg, env, ranges, st, seen, v.last, earliest, st'.blockHeight)
       && (exists h :: 1 <= h <= st'.blockHeight && h !in nulls) {
      CanFetch(cfg, st', ranges, v.last);
      HealedIndexFitsExactly(cfg, 0, st, seen, st', earliest, env, ranges, v.last);
      forall r | ReadsFrom(text, ranges, st', v.last, r) ensures ReportsAll(cfg, nulls, st'.blockHeight, v, r) {
        VerifiedRuns(cfg, st', text, ranges, v, r, nulls);
      }
    }
  }

  /** The next cycle over a project whose index reads fit. */
  lemma {:induction false} VerifiedRuns(cfg: Config, st: Project, text: Cid -> string, ranges: Ranges, v: Progress,
                                        r: Reads, nulls: set<int>)
    requires cfg.segmentSize > 0 && ConsensusReady(cfg) && cfg.epochSize.value > 0 && cfg.firstEpochEnd.value > 0
    requires Indexed(cfg, st, 0) && st.blockHeight > 0
    requires FollowsEpochs(cfg.epochSize.value, cfg.firstEpochEnd.value, ranges, st, st.blockHeight)
    requires Verifying(v, ranges, st) && ReadsFrom(text, ranges, st, v.last, r)
    requires forall h | v.last <= h <= st.blockHeight :: Fits(ranges, st.payloadCids, h, SlotAt(st, h))
    requires nulls == NullHeights(st.lastDagCid.value, st.blockHeight)
    ensures (exists h :: 1 <= h <= st.blockHeight && h !in nulls) ==> ReportsAll(cfg, nulls, st.blockHeight, v, r)
  {
    hide Indexed, Merge, Describes, ReadsFrom, Scan, WithRanges, ReportsRuns, NonNull, ChainUpTo, NullHeights,
         FollowsEpochs, ChainRead, Fits, SlotAt, Fetchable, Verifying, HeightsAscend, E.End;
    var size, first := cfg.epochSize.value, cfg.firstEpochEnd.value;
    CanFetch(cfg, st, ranges, v.last);
    OneEachIndexed(cfg, st, 0, v.last);
    DescribesExactly(text, ranges, st, v.last, r);
    ChainOfEpochs(cfg, size, first, ranges, st, st.blockHeight);
    ChainUpToAscends(size, first, nulls, st.blockHeight);
    NullRunsReportedExactly(size, first, nulls, st.blockHeight);
    var chain := ChainRead(ranges, st, 0, st.blockHeight);
    if NonNull(chain) != [] {
      NextCycle(text, ranges, st, v, r);
    }
  }

  /** Afterwards everything that one scan of the whole chain reports has been reported. */
  lemma {:induction false} NextCycle(text: Cid -> string, ranges: Ranges, st: Project, v: Progress, r: Reads)
    requires Verifying(v, ranges, st) && ReadsFrom(text, ranges, st, v.last, r)
    requires Describes(r, ChainRead(ranges, st, v.last, st.blockHeight))
    requires HeightsAscend(ChainRead(ranges, st, 0, st.blockHeight))
             && NonNull(ChainRead(ranges, st, 0, st.blockHeight)) != []
    ensures var m := Merge(r.dag, r.payloads, 0, r.ipfs);
            && m.Merged? && m.chain != [] && (forall b | b in m.chain :: b.payloadCid in r.ranges)
            && v.reported + Scan(WithRanges(m.chain, r.ranges)) ==
               Scan(NonNull(ChainRead(ranges, st, 0, st.blockHeight)))
  {
    hide Merge, Describes, ReadsFrom, Scan, WithRanges, NonNull, ChainRead, Cycle, From, UpTo, HeightsAscend;
    var chain := ChainRead(ranges, st, 0, st.blockHeight);
    var m: nat :| m <= |chain| && UpTo(v, chain[..m]);
    ExtendedCycle(v, chain, m);
    ResumedChain(ranges, st, 0, v.last, st.blockHeight);
    CycleOfReads(v, text, ranges, st, 0, r);
  }

  lemma ChainUpToAscends(size: int, first: int, nulls: set<int>, m: nat)
    ensures HeightsAscend(ChainUpTo(size, first, nulls, m))
  {
    hide E.Begin, E.End;
  }

  /** The cycle that completes a chain has something to look at, and completes what was reported. */
  lemma {:induction false} ExtendedCycle(v: Progress, s: seq<Entry>, m: nat)
    requires HeightsAscend(s) && m <= |s| && UpTo(v, s[..m]) && NonNull(s) != []
    ensures v.last >= 0 && NonNull(From(s, v.last)) != []
    ensures Cycle(v, s).reported == Scan(NonNull(s))
  {
    hide NonNull, From, Scan;
    assert s[..|s|] == s;
    CycleExtends(v, s, m, |s|);
    assert s == s[..m] + s[m..];
    NonNullConcat(s[..m], s[m..]);
    if NonNull(s[..m]) == [] {
      FromAll(s, 0);
    } else {
      ResumedRead(s[..m], s[m..]);
      LastIsPositive(s[..m]);
    }
  }

  lemma LastIsPositive(s: seq<Entry>)
    requires HeightsAscend(s) && NonNull(s) != []
    ensures NonNull(s)[|NonNull(s)| - 1].height > 0
  {
    hide NonNull, From;
    var i := ResumeAtLast(s);
  }

  lemma CanFetch(cfg: Config, st: Project, ranges: Ranges, start: int)
    requires cfg.segmentSize > 0 && Indexed(cfg, st, 0) && ConsensusReady(cfg)
    requires FollowsEpochs(cfg.epochSize.value, cfg.firstEpochEnd.value, ranges, st, st.blockHeight)
    ensures Fetchable(ranges, st, start, st.blockHeight)
  {
    hide WellLinked, Ancestor, E.Begin, E.End;
    forall h | h <= 0 ensures SlotAt(st, h) == NoBlock {
      assert At(st.cids, h) == [];
    }
  }

  // --- where it fails --------------------------------------------------------------------------

  /** A member that payload-commit had recorded for a missing height stays there when consensus answers with
      another snapshot. From then on no verification that reads this height succeeds. */
  lemma StaleMemberStopsVerification(cfg: Config, lo: int, st: Project, seen: map<int, seq<Pending>>, st': Project,
                                     earliest: int, env: Env, text: Cid -> string, ranges: Ranges, start: int,
                                     r: Reads, k: int, c: string)
    requires cfg.segmentSize > 0 && ConsensusReady(cfg) && Healed(cfg, lo, st, seen, st', earliest, env)
    requires st.blockHeight < k < earliest && Reached(env, k) && Lasting(cfg, env, k, earliest)
    requires Sits(st.payloadCids, c, k) && !IsFill(cfg, env, st.blockHeight + 1, earliest, c)
    requires start <= k && ReadsFrom(text, ranges, st', start, r)
    ensures Sits(st'.payloadCids, c, k) && Sits(st'.payloadCids, FillCid(cfg, env, k), k) && c != FillCid(cfg, env, k)
    ensures !Merge(r.dag, r.payloads, 0, r.ipfs).Merged?
  {
    hide Fill, FillCid, Lasting, Indexed, ReadsFrom, Merge, WellLinked;
    var lo', agreed := st.blockHeight + 1, FillCid(cfg, env, k);
    SitsAfterFill(cfg, st, env, lo', earliest, c, k);
    SitsAfterFill(cfg, st, env, lo', earliest, agreed, k);
    OneEachIndexed(cfg, st', lo, start);
    TwoMembersStopVerification(text, ranges, st', start, r, k, c, agreed);
  }

  /** The run in which it happens, after any number of finalized heights: a snapshot is recorded for the next
      height but its callback never comes; a callback four heights above arrives; consensus answers with
      another snapshot. */
  function StaleRun(w: C.Workload, n: nat, env: Env, stale: string, q: Pending, cb: Callback): seq<Event> {
    W.Ordinary(w, n, env.(replies := map[])) + [Recorded(n + 1, stale), Submitted(n + 5, q), Deliver(cb, env)]
  }

  lemma StaleMemberIsReached(cfg: Config, w: C.Workload, n: nat, env: Env, stale: string, answer: string, q: Pending,
                             cb: Callback)
    requires cfg.segmentSize > 0 && ConsensusReady(cfg) && C.WellFormed(w) && n <= w.n
    requires env.cut.NoCut? && env.replies == map[n + 1 := Achieved(answer)]
    requires cb.height == n + 5 && q.requestID == cb.requestID
    requires stale != answer && !IsNull(stale) && !IsNull(answer)
    ensures var st := Run(cfg, EMPTY, StaleRun(w, n, env, stale, q, cb));
            && st.blockHeight > n + 1
            && Sits(st.payloadCids, stale, n + 1) && Sits(st.payloadCids, answer, n + 1)
            && forall text, ranges, start, r | start <= n + 1 && ReadsFrom(text, ranges, st, start, r) ::
                 !Merge(r.dag, r.payloads, 0, r.ipfs).Merged?
  {
    hide Process, Run, Indexed, W.Ordinary, Healed, Merge, ReadsFrom, C.WellFormed, Insert, IsNull, FillCid, IsFill,
         Lasting, SaveEvent;
    var calm := env.(replies := map[]);
    W.OrdinaryReaches(cfg, w, n, calm);
    var idle := Run(cfg, EMPTY, W.Ordinary(w, n, calm));
    W.RunThreeMore(cfg, EMPTY, W.Ordinary(w, n, calm), Recorded(n + 1, stale), Submitted(n + 5, q), Deliver(cb, env));
    var st := Step(cfg, Step(cfg, idle, Recorded(n + 1, stale)), Submitted(n + 5, q));
    QueuedAhead(cfg, idle, n, stale, q, cb);
    FrameIndexed(cfg, idle, st, 0);
    var earliest := HealingMakesProgress(cfg, 0, st, cb, env);
    var seen := SaveEvent(st, q, cb).pending;
    var st' := Process(cfg, st, cb, env);
    HealedIsIndexed(cfg, 0, st, seen, st', earliest, env);
    OneAnswer(cfg, env, n + 1, earliest, answer, stale);
    SitsAfterHealing(cfg, 0, st, seen, st', earliest, env, n + 1, stale);
    OneEachBelow(cfg, st');
    forall text, ranges, start, r | start <= n + 1 && ReadsFrom(text, ranges, st', start, r)
      ensures !Merge(r.dag, r.payloads, 0, r.ipfs).Merged?
    {
      StaleMemberStopsVerification(cfg, 0, st, seen, st', earliest, env, text, ranges, start, r, n + 1, stale);
    }
  }

  lemma OneEachBelow(cfg: Config, st: Project)
    requires cfg.segmentSize > 0 && Indexed(cfg, st, 0)
    ensures forall start :: OneEach(st, start, st.blockHeight)
  {
    forall start ensures OneEach(st, start, st.blockHeight) {
      OneEachIndexed(cfg, st, 0, start);
    }
  }

  lemma SitsAfterHealing(cfg: Config, lo: int, st: Project, seen: map<int, seq<Pending>>, st': Project, earliest: int,
                         env: Env, k: int, c: string)
    requires cfg.segmentSize > 0 && ConsensusReady(cfg) && Healed(cfg, lo, st, seen, st', earliest, env)
    requires st.blockHeight < k < earliest && Reached(env, k) && Lasting(cfg, env, k, earliest)
    requires Sits(st.payloadCids, c, k) && !IsFill(cfg, env, st.blockHeight + 1, earliest, c)
    ensures Sits(st'.payloadCids, c, k) && Sits(st'.payloadCids, FillCid(cfg, env, k), k)
  {
    hide Fill, FillCid, Lasting, Indexed;
    SitsAfterFill(cfg, st, env, st.blockHeight + 1, earliest, c, k);
    SitsAfterFill(cfg, st, env, st.blockHeight + 1, earliest, FillCid(cfg, env, k), k);
  }

  lemma QueuedAhead(cfg: Config, idle: Project, n: nat, stale: string, q: Pending, cb: Callback)
    requires cfg.segmentSize > 0 && W.Idle(idle, n) && cb.height == n + 5 && q.requestID == cb.requestID
    ensures var st := Step(cfg, Step(cfg, idle, Recorded(n + 1, stale)), Submitted(n + 5, q));
            && SameChain(idle, st) && st.blockHeight == n && NotStranded(st)
            && Find(At(st.pending, cb.height), cb.requestID) == Some(q)
            && Sits(st.payloadCids, stale, n + 1)
  {
    assert At(idle.pending, n + 5) == [] && At(idle.pending, n + 1) == [];
    assert Insert([], q) == [q];
    NoneConfirmed();
  }

  lemma OneAnswer(cfg: Config, env: Env, k: int, hi: int, answer: string, stale: string)
    requires ConsensusReady(cfg) && k < hi && env.replies == map[k := Achieved(answer)]
    requires stale != answer && !IsNull(stale) && !IsNull(answer)
    ensures Reached(env, k) && FillCid(cfg, env, k) == answer
    ensures Lasting(cfg, env, k, hi) && !IsFill(cfg, env, k, hi, stale)
  {
    forall j | k < j < hi ensures FillCid(cfg, env, j) != answer && FillCid(cfg, env, j) != stale {
      var s := FillCid(cfg, env, j);
      assert s[..4] == "null";
    }
  }
}
