/** A run in which healing works out as meant, from the first commit to the verifier's report. */
module GapRuns {
  import opened Wrappers
  import opened Store
  import opened Finalizer
  import opened ChainInvariant
  import opened Queue
  import opened Healing
  import opened GapScan
  import opened NullGaps
  import opened PayloadIndex
  import opened HealedIndex
  import opened WitnessRuns
  import opened Decimal
  import Numbers
  import E = Epochs
  import C = Confluence

  /** Every snapshot is a CID, and no two heights share one. */
  predicate RealSnapshots(w: C.Workload, n: nat) {
    && (forall h | 1 <= h <= n :: w.callback(h).snapshotCid != "" && !IsNull(w.callback(h).snapshotCid))
    && (forall i, j | 1 <= i < j <= n :: w.callback(i).snapshotCid != w.callback(j).snapshotCid)
  }

  /** The chain carries the snapshots of its heights, and the payload index lists just these. */
  ghost predicate Plain(w: C.Workload, st: Project, n: nat) {
    && (forall h | 1 <= h <= n :: SlotAt(st, h) == BlockWith(Some(w.callback(h).snapshotCid)))
    && (forall c, h :: Sits(st.payloadCids, c, h) <==> 1 <= h <= n && c == w.callback(h).snapshotCid)
  }

  lemma SlotsStay(cfg: Config, st: Project, st': Project, h: int)
    requires cfg.segmentSize > 0 && Indexed(cfg, st, 0) && Indexed(cfg, st', 0) && Extends(st, st')
             && h <= st.blockHeight
    ensures SlotAt(st', h) == SlotAt(st, h)
  {
    hide WellLinked, Ancestor;
    assert At(st.cids, h) == if 0 < h then [Ancestor(st.lastDagCid.value, h)] else [];
    assert At(st'.cids, h) == if 0 < h then [Ancestor(st'.lastDagCid.value, h)] else [];
  }

  lemma SlotOfNext(cfg: Config, st: Project, q: Pending, cb: Callback, env: Env)
    requires cfg.segmentSize > 0 && Indexed(cfg, st, 0) && Queued(st, q) && env.cut.NoCut?
    requires q.requestID == cb.requestID && cb.height == st.blockHeight + 1
    requires cb.snapshotCid != "" && !IsNull(cb.snapshotCid)
    ensures var st' := Process(cfg, st, cb, env);
            && Indexed(cfg, st', 0) && Extends(st, st')
            && SlotAt(st', cb.height) == BlockWith(Some(cb.snapshotCid))
  {
    hide Process, InOrder, WellLinked, Ancestor, Queued, IsNull, IsRunEnd, CarriesQueued, Extends;
    DeliverNext(cfg, 0, st, q, cb, env);
    InOrderComplete(cfg, st, 0, cb.txHash, cb.snapshotCid, cb.timestamp);
    ProcessKeepsIndex(cfg, st, 0, cb, env);
    var st' := Process(cfg, st, cb, env);
    assert At(st'.cids, cb.height) == [Ancestor(st'.lastDagCid.value, cb.height)];
  }

  lemma {:induction false} OrdinaryIsPlain(cfg: Config, w: C.Workload, n: nat, env: Env)
    requires cfg.segmentSize > 0 && C.WellFormed(w) && n <= w.n && env.cut.NoCut? && RealSnapshots(w, n)
    ensures Plain(w, Run(cfg, EMPTY, Ordinary(w, n, env)), n)
  {
    hide Indexed, Process, C.WellFormed, Queued, Step, Run, SlotAt, Sits, IsNull, Plain;
    if n == 0 {
      NothingRun(cfg);
      NothingPlain(w);
    } else {
      OrdinaryReaches(cfg, w, n - 1, env);
      OrdinaryIsPlain(cfg, w, n - 1, env);
      var events := Ordinary(w, n - 1, env);
      var st := Run(cfg, EMPTY, events);
      WellFormedAt(w, n);
      var s := w.callback(n).snapshotCid;
      var recorded, queued := Recorded(n, s), Submitted(n, w.queued(n));
      RunThreeMore(cfg, EMPTY, events, recorded, queued, Deliver(w.callback(n), env));
      CommitNext(cfg, st, w, n);
      var due := Step(cfg, Step(cfg, st, recorded), queued);
      FrameIndexed(cfg, st, due, 0);
      DeliverNext(cfg, 0, due, w.queued(n), w.callback(n), env);
      SlotOfNext(cfg, due, w.queued(n), w.callback(n), env);
      assert env.(cut := NoCut) == env;
      StepIsProcess(cfg, due, w.callback(n), env);
      RecordedSits(cfg, st, n, s, w.queued(n));
      var st' := Process(cfg, due, w.callback(n), env);
      forall h | 1 <= h < n ensures SlotAt(st', h) == SlotAt(st, h) {
        SlotsStay(cfg, st, due, h);
        SlotsStay(cfg, due, st', h);
      }
      PlainMore(w, st, st', n);
    }
  }

  lemma PlainMore(w: C.Workload, st: Project, st': Project, n: nat)
    requires n >= 1 && RealSnapshots(w, n) && Plain(w, st, n - 1)
    requires forall h | 1 <= h < n :: SlotAt(st', h) == SlotAt(st, h)
    requires SlotAt(st', n) == BlockWith(Some(w.callback(n).snapshotCid))
    requires st'.payloadCids == st.payloadCids[w.callback(n).snapshotCid := n]
    ensures Plain(w, st', n)
  {
    hide SlotAt, IsNull, Sits;
    forall c, h ensures Sits(st'.payloadCids, c, h) <==> 1 <= h <= n && c == w.callback(h).snapshotCid {
      SitsRecorded(st, n, w.callback(n).snapshotCid, st', c, h);
    }
  }

  lemma NothingPlain(w: C.Workload)
    ensures Plain(w, EMPTY, 0)
  {
  }

  lemma RecordedSits(cfg: Config, st: Project, n: int, s: string, q: Pending)
    requires cfg.segmentSize > 0
    ensures Step(cfg, Step(cfg, st, Recorded(n, s)), Submitted(n, q)).payloadCids == st.payloadCids[s := n]
  {
    hide ZAdd;
  }

  lemma SitsRecorded(st: Project, n: int, s: string, st': Project, c: string, h: int)
    requires st'.payloadCids == st.payloadCids[s := n]
    ensures Sits(st'.payloadCids, c, h) <==> if c == s then h == n else Sits(st.payloadCids, c, h)
  {
  }

  // --- healing after ordinary traffic ----------------------------------------------------

  /** Heights 1..n come in order; then one callback arrives four heights too early, and the consensus
      service knows nothing about the heights between. */
  function GapRun(w: C.Workload, n: nat, env: Env, q: Pending, cb: Callback): seq<Event> {
    Ordinary(w, n, env) + [Recorded(n + 5, cb.snapshotCid), Submitted(n + 5, q), Deliver(cb, env)]
  }

  lemma MarkersDiffer(cfg: Config, env: Env, j: int, k: int)
    requires ConsensusReady(cfg) && cfg.epochSize.value > 0 && cfg.firstEpochEnd.value > 0
    requires 1 <= j < k && !Reached(env, j) && !Reached(env, k)
    ensures FillCid(cfg, env, j) != FillCid(cfg, env, k)
  {
    var size, first := cfg.epochSize.value, cfg.firstEpochEnd.value;
    E.EpochsPositive(size, first, j);
    E.EpochsPositive(size, first, k);
    Numbers.MulGap(j - 1, k - 1, size);
    var a, b := EpochEnd(size, first, j), EpochEnd(size, first, k);
    assert a < b;
    ValueOfText(a);
    ValueOfText(b);
    var s, t := FillCid(cfg, env, j), FillCid(cfg, env, k);
    assert s == "null_" + IntText(a) && t == "null_" + IntText(b);
    assert s[5..] == Text(a) && t[5..] == Text(b);
  }

  lemma NoFillIsReal(cfg: Config, env: Env, lo: int, hi: int, c: string)
    requires ConsensusReady(cfg) && env.replies == map[] && !IsNull(c)
    ensures !IsFill(cfg, env, lo, hi, c)
  {
    forall k | lo <= k < hi ensures FillCid(cfg, env, k) != c {
      var s := FillCid(cfg, env, k);
      assert s[..4] == "null";
    }
  }

  lemma SitsReal(cfg: Config, env: Env, z: map<string, int>, lo: int, hi: int, c: string, h: int)
    requires ConsensusReady(cfg) && env.replies == map[]
    requires Sits(z, c, h) ==> !IsNull(c)
    ensures Sits(Others(cfg, env, z, lo, hi), c, h) <==> Sits(z, c, h)
  {
    hide IsNull, IsFill;
    if Sits(z, c, h) {
      NoFillIsReal(cfg, env, lo, hi, c);
    }
  }

  /** The snapshot of a height in that run. */
  function SnapshotAt(w: C.Workload, n: nat, cb: Callback, h: int): string {
    if h == n + 5 then cb.snapshotCid else w.callback(h).snapshotCid
  }

  /** Snapshots follow their epochs, and all of them can be fetched. */
  ghost predicate EpochRanges(cfg: Config, w: C.Workload, n: nat, cb: Callback, ranges: Ranges)
    requires ConsensusReady(cfg)
  {
    forall h | 1 <= h <= n || h == n + 5 ::
      var s := SnapshotAt(w, n, cb, h);
      s in ranges && ranges[s] == (E.Begin(cfg.epochSize.value, cfg.firstEpochEnd.value, h),
                                   E.End(cfg.epochSize.value, cfg.firstEpochEnd.value, h))
  }

  lemma FitsOne(ranges: Ranges, z: map<string, int>, h: int, s: string)
    requires !IsNull(s) && s in ranges && forall c :: Sits(z, c, h) <==> c == s
    ensures Fits(ranges, z, h, BlockWith(Some(s)))
  {
    hide IsNull;
    assert Names(ranges, s, Some(s));
  }

  /** Just before the early callback. */
  ghost predicate Waiting(w: C.Workload, st: Project, n: nat, q: Pending, cb: Callback) {
    && st.blockHeight == n
    && (forall h | 1 <= h <= n :: SlotAt(st, h) == BlockWith(Some(w.callback(h).snapshotCid)))
    && (forall c, h :: Sits(st.payloadCids, c, h) <==> (1 <= h <= n || h == n + 5) && c == SnapshotAt(w, n, cb, h))
    && (forall h | h > n :: At(st.pending, h) == if h == n + 5 then [q] else [])
  }

  lemma WaitingFits(cfg: Config, w: C.Workload, st: Project, n: nat, q: Pending, cb: Callback, env: Env,
                    ranges: Ranges, seen: map<int, seq<Pending>>)
    requires ConsensusReady(cfg) && cfg.epochSize.value > 0 && cfg.firstEpochEnd.value > 0 && env.replies == map[]
    requires RealSnapshots(w, n) && cb.snapshotCid != "" && !IsNull(cb.snapshotCid)
    requires EpochRanges(cfg, w, n, cb, ranges) && Waiting(w, st, n, q, cb) && SlotAt(st, 0) == NoBlock
    requires ConfirmedIn(At(seen, n + 5)) == [Saved(q, cb)]
    ensures HealingFits(cfg, env, ranges, st, seen, 0, n + 5, n + 5)
  {
    hide IsNull, SlotAt, Others, Sits, E.Begin, E.End, ConfirmedIn, FillCid, Fits;
    var others := Others(cfg, env, st.payloadCids, n + 1, n + 5);
    forall c, h ensures Sits(others, c, h) <==> (1 <= h <= n || h == n + 5) && c == SnapshotAt(w, n, cb, h) {
      SitsReal(cfg, env, st.payloadCids, n + 1, n + 5, c, h);
    }
    var hi := n + 5;
    forall h | 0 <= h <= hi
      ensures if st.blockHeight < h < hi then FillFits(cfg, env, ranges, others, h, hi)
              else Fits(ranges, others, h, DueAt(st, seen, h))
    {
      if h == 0 {
        NoneFits(ranges, others, 0);
      } else if n < h < n + 5 {
        forall j | h < j < n + 5 ensures FillCid(cfg, env, j) != FillCid(cfg, env, h) {
          MarkersDiffer(cfg, env, h, j);
        }
      } else {
        SlotDue(w, st, n, q, cb, seen, h);
        FitsOne(ranges, others, h, SnapshotAt(w, n, cb, h));
      }
    }
  }

  lemma NoneFits(ranges: Ranges, z: map<string, int>, h: int)
    requires forall c :: !Sits(z, c, h)
    ensures Fits(ranges, z, h, NoBlock)
  {
  }

  lemma WaitingIsReached(cfg: Config, w: C.Workload, n: nat, env: Env, q: Pending, cb: Callback) returns (st: Project)
    requires cfg.segmentSize > 0 && C.WellFormed(w) && n <= w.n && env.cut.NoCut? && RealSnapshots(w, n)
    requires cb.height == n + 5 && forall h | 1 <= h <= n :: w.callback(h).snapshotCid != cb.snapshotCid
    ensures Waiting(w, st, n, q, cb) && Indexed(cfg, st, 0)
    ensures Run(cfg, EMPTY, GapRun(w, n, env, q, cb)) == Process(cfg, st, cb, env)
  {
    hide Indexed, Process, Run, C.WellFormed, Ordinary, Sits, SlotAt;
    OrdinaryReaches(cfg, w, n, env);
    OrdinaryIsPlain(cfg, w, n, env);
    var idle := Run(cfg, EMPTY, Ordinary(w, n, env));
    var recorded, queued := Recorded(n + 5, cb.snapshotCid), Submitted(n + 5, q);
    RunThreeMore(cfg, EMPTY, Ordinary(w, n, env), recorded, queued, Deliver(cb, env));
    st := Step(cfg, Step(cfg, idle, recorded), queued);
    StepIsProcess(cfg, st, cb, env);
    QueuedFour(cfg, idle, n, cb.snapshotCid, q);
    FrameIndexed(cfg, idle, st, 0);
    RecordedSits(cfg, idle, n + 5, cb.snapshotCid, q);
    forall h | 1 <= h <= n ensures SlotAt(st, h) == BlockWith(Some(w.callback(h).snapshotCid)) {
      SlotsStay(cfg, idle, st, h);
    }
    forall c, h ensures Sits(st.payloadCids, c, h) <==> (1 <= h <= n || h == n + 5) && c == SnapshotAt(w, n, cb, h) {
      SitsRecorded(idle, n + 5, cb.snapshotCid, st, c, h);
    }
  }

  lemma QueuedFour(cfg: Config, idle: Project, n: nat, s: string, q: Pending)
    requires cfg.segmentSize > 0 && Idle(idle, n)
    ensures var st := Step(cfg, Step(cfg, idle, Recorded(n + 5, s)), Submitted(n + 5, q));
            && SameChain(idle, st)
            && (forall h | h > n :: At(st.pending, h) == if h == n + 5 then [q] else [])
  {
    assert At(idle.pending, n + 5) == [] && Insert([], q) == [q];
    var z := idle.pending[n + 5 := [q]];
    forall h | h > n ensures At(z, h) == if h == n + 5 then [q] else [] {
      assert At(idle.pending, h) == [];
    }
  }

  lemma SavedAlone(q: Pending, e: Pending)
    ensures Without([q], q) == [] && Insert([], e) == [e]
  {
    assert [q][1..] == [] && Without([], q) == [];
  }

  lemma SeenThen(st: Project, n: nat, q: Pending, cb: Callback, w: C.Workload)
    requires Waiting(w, st, n, q, cb) && cb.height == n + 5 && q.requestID == cb.requestID
    ensures Find(At(st.pending, cb.height), cb.requestID) == Some(q) && NotStranded(st)
    ensures var seen := SaveEvent(st, q, cb).pending;
            && ConfirmedIn(At(seen, n + 5)) == [Saved(q, cb)]
            && forall h | h > n && h != n + 5 :: ConfirmedIn(At(seen, h)) == []
  {
    hide SlotAt, Sits;
    NoneConfirmed();
    var seen := SaveEvent(st, q, cb).pending;
    assert At(st.pending, n + 5) == [q] && At(st.pending, n + 1) == [];
    SavedAlone(q, Saved(q, cb));
    assert At(seen, n + 5) == [Saved(q, cb)];
    ConfirmedFirst(Saved(q, cb), []);
    assert [Saved(q, cb)] + [] == [Saved(q, cb)];
    forall h | h > n && h != n + 5 ensures ConfirmedIn(At(seen, h)) == [] {
      assert At(st.pending, h) == [];
    }
  }

  lemma HealsToTheCallback(cfg: Config, st: Project, seen: map<int, seq<Pending>>, st': Project, earliest: int,
                           env: Env, n: nat)
    requires cfg.segmentSize > 0 && ConsensusReady(cfg) && st.blockHeight == n
    requires Healed(cfg, 0, st, seen, st', earliest, env)
    requires forall h | h > n && h != n + 5 :: ConfirmedIn(At(seen, h)) == []
    ensures earliest == n + 5 && st'.blockHeight == n + 5
  {
    hide Ancestor, Fill, ConfirmedIn, WellLinked;
    assert CarriesQueued(seen, st'.lastDagCid.value, earliest);
    assert ConfirmedIn(At(seen, n + 6)) == [];
  }

  lemma NullsOfSlots(cfg: Config, st: Project, h: int)
    requires cfg.segmentSize > 0 && Indexed(cfg, st, 0) && 1 <= h <= st.blockHeight
    ensures st.lastDagCid.Some?
    ensures SlotAt(st, h).BlockWith?
    ensures h in NullHeights(st.lastDagCid.value, st.blockHeight) <==> SlotAt(st, h).data.None?
  {
    hide WellLinked, Ancestor;
    assert At(st.cids, h) == [Ancestor(st.lastDagCid.value, h)];
  }

  /** A verification from scratch that reads r merges, and reports one gap: heights n + 1 to n + 4. */
  ghost predicate ReportsOneGap(cfg: Config, n: nat, r: Reads)
    requires ConsensusReady(cfg)
  {
    var size, first := cfg.epochSize.value, cfg.firstEpochEnd.value;
    var merged := PayloadMerge.Merge(r.dag, r.payloads, 0, r.ipfs);
    && merged.Merged? && merged.chain != [] && (forall b | b in merged.chain :: b.payloadCid in r.ranges)
    && Scan(WithRanges(merged.chain, r.ranges)) ==
       [GapInChain(n + 5, E.Begin(size, first, n + 1), E.End(size, first, n + 4))]
  }

  /** What the verifier finds after that run: it reads the chain without trouble and reports one gap, at the
      height of the early callback, with exactly the source range of the four epochs that got no snapshot. */
  lemma GapRunIsReported(cfg: Config, w: C.Workload, n: nat, env: Env, q: Pending, cb: Callback, text: Cid -> string,
                         ranges: Ranges)
    requires cfg.segmentSize > 0 && ConsensusReady(cfg) && cfg.epochSize.value > 0 && cfg.firstEpochEnd.value > 0
    requires C.WellFormed(w) && 1 <= n <= w.n && RealSnapshots(w, n) && env.cut.NoCut? && env.replies == map[]
    requires cb.height == n + 5 && q.requestID == cb.requestID && cb.snapshotCid != "" && !IsNull(cb.snapshotCid)
    requires forall h | 1 <= h <= n :: w.callback(h).snapshotCid != cb.snapshotCid
    requires EpochRanges(cfg, w, n, cb, ranges)
    ensures var st := Run(cfg, EMPTY, GapRun(w, n, env, q, cb));
            st.blockHeight == n + 5 && forall r | ReadsFrom(text, ranges, st, 0, r) :: ReportsOneGap(cfg, n, r)
  {
    hide Indexed, Process, Run, C.WellFormed, Ordinary, Sits, SlotAt, Healed, HealingFits, ReadsFrom, ReportsAll,
         FollowsEpochs, Verifying, NullHeights, SaveEvent, ConfirmedIn, NotStranded, EpochRanges, IsNull,
         RealSnapshots, DueAt, Waiting, ReportsOneGap;
    var st := WaitingIsReached(cfg, w, n, env, q, cb);
    SeenThen(st, n, q, cb, w);
    WaitingHeight(w, st, n, q, cb);
    var seen := SaveEvent(st, q, cb).pending;
    var earliest := HealingIsReported(cfg, st, cb, env, text, ranges, Progress(0, []));
    var st' := Process(cfg, st, cb, env);
    HealsToTheCallback(cfg, st, seen, st', earliest, env, n);
    NothingBelowFirst(cfg, st);
    WaitingFits(cfg, w, st, n, q, cb, env, ranges, seen);
    HealedIsIndexed(cfg, 0, st, seen, st', earliest, env);
    var nulls := NullHeights(st'.lastDagCid.value, n + 5);
    forall h | 1 <= h <= n + 5
      ensures SlotAt(st', h) == BlockWith(if n < h < n + 5 then None else Some(SnapshotAt(w, n, cb, h)))
      ensures h in nulls <==> n < h < n + 5
    {
      HealedSlot(cfg, 0, st, seen, st', earliest, env, h);
      SlotDue(w, st, n, q, cb, seen, h);
      NullsOfSlots(cfg, st', h);
    }
    EpochsFollowed(cfg, w, n, cb, ranges, st');
    NothingVerified(ranges, st');
    assert 1 !in NullHeights(st'.lastDagCid.value, st'.blockHeight);
    assert HealingFits(cfg, env, ranges, st, seen, 0, earliest, st'.blockHeight);
    forall r | ReadsFrom(text, ranges, st', 0, r) ensures ReportsOneGap(cfg, n, r) {
      OneGap(cfg, nulls, n, r);
    }
  }

  lemma OneGap(cfg: Config, nulls: set<int>, n: nat, r: Reads)
    requires ConsensusReady(cfg) && n >= 1 && ReportsAll(cfg, nulls, n + 5, Progress(0, []), r)
    requires forall h | 1 <= h <= n + 5 :: h in nulls <==> n < h < n + 5
    ensures ReportsOneGap(cfg, n, r)
  {
    hide Scan, WithRanges, PayloadMerge.Merge, ReportsRuns, E.Begin, E.End;
    var size, first := cfg.epochSize.value, cfg.firstEpochEnd.value;
    var merged := PayloadMerge.Merge(r.dag, r.payloads, 0, r.ipfs);
    var issues := Scan(WithRanges(merged.chain, r.ranges));
    assert [] + issues == issues;
    OneRunOneIssue(size, first, nulls, n, n + 5, issues);
    GapSpelledOut(size, first, n + 1, n + 4);
  }

  lemma GapSpelledOut(size: int, first: int, a: int, b: int)
    ensures GapOf(size, first, a, b) == GapInChain(b + 1, E.Begin(size, first, a), E.End(size, first, b))
  {
  }

  lemma OneRunOneIssue(size: int, first: int, nulls: set<int>, n: nat, m: nat, issues: seq<Issue>)
    requires n >= 1 && m == n + 5 && ReportsRuns(size, first, nulls, m, issues)
    requires forall h | 1 <= h <= m :: h in nulls <==> n < h < m
    ensures issues == [GapOf(size, first, n + 1, n + 4)]
  {
    hide GapOf;
    if |issues| > 1 {
      assert IssueHeight(issues[0]) < IssueHeight(issues[1]);
    }
    var g := GapOf(size, first, n + 1, n + 4);
    assert NullRun(nulls, m, n + 1, n + 4);
    forall x | x in issues ensures x == g {
      var a, b :| NullRun(nulls, m, a, b) && x == GapOf(size, first, a, b);
      assert a in nulls && b in nulls && a - 1 !in nulls && b + 1 !in nulls;
    }
    forall i | 0 <= i < |issues| ensures issues[i] == g {
      assert issues[i] in issues;
    }
  }

  lemma WaitingHeight(w: C.Workload, st: Project, n: nat, q: Pending, cb: Callback)
    requires Waiting(w, st, n, q, cb)
    ensures st.blockHeight == n
  {
    hide SlotAt, Sits;
  }

  lemma NothingBelowFirst(cfg: Config, st: Project)
    requires cfg.segmentSize > 0 && Indexed(cfg, st, 0)
    ensures SlotAt(st, 0) == NoBlock
  {
    hide WellLinked, Ancestor;
    assert At(st.cids, 0) == [];
  }

  lemma SlotDue(w: C.Workload, st: Project, n: nat, q: Pending, cb: Callback, seen: map<int, seq<Pending>>, h: int)
    requires Waiting(w, st, n, q, cb) && ConfirmedIn(At(seen, n + 5)) == [Saved(q, cb)]
    requires cb.snapshotCid != "" && !IsNull(cb.snapshotCid)
    ensures 1 <= h <= n || h == n + 5 ==> DueAt(st, seen, h) == BlockWith(Some(SnapshotAt(w, n, cb, h)))
  {
    hide SlotAt, Sits, IsNull, ConfirmedIn;
  }

  lemma EpochsFollowed(cfg: Config, w: C.Workload, n: nat, cb: Callback, ranges: Ranges, st: Project)
    requires ConsensusReady(cfg) && EpochRanges(cfg, w, n, cb, ranges)
    requires forall h | 1 <= h <= n + 5 ::
               SlotAt(st, h) == BlockWith(if n < h < n + 5 then None else Some(SnapshotAt(w, n, cb, h)))
    ensures FollowsEpochs(cfg.epochSize.value, cfg.firstEpochEnd.value, ranges, st, n + 5)
  {
    hide SlotAt, E.Begin, E.End;
  }

  lemma NothingVerified(ranges: Ranges, st: Project)
    ensures Verifying(Progress(0, []), ranges, st)
  {
    var s := ChainRead(ranges, st, 0, st.blockHeight);
    assert s[..0] == [];
    NoneOfNothing();
  }
}
