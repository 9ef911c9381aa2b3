/** The finalizer as it runs: a service that rewrites the project's keys step by step. */
module FinalizerService {
  import opened Wrappers
  import opened Store
  import opened Finalizer
  import opened Sets
  import Decimal

  // --- the reply of ZRANGEBYSCORE -------------------------------------------------

  /** Pending entries with their scores, as the queue loop reads them. */
  type Listing = seq<(int, Pending)>

  function Tagged(h: int, b: seq<Pending>): (r: Listing)
    ensures |r| == |b|
    ensures forall i | 0 <= i < |r| :: r[i].0 == h && r[i].1 == b[i]
  {
    if b == [] then [] else [(h, b[0])] + Tagged(h, b[1..])
  }

  /** The confirmed entries of one height, in listing order. */
  function ConfirmedOf(s: Listing, h: int): seq<Pending> {
    if s == [] then []
    else (if s[0].0 == h && Confirmed(s[0].1) then [s[0].1] else []) + ConfirmedOf(s[1..], h)
  }

  predicate InScoreOrder(s: Listing) {
    forall i, j | 0 <= i < j < |s| :: s[i].0 <= s[j].0
  }

  /** A listing of everything at heights `lo` and above. */
  ghost predicate Lists(z: map<int, seq<Pending>>, lo: int, s: Listing) {
    InScoreOrder(s) && forall h | h >= lo :: ConfirmedOf(s, h) == ConfirmedIn(At(z, h))
  }

  lemma ListsAbove(z: map<int, seq<Pending>>, lo: int, s: Listing)
    requires Lists(z, lo, s)
    ensures Lists(z, lo + 1, s)
  {
  }

  lemma {:induction false} ConfirmedOfTagged(h: int, b: seq<Pending>, k: int)
    ensures ConfirmedOf(Tagged(h, b), k) == if k == h then ConfirmedIn(b) else []
  {
    if b != [] {
      var s := Tagged(h, b);
      assert s[1..] == Tagged(h, b[1..]);
      ConfirmedOfTagged(h, b[1..], k);
    }
  }

  lemma {:induction false} ConfirmedOfConcat(s: Listing, t: Listing, h: int)
    ensures ConfirmedOf(s + t, h) == ConfirmedOf(s, h) + ConfirmedOf(t, h)
  {
    if s == [] {
      assert s + t == t;
    } else {
      assert (s + t)[1..] == s[1..] + t;
      ConfirmedOfConcat(s[1..], t, h);
    }
  }

  method Take<T(==)>(s: set<T>) returns (x: T)
    requires |s| > 0
    ensures x in s
  {
    x :| x in s;
  }

  method LastKey(keys: set<int>) returns (last: int)
    requires |keys| > 0
    ensures last == MaxOf(keys)
  {
    last := Take(keys);
    var rest := keys;
    while |rest| > 0
      invariant rest <= keys && last in keys
      invariant forall k | k in keys && k !in rest :: k <= last
      decreases |rest|
    {
      var k := Take(rest);
      if k > last {
        last := k;
      }
      rest := rest - {k};
    }
  }

  method ZRangeByScore(z: map<int, seq<Pending>>, lo: int) returns (s: Listing)
    ensures Lists(z, lo, s)
  {
    s := [];
    if |z.Keys| == 0 {
      forall h | h >= lo ensures ConfirmedOf(s, h) == ConfirmedIn(At(z, h)) {
      }
      return;
    }
    var last := LastKey(z.Keys);
    var h := lo;
    while h <= last
      invariant h >= lo
      invariant forall i | 0 <= i < |s| :: lo <= s[i].0 < h
      invariant InScoreOrder(s)
      invariant forall k | lo <= k < h :: ConfirmedOf(s, k) == ConfirmedIn(At(z, k))
      decreases last - h
    {
      var more := Tagged(h, At(z, h));
      forall k | lo <= k < h + 1 ensures ConfirmedOf(s + more, k) == ConfirmedIn(At(z, k)) {
        ConfirmedOfConcat(s, more, k);
        ConfirmedOfTagged(h, At(z, h), k);
        if k == h {
          NoneOf(s, h);
        }
      }
      s := s + more;
      h := h + 1;
    }
    forall k | k >= lo ensures ConfirmedOf(s, k) == ConfirmedIn(At(z, k)) {
      if k >= h {
        NoneOf(s, k);
        assert k !in z.Keys;
      }
    }
  }

  lemma {:induction false} NoneOf(s: Listing, h: int)
    requires forall i | 0 <= i < |s| :: s[i].0 != h
    ensures ConfirmedOf(s, h) == []
  {
    if s != [] {
      NoneOf(s[1..], h);
    }
  }

  // --- the queue loop is the queue ---------------------------------------------------

  /** The loop over one snapshot of the queue: an entry is taken when it is confirmed and next in line. */
  ghost function DrainList(cfg: Config, st: Project, s: Listing): Project
    requires cfg.segmentSize > 0
    decreases |s|
  {
    if s == [] then st
    else
      var (h, p) := s[0];
      if Confirmed(p) && h == st.blockHeight + 1 then
        if Raises(cfg, st, h) then st
        else DrainList(cfg, CreateBlock(cfg, st, h, p.event.txHash, p.event.snapshotCid, p.event.timestamp), s[1..])
      else DrainList(cfg, st, s[1..])
  }

  lemma {:induction false} NothingNext(cfg: Config, st: Project, s: Listing)
    requires cfg.segmentSize > 0
    requires forall i | 0 <= i < |s| :: s[i].0 > st.blockHeight + 1
    ensures DrainList(cfg, st, s) == st
  {
    if s != [] {
      NothingNext(cfg, st, s[1..]);
    }
  }

  /** One pass over a sorted snapshot does exactly what looking the next height up again and again does. */
  lemma {:induction false} DrainListIsDrain(cfg: Config, st: Project, s: Listing)
    requires cfg.segmentSize > 0 && Lists(st.pending, st.blockHeight + 1, s)
    ensures DrainList(cfg, st, s) == Drain(cfg, st, NoCut)
    decreases |s|
  {
    hide CreateBlock, ConfirmedIn;
    var next := st.blockHeight + 1;
    if s != [] {
      var (h, p) := s[0];
      if h > next {
        NoneOf(s, next);
        NothingNext(cfg, st, s);
      } else if Confirmed(p) && h == next {
        assert ConfirmedOf(s, next)[0] == p;
        if !Raises(cfg, st, h) {
          var st' := CreateBlock(cfg, st, h, p.event.txHash, p.event.snapshotCid, p.event.timestamp);
          CreateBlockPending(cfg, st, h, p);
          DrainStepTo(cfg, st, p);
          forall k | k >= next + 1 ensures ConfirmedOf(s[1..], k) == ConfirmedIn(At(st'.pending, k)) {
            assert ConfirmedOf(s, k) == ConfirmedIn(At(st.pending, k));
            assert At(st'.pending, k) == At(st.pending, k);
          }
          DrainListIsDrain(cfg, st', s[1..]);
        } else {
          DrainRaises(cfg, st);
        }
      } else {
        forall k | k >= next ensures ConfirmedOf(s[1..], k) == ConfirmedIn(At(st.pending, k)) {
          assert ConfirmedOf(s, k) == ConfirmedIn(At(st.pending, k));
        }
        DrainListIsDrain(cfg, st, s[1..]);
      }
    }
  }

  lemma CreateBlockPending(cfg: Config, st: Project, h: nat, p: Pending)
    requires cfg.segmentSize > 0 && !Raises(cfg, st, h)
    ensures var st' := CreateBlock(cfg, st, h, p.event.txHash, p.event.snapshotCid, p.event.timestamp);
            st'.pending == st.pending - {h} && st'.blockHeight == h
  {
  }

  lemma DrainStepTo(cfg: Config, st: Project, p: Pending)
    requires cfg.segmentSize > 0 && !Raises(cfg, st, st.blockHeight + 1)
    requires var q := ConfirmedIn(At(st.pending, st.blockHeight + 1)); q != [] && q[0] == p
    ensures Drain(cfg, st, NoCut) ==
            Drain(cfg, CreateBlock(cfg, st, st.blockHeight + 1, p.event.txHash, p.event.snapshotCid,
                                   p.event.timestamp), NoCut)
  {
    hide CreateBlock, ConfirmedIn;
  }

  lemma DrainRaises(cfg: Config, st: Project)
    requires cfg.segmentSize > 0 && Raises(cfg, st, st.blockHeight + 1)
    ensures Drain(cfg, st, NoCut) == st
  {
    hide ConfirmedIn;
  }

  lemma TouchNone(z: map<int, seq<Pending>>, lo: int, hi: int, height: int)
    ensures hi < lo ==> TouchedIn(z, lo, hi, height) == z
  {
  }

  lemma TouchOneMore(z: map<int, seq<Pending>>, lo: int, k: int, height: int)
    requires lo <= k
    ensures var before := TouchedIn(z, lo, k - 1, height);
            var last := LastFresh(At(before, k));
            TouchedIn(z, lo, k, height) ==
            if last.None? || !last.value.hasData then before
            else Replace(before, k, last.value, last.value.(lastTouched := height))
  {
    hide LastFresh, Insert, Without;
    var before := TouchedIn(z, lo, k - 1, height);
    assert At(before, k) == At(z, k);
  }

  // --- what a fill adds ---------------------------------------------------------------------

  /** The entry made up for a missing height: confirmed and complete, with the consensus answer, or null with the
      end of the epoch that the height belongs to. */
  predicate IsMadeUp(cfg: Config, env: Env, k: int, p: Pending)
    requires cfg.epochSize.Some? && cfg.firstEpochEnd.Some?
  {
    var cid := p.event.snapshotCid;
    var end := (k - 1) * cfg.epochSize.value + cfg.firstEpochEnd.value;
    && p == Pending(cfg.dummyTxHash, env.ids(k), -1, EventData(cfg.dummyTxHash, cid, env.clock(k)), true)
    && if k in env.replies && env.replies[k].Achieved? then cid == env.replies[k].snapshotCid
       else |cid| > 5 && cid[..5] == "null_" && Decimal.IsTextOf(cid[5..], end)
  }

  /** Every missing height has gained its made-up entry, and no other entry came or went. */
  ghost predicate MadeUp(cfg: Config, env: Env, z: map<int, seq<Pending>>, z': map<int, seq<Pending>>, lo: int, hi: int)
    requires cfg.epochSize.Some? && cfg.firstEpochEnd.Some?
  {
    forall k, p :: p in At(z', k) <==> p in At(z, k) || (lo <= k < hi && IsMadeUp(cfg, env, k, p))
  }

  lemma FillEntryIsMadeUp(cfg: Config, env: Env, k: int, p: Pending)
    requires cfg.epochSize.Some? && cfg.firstEpochEnd.Some?
    ensures p == FillEntry(cfg, env, k) <==> IsMadeUp(cfg, env, k, p)
  {
    hide Decimal.Text, Decimal.IsTextOf;
    var end := EpochEnd(cfg.epochSize.value, cfg.firstEpochEnd.value, k);
    var text := Decimal.IntText(end);
    Decimal.IntTextIsText(end);
    assert ("null_" + text)[..5] == "null_" && ("null_" + text)[5..] == text;
    var cid := p.event.snapshotCid;
    if |cid| > 5 && cid[..5] == "null_" && Decimal.IsTextOf(cid[5..], end) {
      Decimal.OneTextOnly(cid[5..], end);
      assert cid == cid[..5] + cid[5..];
    }
  }

  lemma {:induction false} FilledEntries(cfg: Config, env: Env, z: map<int, seq<Pending>>, lo: int, hi: int)
    requires cfg.epochSize.Some? && cfg.firstEpochEnd.Some?
    ensures MadeUp(cfg, env, z, AddFillEntries(cfg, env, z, lo, hi), lo, hi)
    decreases hi - lo
  {
    hide IsMadeUp, FillEntry, Insert;
    if lo < hi {
      var last := hi - 1;
      FilledEntries(cfg, env, z, lo, last);
      forall p ensures p == FillEntry(cfg, env, last) <==> IsMadeUp(cfg, env, last, p) {
        FillEntryIsMadeUp(cfg, env, last, p);
      }
    }
  }

  /** What a fill leaves of the pending entries: every missing height has gained its made-up entry, confirmed and
      complete, and no other entry came or went. */
  lemma FillMakesUp(cfg: Config, st: Project, env: Env, lo: int, hi: int)
    requires cfg.epochSize.Some? && cfg.firstEpochEnd.Some?
    ensures MadeUp(cfg, env, st.pending, Fill(cfg, st, env, lo, hi).pending, lo, hi)
  {
    hide MadeUp, AddFillEntries, AddFills, DropUnreached;
    FilledEntries(cfg, env, st.pending, lo, hi);
  }

  // --- the service ----------------------------------------------------------------------

  class DagFinalizer {
    const cfg: Config
    var blockHeight: nat
    var lastDagCid: Option<Cid>
    var cids: map<int, seq<Cid>>
    var pending: map<int, seq<Pending>>
    var discarded: map<string, int>
    var payloadCids: map<string, int>
    var segments: map<int, Segment>

    /** The project state that the keys spell out. */
    function View(): Project
      reads this
    {
      Project(blockHeight, lastDagCid, cids, pending, discarded, payloadCids, segments)
    }

    constructor (cfg: Config)
      ensures this.cfg == cfg
      ensures View() == Project(0, None, map[], map[], map[], map[], map[])
    {
      this.cfg := cfg;
      blockHeight, lastDagCid, cids, pending := 0, None, map[], map[];
      discarded, payloadCids, segments := map[], map[], map[];
    }

    /** `_identify_prune_target`; false when the parent of the boundary block is not indexed. */
    method IdentifyTarget(h: int) returns (ok: bool)
      modifies this`segments
      ensures ok <==> GetDagCid(old(View()), h - 1).Some?
      ensures View() == if ok then IdentifyPruneTarget(old(View()), h) else old(View())
    {
      var lastCid := GetDagCid(View(), h - 1);
      if lastCid.None? {
        return false;
      }
      var begin := 1;
      if segments != map[] {
        var last := LastKey(segments.Keys);
        begin := segments[last].endHeight + 1;
      }
      segments := segments[h - 1 := Segment(begin, h - 1, lastCid.value, PendingStorage)];
      ok := true;
    }

    /** `create_dag_block`: assemble the block, then blockHeight, lastDagCid and Cids in turn. */
    method CreateDagBlock(h: nat, txHash: string, payloadCid: Option<string>, timestamp: int, fetchPrev: bool)
      modifies this`blockHeight, this`lastDagCid, this`cids
      ensures var parent := GetDagCid(old(View()), h - 1);
              var block := if fetchPrev then Block(h, parent, None, payloadCid, txHash, timestamp)
                           else Block(h, None, parent, payloadCid, txHash, timestamp);
              View() == WriteBlock(old(View()), h, CidOf(block))
    {
      var prevCid, prevRoot := GetDagCid(View(), h - 1), None;
      if !fetchPrev {
        prevRoot := prevCid;
        prevCid := None;
      }
      var cid := CidOf(Block(h, prevCid, prevRoot, payloadCid, txHash, timestamp));
      blockHeight := h;
      lastDagCid := Some(cid);
      if cid !in At(cids, h) {
        cids := cids[h := At(cids, h) + [cid]];
      }
    }

    /** Segment, block and pending entry of one height; false when the boundary step raised. */
    method CreateOne(h: nat, txHash: string, snapshotCid: string, timestamp: int) returns (ok: bool)
      requires cfg.segmentSize > 0
      modifies this
      ensures ok <==> !Raises(cfg, old(View()), h)
      ensures View() == if ok then CreateBlock(cfg, old(View()), h, txHash, snapshotCid, timestamp) else old(View())
    {
      var fetchPrev := true;
      ok := true;
      if h > cfg.segmentSize && h % cfg.segmentSize == 1 {
        ok := IdentifyTarget(h);
        if !ok {
          return;
        }
        fetchPrev := false;
      }
      CreateDagBlock(h, txHash, DataOf(snapshotCid), timestamp, fetchPrev);
      pending := pending - {h};
    }

    /** `_in_order_block_creation_and_state_update`: the block at h, then one pass over the queue. */
    method CreateInOrder(h: nat, txHash: string, snapshotCid: string, timestamp: int, queued: Listing)
      requires cfg.segmentSize > 0 && Lists(pending, h + 1, queued)
      modifies this
      ensures View() == InOrder(cfg, old(View()), h, txHash, snapshotCid, timestamp, NoCut)
    {
      hide CreateBlock, Drain, ConfirmedIn, ConfirmedOf;
      ghost var p := Pending(txHash, "", 0, EventData(txHash, snapshotCid, timestamp), true);
      var ok := CreateOne(h, txHash, snapshotCid, timestamp);
      if !ok {
        return;
      }
      ghost var first := View();
      CreateBlockPending(cfg, old(View()), h, p);
      forall k | k >= h + 1 ensures ConfirmedOf(queued, k) == ConfirmedIn(At(first.pending, k)) {
        assert At(first.pending, k) == At(old(pending), k);
      }
      DrainListIsDrain(cfg, first, queued);
      var current := h;
      for i := 0 to |queued|
        invariant current == blockHeight
        invariant DrainList(cfg, View(), queued[i..]) == DrainList(cfg, first, queued)
      {
        var (k, e) := queued[i];
        assert queued[i..][0] == queued[i] && queued[i..][1..] == queued[i + 1..];
        if Confirmed(e) && k == current + 1 {
          ghost var before := View();
          ok := CreateOne(k, e.event.txHash, e.event.snapshotCid, e.event.timestamp);
          if !ok {
            return;
          }
          CreateBlockPending(cfg, before, k, e);
          current := k;
        }
      }
    }

    /** `save_event_data`: at the callback's height the old entry is gone and its confirmed copy is there;
        no other entry and no other height changes. */
    method SaveEventData(e: Pending, cb: Callback)
      modifies this`pending
      ensures View() == SaveEvent(old(View()), e, cb)
      ensures forall p :: p in At(pending, cb.height) <==>
                            || p == Pending(e.txHash, e.requestID, -1,
                                            EventData(cb.txHash, cb.snapshotCid, cb.timestamp), true)
                            || (p in At(old(pending), cb.height) && p != e)
      ensures forall k | k != cb.height :: At(pending, k) == At(old(pending), k)
    {
      pending := ZRem(pending, cb.height, e);
      pending := ZAdd(pending, cb.height, Saved(e, cb));
    }

    /** The resubmission pass: per height, the last entry that no callback has confirmed for ten heights. */
    method ResubmitStale(height: int)
      modifies this`pending
      ensures View() == Resubmit(old(View()), height)
    {
      hide TouchedIn, ZAdd, ZRem, LastFresh;
      var lo, hi := blockHeight + 1, height - RESUBMISSION_WAIT;
      var k := lo;
      ghost var z := pending;
      TouchNone(z, lo, lo - 1, height);
      TouchNone(z, lo, hi, height);
      while k <= hi
        invariant lo <= k
        invariant k <= hi + 1 || k == lo
        invariant pending == TouchedIn(z, lo, k - 1, height)
        decreases hi - k
      {
        TouchOneMore(z, lo, k, height);
        var last := LastFresh(At(pending, k));
        if last.Some? && last.value.hasData {
          pending := ZRem(pending, k, last.value);
          pending := ZAdd(pending, k, last.value.(lastTouched := height));
        }
        k := k + 1;
      }
      assert pending == TouchedIn(z, lo, hi, height);
    }

    /** Writes the consensus answers, or null markers, for the missing heights lo..hi-1. */
    method FillMissing(lo: int, hi: int, env: Env)
      requires cfg.epochSize.Some? && cfg.firstEpochEnd.Some?
      modifies this`payloadCids, this`pending
      ensures View() == Fill(cfg, old(View()), env, lo, hi)
    {
      hide FillCid, FillEntry, ZAdd;
      if hi <= lo {
        return;
      }
      for k := lo to hi
        invariant payloadCids == DropUnreached(env, old(payloadCids), lo, k) && pending == old(pending)
      {
        if !(k in env.replies && env.replies[k].Achieved?) {
          payloadCids := DropPayloadsAt(payloadCids, k);
        }
      }
      ghost var dropped := payloadCids;
      for k := lo to hi
        invariant payloadCids == AddFills(cfg, env, dropped, lo, k) && pending == old(pending)
      {
        payloadCids := payloadCids[FillCid(cfg, env, k) := k];
      }
      for k := lo to hi
        invariant pending == AddFillEntries(cfg, env, old(pending), lo, k)
        invariant payloadCids == AddFills(cfg, env, dropped, lo, hi)
      {
        pending := ZAdd(pending, k, FillEntry(cfg, env, k));
      }
    }

    /** Self-healing, given the pending entries as they were before the resubmission pass. */
    method HealChain(seen: map<int, seq<Pending>>, height: int, env: Env)
      requires cfg.segmentSize > 0 && env.cut.NoCut?
      modifies this
      ensures View() == Heal(cfg, old(View()), seen, height, env)
    {
      hide InOrder, Earliest, Fill, Lists, FillCid;
      var next := blockHeight + 1;
      var stuck := ConfirmedIn(At(seen, next));
      if |stuck| == 1 {
        var queued := ZRangeByScore(pending, next);
        ListsAbove(pending, next, queued);
        CreateInOrder(next, stuck[0].txHash, stuck[0].event.snapshotCid, stuck[0].event.timestamp, queued);
      } else if |stuck| == 0 && cfg.useConsensus && cfg.epochSize.Some? && cfg.firstEpochEnd.Some? {
        var earliest := Earliest(seen, next + 1, height);
        FillMissing(next, earliest, env);
        var queued := ZRangeByScore(pending, next + 1);
        CreateInOrder(next, cfg.dummyTxHash, FillCid(cfg, env, next), env.now, queued);
      }
    }

    /** `_payload_to_dag_processor_task`. */
    method ProcessCallback(cb: Callback, env: Env)
      requires cfg.segmentSize > 0 && env.cut.NoCut?
      modifies this
      ensures View() == Process(cfg, old(View()), cb, env)
    {
      hide InOrder, Heal, Lists, Find, Resubmit, SaveEvent;
      var finalized := blockHeight;
      var h := cb.height;
      if h <= finalized {
        pending := pending - {h};
        discarded := discarded[cb.requestID := h];
        return;
      }
      var found := Find(At(pending, h), cb.requestID);
      if found.None? {
        discarded := discarded[cb.requestID := h];
      } else if h == finalized + 1 {
        var queued := ZRangeByScore(pending, h + 1);
        CreateInOrder(h, cb.txHash, cb.snapshotCid, cb.timestamp, queued);
      } else {
        SaveEventData(found.value, cb);
        var seen := pending;
        ResubmitStale(h);
        if h > finalized + HEALING_THRESHOLD - 1 {
          HealChain(seen, h, env);
        }
      }
    }
  }
}
