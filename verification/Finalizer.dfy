/** What one delivery of a finalization callback does to a project's keys. */
module Finalizer {
  import opened Wrappers
  import opened Store
  import opened Sets
  import Decimal

  /** Settings, the two epoch keys that payload-commit stores for a project, and the all-zero
      transaction hash of blocks that no transaction backs. */
  datatype Config = Config(
    segmentSize: int,
    useConsensus: bool,
    epochSize: Option<int>,
    firstEpochEnd: Option<int>,
    dummyTxHash: string)

  datatype Callback = Callback(txHash: string, requestID: string, height: int, snapshotCid: string, timestamp: int)

  /** One answer of the consensus service; a missing answer is an answer that could not be parsed. */
  datatype Reply = Achieved(snapshotCid: string) | NotAchieved

  /** What a delivery reads from the outside world: consensus answers per tentative
      height, the request IDs and timestamps of the entries it makes up, and whether
      the process dies while it works. */
  datatype Env = Env(replies: map<int, Reply>, ids: int -> string, clock: int -> int, now: int, cut: Cut)

  /** A process death (or an exception) after some number of complete blocks: before the
      next block's height is written, after the next block is indexed but before its
      pending entry is cleared, or right after those complete blocks. */
  datatype Cut = NoCut | BeforeHeight(blocks: nat) | AfterIndex(blocks: nat) | AfterClear(blocks: nat)

  const HEALING_THRESHOLD := 5
  const RESUBMISSION_WAIT := 10

  // --- one block -----------------------------------------------------------

  /** A segment ends just before this height. */
  predicate Boundary(segmentSize: int, h: int)
    requires segmentSize > 0
  {
    h > segmentSize && h % segmentSize == 1
  }

  /** `_identify_prune_target`: the segment that ends at h-1 begins after the last recorded segment. */
  ghost function IdentifyPruneTarget(st: Project, h: int): Project
    requires GetDagCid(st, h - 1).Some?
  {
    var begin := if st.segments == map[] then 1 else st.segments[MaxOf(st.segments.Keys)].endHeight + 1;
    st.(segments := st.segments[h - 1 := Segment(begin, h - 1, GetDagCid(st, h - 1).value, PendingStorage)])
  }

  /** A boundary whose parent is not indexed raises before anything is written. */
  predicate Raises(cfg: Config, st: Project, h: int)
    requires cfg.segmentSize > 0
  {
    Boundary(cfg.segmentSize, h) && GetDagCid(st, h - 1).None?
  }

  predicate IsNull(snapshotCid: string) {
    |snapshotCid| >= 4 && snapshotCid[..4] == "null"
  }

  /** The block's payload link: absent for a null or empty snapshot CID. */
  function DataOf(snapshotCid: string): Option<string> {
    if IsNull(snapshotCid) || snapshotCid == "" then None else Some(snapshotCid)
  }

  /** The block that `create_dag_block` assembles on top of a parent. */
  function BlockOn(cfg: Config, parent: Option<Cid>, h: int, txHash: string, snapshotCid: string, timestamp: int): Cid
    requires cfg.segmentSize > 0
  {
    if Boundary(cfg.segmentSize, h) then
      CidOf(Block(h, None, parent, DataOf(snapshotCid), txHash, timestamp))
    else
      CidOf(Block(h, parent, None, DataOf(snapshotCid), txHash, timestamp))
  }

  /** The key writes of `create_dag_block`: blockHeight, lastDagCid, Cids. */
  function WriteBlock(st: Project, h: nat, c: Cid): Project {
    st.(blockHeight := h,
        lastDagCid := Some(c),
        cids := if c in At(st.cids, h) then st.cids else st.cids[h := At(st.cids, h) + [c]])
  }

  function ClearPending(st: Project, h: int): Project {
    st.(pending := st.pending - {h})
  }

  ghost function WithSegment(cfg: Config, st: Project, h: int): Project
    requires cfg.segmentSize > 0 && !Raises(cfg, st, h)
  {
    if Boundary(cfg.segmentSize, h) then IdentifyPruneTarget(st, h) else st
  }

  /** One indexed block whose pending entry is still there. */
  ghost function IndexBlock(cfg: Config, st: Project, h: nat, txHash: string, snapshotCid: string,
                            timestamp: int): Project
    requires cfg.segmentSize > 0 && !Raises(cfg, st, h)
  {
    WriteBlock(WithSegment(cfg, st, h), h,
               BlockOn(cfg, GetDagCid(st, h - 1), h, txHash, snapshotCid, timestamp))
  }

  ghost function CreateBlock(cfg: Config, st: Project, h: nat, txHash: string, snapshotCid: string,
                             timestamp: int): (r: Project)
    requires cfg.segmentSize > 0 && !Raises(cfg, st, h)
    ensures r.pending == st.pending - {h} && r.blockHeight == h
    ensures r.discarded == st.discarded && r.payloadCids == st.payloadCids
  {
    ClearPending(IndexBlock(cfg, st, h, txHash, snapshotCid, timestamp), h)
  }

  // --- in-order creation and the queue ---------------------------------------

  /** `_in_order_block_creation_and_state_update`: the block at h, then the queue. */
  ghost function InOrder(cfg: Config, st: Project, h: nat, txHash: string, snapshotCid: string, timestamp: int,
                         cut: Cut): Project
    requires cfg.segmentSize > 0
    decreases |st.pending - {h}|, 1
  {
    hide CreateBlock, IndexBlock, WithSegment;
    if Raises(cfg, st, h) then st
    else match cut
      case BeforeHeight(0) => WithSegment(cfg, st, h)
      case AfterIndex(0) => IndexBlock(cfg, st, h, txHash, snapshotCid, timestamp)
      case AfterClear(0) => CreateBlock(cfg, st, h, txHash, snapshotCid, timestamp)
      case _ => Drain(cfg, CreateBlock(cfg, st, h, txHash, snapshotCid, timestamp), OneLess(cut))
  }

  function OneLess(cut: Cut): Cut {
    match cut
    case NoCut => NoCut
    case BeforeHeight(k) => BeforeHeight(if k == 0 then 0 else k - 1)
    case AfterIndex(k) => AfterIndex(if k == 0 then 0 else k - 1)
    case AfterClear(k) => AfterClear(if k == 0 then 0 else k - 1)
  }

  /** The queue: as long as the next height has a confirmed entry, its first one becomes a block. */
  ghost function Drain(cfg: Config, st: Project, cut: Cut): Project
    requires cfg.segmentSize > 0
    decreases |st.pending|, 0
  {
    var next := st.blockHeight + 1;
    var queued := ConfirmedIn(At(st.pending, next));
    if queued == [] then st
    else
      SmallerWithout(st.pending, next);
      InOrder(cfg, st, next, queued[0].event.txHash, queued[0].event.snapshotCid, queued[0].event.timestamp, cut)
  }

  // --- a callback ------------------------------------------------------------

  function Discard(st: Project, cb: Callback): Project {
    st.(discarded := st.discarded[cb.requestID := cb.height])
  }

  /** `discard_event`: the entries at the callback's height go too. */
  function DiscardLate(st: Project, cb: Callback): Project {
    Discard(ClearPending(st, cb.height), cb)
  }

  /** `update_pending_tx_block_touch` with the new entry spelled out: out with the old, in with the new. */
  function Replace(z: map<int, seq<Pending>>, h: int, e: Pending, e': Pending): map<int, seq<Pending>> {
    ZAdd(ZRem(z, h, e), h, e')
  }

  /** The entry that `save_event_data` stores: confirmed, with the callback's data. */
  function Saved(e: Pending, cb: Callback): Pending {
    e.(lastTouched := CALLBACK_RECEIVED, event := EventData(cb.txHash, cb.snapshotCid, cb.timestamp), hasData := true)
  }

  function SaveEvent(st: Project, e: Pending, cb: Callback): Project {
    st.(pending := Replace(st.pending, cb.height, e, Saved(e, cb)))
  }

  function LastFresh(b: seq<Pending>): (r: Option<Pending>)
    ensures r.Some? ==> r.value in b && r.value.lastTouched == 0
    ensures r.Some? ==>
              exists i :: 0 <= i < |b| && b[i] == r.value && forall j | i < j < |b| :: b[j].lastTouched != 0
    ensures r.None? ==> forall p | p in b :: p.lastTouched != 0
  {
    if b == [] then None
    else if b[|b| - 1].lastTouched == CALLBACK_PENDING then Some(b[|b| - 1])
    else LastFresh(b[..|b| - 1])
  }

  /** The entry of one height that a callback at `height` resubmits: unconfirmed for ten heights. One that
      was stored without its commit data cannot be sent again and is left alone. */
  function Touched(b: seq<Pending>, height: int): seq<Pending> {
    var last := LastFresh(b);
    if last.None? || !last.value.hasData then b
    else
      var e := last.value.(lastTouched := height);
      var rest := Without(b, last.value);
      if e in rest then rest else Insert(rest, e)
  }

  function TouchedIn(z: map<int, seq<Pending>>, lo: int, hi: int, height: int): map<int, seq<Pending>> {
    map k | k in z :: if lo <= k <= hi then Touched(z[k], height) else z[k]
  }

  /** The resubmission pass of an out-of-order callback at a height. */
  function Resubmit(st: Project, height: int): Project {
    st.(pending := TouchedIn(st.pending, st.blockHeight + 1, height - RESUBMISSION_WAIT, height))
  }

  function EpochEnd(epochSize: int, firstEpochEnd: int, k: int): int {
    (k - 1) * epochSize + firstEpochEnd
  }

  /** The snapshot CID used for a missing height: the consensus answer, else a null marker. */
  function FillCid(cfg: Config, env: Env, k: int): string
    requires cfg.epochSize.Some? && cfg.firstEpochEnd.Some?
  {
    if k in env.replies && env.replies[k].Achieved? then env.replies[k].snapshotCid
    else "null_" + Decimal.IntText(EpochEnd(cfg.epochSize.value, cfg.firstEpochEnd.value, k))
  }

  predicate Reached(env: Env, k: int) {
    k in env.replies && env.replies[k].Achieved?
  }

  function FillEntry(cfg: Config, env: Env, k: int): Pending
    requires cfg.epochSize.Some? && cfg.firstEpochEnd.Some?
  {
    var event := EventData(cfg.dummyTxHash, FillCid(cfg, env, k), env.clock(k));
    Pending(cfg.dummyTxHash, env.ids(k), CALLBACK_RECEIVED, event, true)
  }

  /** payloadCids entries of the missing heights without consensus are removed first. */
  function DropUnreached(env: Env, z: map<string, int>, lo: int, hi: int): map<string, int>
    decreases hi - lo
  {
    if hi <= lo then z
    else
      var z' := DropUnreached(env, z, lo, hi - 1);
      if Reached(env, hi - 1) then z' else DropPayloadsAt(z', hi - 1)
  }

  /** Then the CID of every missing height lo..hi-1 is added. */
  function AddFills(cfg: Config, env: Env, z: map<string, int>, lo: int, hi: int): map<string, int>
    requires cfg.epochSize.Some? && cfg.firstEpochEnd.Some?
    decreases hi - lo
  {
    if hi <= lo then z else AddFills(cfg, env, z, lo, hi - 1)[FillCid(cfg, env, hi - 1) := hi - 1]
  }

  function AddFillEntries(cfg: Config, env: Env, z: map<int, seq<Pending>>, lo: int, hi: int): map<int, seq<Pending>>
    requires cfg.epochSize.Some? && cfg.firstEpochEnd.Some?
    decreases hi - lo
  {
    if hi <= lo then z else ZAdd(AddFillEntries(cfg, env, z, lo, hi - 1), hi - 1, FillEntry(cfg, env, hi - 1))
  }

  /** The writes that give every height lo..hi-1 a confirmed entry. */
  function Fill(cfg: Config, st: Project, env: Env, lo: int, hi: int): Project
    requires cfg.epochSize.Some? && cfg.firstEpochEnd.Some?
  {
    st.(payloadCids := AddFills(cfg, env, DropUnreached(env, st.payloadCids, lo, hi), lo, hi),
        pending := AddFillEntries(cfg, env, st.pending, lo, hi))
  }

  /** The lowest height in lo..hi with a confirmed entry, hi when there is none below it. */
  function Earliest(z: map<int, seq<Pending>>, lo: int, hi: int): (k: int)
    ensures lo <= hi ==> lo <= k <= hi
    ensures forall j | lo <= j < k :: ConfirmedIn(At(z, j)) == []
    ensures k < hi ==> ConfirmedIn(At(z, k)) != []
    decreases hi - lo
  {
    if lo >= hi || ConfirmedIn(At(z, lo)) != [] then (if lo > hi then hi else lo) else Earliest(z, lo + 1, hi)
  }

  /** Gives every height below `earliest` an entry and works the queue off from the finalized height. */
  ghost function FillFrom(cfg: Config, st: Project, earliest: int, env: Env): Project
    requires cfg.segmentSize > 0 && cfg.epochSize.Some? && cfg.firstEpochEnd.Some?
  {
    var next := st.blockHeight + 1;
    InOrder(cfg, Fill(cfg, st, env, next, earliest), next, cfg.dummyTxHash, FillCid(cfg, env, next), env.now, env.cut)
  }

  /** Self-healing once the callback height is five past the finalized height. `seen` are
      the pending entries as they were before the resubmission pass. */
  ghost function Heal(cfg: Config, st: Project, seen: map<int, seq<Pending>>, height: int, env: Env): Project
    requires cfg.segmentSize > 0
  {
    var next := st.blockHeight + 1;
    var stuck := ConfirmedIn(At(seen, next));
    if |stuck| == 1 then
      InOrder(cfg, st, next, stuck[0].txHash, stuck[0].event.snapshotCid, stuck[0].event.timestamp, env.cut)
    else if |stuck| > 1 || !cfg.useConsensus || cfg.epochSize.None? || cfg.firstEpochEnd.None? then st
    else FillFrom(cfg, st, Earliest(seen, next + 1, height), env)
  }

  /** `_payload_to_dag_processor_task`. */
  ghost function Process(cfg: Config, st: Project, cb: Callback, env: Env): Project
    requires cfg.segmentSize > 0
  {
    var h := cb.height;
    if h <= st.blockHeight then DiscardLate(st, cb)
    else
      match Find(At(st.pending, h), cb.requestID)
      case None => Discard(st, cb)
      case Some(e) =>
        if h == st.blockHeight + 1 then
          InOrder(cfg, st, h, cb.txHash, cb.snapshotCid, cb.timestamp, env.cut)
        else
          var saved := SaveEvent(st, e, cb);
          var resubmitted := Resubmit(saved, h);
          if h > st.blockHeight + HEALING_THRESHOLD - 1
          then Heal(cfg, resubmitted, saved.pending, h, env)
          else resubmitted
  }
}
