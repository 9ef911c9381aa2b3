/** The Redis keys that the audit-protocol services share for one project,
    and the reads and writes that every service performs on them. */
module Store {
  import opened Wrappers

  /** A DAG block as it is stored on IPFS. `data` is the snapshot CID, absent for a null block. */
  datatype Block = Block(
    height: int,
    prevCid: Option<Cid>,
    prevRoot: Option<Cid>,
    data: Option<string>,
    txHash: string,
    timestamp: int)

  /** A content identifier. IPFS hashes content without collisions, so an
      identifier stands for exactly one block and gives that block back. */
  datatype Cid = CidOf(block: Block)

  /** What a finalization callback says about its snapshot. */
  datatype EventData = EventData(txHash: string, snapshotCid: string, timestamp: int)

  /** A member of the pendingTransactions zset; its score, the tentative height, is the map key below.
      `hasData` says whether `event` was stored with it. */
  datatype Pending = Pending(txHash: string, requestID: string, lastTouched: int, event: EventData, hasData: bool)

  datatype Storage = PendingStorage | Cold | Pruned

  datatype Segment = Segment(beginHeight: int, endHeight: int, endDagCid: Cid, storage: Storage)

  /** Zsets are maps from a score to the members with that score, in Redis order;
      discarded and payloadCids, which are looked up by member, are maps from member to score. */
  datatype Project = Project(
    blockHeight: nat,
    lastDagCid: Option<Cid>,
    cids: map<int, seq<Cid>>,
    pending: map<int, seq<Pending>>,
    discarded: map<string, int>,
    payloadCids: map<string, int>,
    segments: map<int, Segment>)

  const CALLBACK_PENDING := 0
  const CALLBACK_RECEIVED := -1

  // --- zset primitives ---------------------------------------------------

  /** The members of a zset with one score, as ZRANGEBYSCORE h h lists them. */
  function At<T>(z: map<int, seq<T>>, h: int): seq<T> {
    if h in z then z[h] else []
  }

  predicate LexLess(a: string, b: string) {
    b != "" && (a == "" || a[0] < b[0] || (a[0] == b[0] && LexLess(a[1..], b[1..])))
  }

  /** Redis breaks ties between equal scores by the member's bytes; an entry's text starts
      with its transaction hash, then its request ID. */
  predicate Precedes(a: Pending, b: Pending) {
    LexLess(a.txHash, b.txHash) || (a.txHash == b.txHash && LexLess(a.requestID, b.requestID))
  }

  function Insert(b: seq<Pending>, p: Pending): (r: seq<Pending>)
    ensures |r| == |b| + 1
    ensures multiset(r) == multiset(b) + multiset{p}
    ensures forall q :: q in r <==> q == p || q in b
  {
    if b == [] || Precedes(p, b[0]) then
      [p] + b
    else
      assert b == [b[0]] + b[1..];
      [b[0]] + Insert(b[1..], p)
  }

  /** ZADD of one entry: a set, so an entry that is already there stays once. */
  function ZAdd(z: map<int, seq<Pending>>, h: int, p: Pending): map<int, seq<Pending>> {
    if p in At(z, h) then z else z[h := Insert(At(z, h), p)]
  }

  function Without(b: seq<Pending>, p: Pending): (r: seq<Pending>)
    ensures forall q :: q in r <==> q in b && q != p
  {
    if b == [] then [] else (if b[0] == p then [] else [b[0]]) + Without(b[1..], p)
  }

  /** ZREM of one entry. */
  function ZRem(z: map<int, seq<Pending>>, h: int, p: Pending): map<int, seq<Pending>> {
    if h in z then z[h := Without(z[h], p)] else z
  }

  /** ZREMRANGEBYSCORE payloadCids h h. */
  function DropPayloadsAt(z: map<string, int>, h: int): map<string, int> {
    map c | c in z && z[c] != h :: z[c]
  }

  /** The first entry with a given request ID. */
  function Find(b: seq<Pending>, requestID: string): (r: Option<Pending>)
    ensures r.Some? ==> r.value in b && r.value.requestID == requestID
    ensures r.Some? ==>
              exists i :: 0 <= i < |b| && b[i] == r.value && forall j | 0 <= j < i :: b[j].requestID != requestID
    ensures r.None? <==> forall p | p in b :: p.requestID != requestID
  {
    if b == [] then None
    else if b[0].requestID == requestID then Some(b[0])
    else Find(b[1..], requestID)
  }

  predicate Confirmed(p: Pending) {
    p.lastTouched == CALLBACK_RECEIVED
  }

  function ConfirmedIn(b: seq<Pending>): (r: seq<Pending>)
    ensures forall p :: p in r <==> p in b && p.lastTouched == -1
  {
    if b == [] then [] else (if Confirmed(b[0]) then [b[0]] else []) + ConfirmedIn(b[1..])
  }

  // --- blocks and their links --------------------------------------------

  /** The block a walk visits next: `prevCid`, or `prevRoot` across a segment boundary. */
  function Parent(c: Cid): Option<Cid> {
    if c.block.prevCid.Some? then c.block.prevCid else c.block.prevRoot
  }

  /** The blocks seen when walking from a block to the root of its chain. */
  function Walk(c: Cid): seq<Cid>
    decreases c
  {
    [c] +
    match c.block.prevCid
    case Some(p) => Walk(p)
    case None =>
      match c.block.prevRoot
      case Some(r) => Walk(r)
      case None => []
  }

  /** The blocks seen when following prevCid alone, as a DAG export of a segment does. */
  function WalkSegment(c: Cid): seq<Cid>
    decreases c
  {
    [c] +
    match c.block.prevCid
    case Some(p) => WalkSegment(p)
    case None => []
  }

  // --- index reads --------------------------------------------------------

  /** `get_dag_cid`: the last member that the Cids zset holds at a height. */
  function GetDagCid(st: Project, h: int): (r: Option<Cid>)
    ensures r.Some? <==> |At(st.cids, h)| > 0
    ensures r.Some? ==> At(st.cids, h)[|At(st.cids, h)| - 1] == r.value
  {
    var b := At(st.cids, h);
    if b == [] then None else Some(b[|b| - 1])
  }

  /** `fetch_blocks`: the blocks from `to` down to `from`. A height without an
      index entry raises, which is the None result. */
  method FetchBlocks(st: Project, from: int, to: int) returns (blocks: Option<seq<Cid>>)
    ensures blocks.Some? <==> forall h | from <= h <= to :: GetDagCid(st, h).Some?
    ensures blocks.Some? ==> |blocks.value| == (if to < from then 0 else to - from + 1)
    ensures blocks.Some? ==>
              forall i | 0 <= i < |blocks.value| :: Some(blocks.value[i]) == GetDagCid(st, to - i)
  {
    var found: seq<Cid> := [];
    var current := to;
    while current >= from
      invariant current <= to && (from <= to ==> from - 1 <= current) && (to < from ==> current == to)
      invariant |found| == to - current
      invariant forall i | 0 <= i < |found| :: Some(found[i]) == GetDagCid(st, to - i)
    {
      var cid := GetDagCid(st, current);
      if cid.None? {
        return None;
      }
      found := found + [cid.value];
      current := current - 1;
    }
    blocks := Some(found);
    forall h | from <= h <= to ensures GetDagCid(st, h).Some? {
      assert Some(found[to - h]) == GetDagCid(st, to - (to - h));
    }
  }
}
