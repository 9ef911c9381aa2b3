/** The reads of a verification cycle, and exactly when the payload index describes the chain. */
module PayloadIndex {
  import opened Wrappers
  import opened Store
  import opened PayloadMerge
  import opened GapScan
  import opened NullGaps
  import F = Finalizer
  import Sets

  type Ranges = map<string, (int, int)>

  /** What the DAG index has at a height: nothing, or a block with or without a payload. */
  datatype Slot = NoBlock | BlockWith(data: Option<string>)

  function SlotAt(st: Project, h: int): Slot {
    match GetDagCid(st, h)
    case None => NoBlock
    case Some(c) => BlockWith(c.block.data)
  }

  /** A member of the payloadCids zset with its score. */
  predicate Sits(z: map<string, int>, c: string, h: int) {
    c in z && z[c] == h
  }

  /** A payload index member stands for a block's payload: a null marker for none, else a payload that
      covers the same source range. */
  predicate Names(ranges: Ranges, m: string, data: Option<string>) {
    match data
    case None => F.IsNull(m)
    case Some(p) => !F.IsNull(m) && m in ranges && p in ranges && ranges[m] == ranges[p]
  }

  /** At a height, the payload index has one member where there is a block, the one that stands for its
      payload, and none where there is no block. */
  ghost predicate Fits(ranges: Ranges, z: map<string, int>, h: int, slot: Slot) {
    match slot
    case NoBlock => forall c :: !Sits(z, c, h)
    case BlockWith(data) => exists m :: Names(ranges, m, data) && forall c :: Sits(z, c, h) <==> c == m
  }

  // --- the two reads ------------------------------------------------------------------

  function Listed(text: Cid -> string, h: int, b: seq<Cid>): seq<DagEntry> {
    if b == [] then [] else [DagEntry(h, text(b[0]), "")] + Listed(text, h, b[1..])
  }

  /** ZRANGEBYSCORE on Cids, in score order; `text` is how a CID is written. */
  function DagRead(text: Cid -> string, st: Project, start: int, end: int): seq<DagEntry>
    decreases end - start
  {
    if end < start then [] else DagRead(text, st, start, end - 1) + Listed(text, end, At(st.cids, end))
  }

  /** ZRANGEBYSCORE on payloadCids: every member in the range once, in score order. */
  ghost predicate ListsPayloads(z: map<string, int>, start: int, end: int, s: seq<PayloadEntry>) {
    && (forall i, j | 0 <= i < j < |s| :: s[i].height <= s[j].height && s[i] != s[j])
    && (forall e :: e in s <==> start <= e.height <= end && Sits(z, e.member, e.height))
  }

  /** What a cycle that starts at a score reads from a project's keys. */
  ghost predicate ReadsFrom(text: Cid -> string, ranges: Ranges, st: Project, start: int, r: Reads) {
    && r.dag == DagRead(text, st, start, st.blockHeight)
    && ListsPayloads(st.payloadCids, start, st.blockHeight, r.payloads)
    && r.ranges == ranges
  }

  function RangeOf(ranges: Ranges, slot: Slot): Option<(int, int)> {
    if slot.BlockWith? && slot.data.Some? && slot.data.value in ranges then Some(ranges[slot.data.value]) else None
  }

  /** The finalized chain with the source ranges of its payloads. */
  function ChainRead(ranges: Ranges, st: Project, start: int, end: int): seq<Entry>
    decreases end - start
  {
    if end < start then [] else ChainRead(ranges, st, start, end - 1) + EntryAt(ranges, st, end)
  }

  function EntryAt(ranges: Ranges, st: Project, h: int): seq<Entry> {
    if SlotAt(st, h).NoBlock? then [] else [Entry(h, RangeOf(ranges, SlotAt(st, h)))]
  }

  predicate OneEach(st: Project, start: int, end: int) {
    forall h | start <= h <= end :: |At(st.cids, h)| <= 1
  }

  /** Every payload of the chain can be fetched. */
  predicate Fetchable(ranges: Ranges, st: Project, start: int, end: int) {
    forall h | start <= h <= end ::
      var slot := SlotAt(st, h); slot.BlockWith? && slot.data.Some? ==> slot.data.value in ranges
  }

  function DagHeights(d: seq<DagEntry>): (r: seq<int>)
    ensures |r| == |d| && forall i | 0 <= i < |r| :: r[i] == d[i].height
  {
    if d == [] then [] else DagHeights(d[..|d| - 1]) + [d[|d| - 1].height]
  }

  function PayloadHeights(p: seq<PayloadEntry>): (r: seq<int>)
    ensures |r| == |p| && forall i | 0 <= i < |r| :: r[i] == p[i].height
  {
    if p == [] then [] else PayloadHeights(p[..|p| - 1]) + [p[|p| - 1].height]
  }

  predicate Rising(a: seq<int>) {
    forall i, j | 0 <= i < j < |a| :: a[i] < a[j]
  }

  /** Both reads of the chain run through its blocks in step. */
  ghost predicate InStep(ranges: Ranges, st: Project, start: int, end: int, d: seq<DagEntry>, s: seq<Entry>) {
    && |d| == |s|
    && Rising(DagHeights(d))
    && (forall h :: h in DagHeights(d) <==> start <= h <= end && SlotAt(st, h).BlockWith?)
    && (forall i | 0 <= i < |d| :: s[i] == Entry(d[i].height, RangeOf(ranges, SlotAt(st, d[i].height))))
  }

  lemma ListedOne(text: Cid -> string, st: Project, h: int)
    requires |At(st.cids, h)| <= 1
    ensures Listed(text, h, At(st.cids, h)) ==
            if SlotAt(st, h).NoBlock? then [] else [DagEntry(h, text(GetDagCid(st, h).value), "")]
  {
    var b := At(st.cids, h);
    if b != [] {
      assert b[1..] == [] && Listed(text, h, b) == [DagEntry(h, text(b[0]), "")] + Listed(text, h, []);
    }
  }

  lemma RisingMore(a: seq<int>, x: int)
    requires Rising(a) && forall h | h in a :: h < x
    ensures Rising(a + [x])
  {
    forall i | 0 <= i < |a| ensures a[i] < x {
      assert a[i] in a;
    }
  }

  lemma DagHeightsMore(d: seq<DagEntry>, e: DagEntry)
    ensures DagHeights(d + [e]) == DagHeights(d) + [e.height]
  {
    assert (d + [e])[..|d|] == d;
  }

  lemma InStepMore(ranges: Ranges, st: Project, start: int, end: int, d: seq<DagEntry>, s: seq<Entry>, e: DagEntry)
    requires start <= end && InStep(ranges, st, start, end - 1, d, s) && SlotAt(st, end).BlockWith? && e.height == end
    ensures InStep(ranges, st, start, end, d + [e], s + [Entry(end, RangeOf(ranges, SlotAt(st, end)))])
  {
    hide SlotAt, RangeOf, DagHeights, Rising;
    DagHeightsMore(d, e);
    RisingMore(DagHeights(d), end);
  }

  lemma InStepSame(ranges: Ranges, st: Project, start: int, end: int, d: seq<DagEntry>, s: seq<Entry>)
    requires start <= end && InStep(ranges, st, start, end - 1, d, s) && SlotAt(st, end).NoBlock?
    ensures InStep(ranges, st, start, end, d, s)
  {
    hide SlotAt, RangeOf, DagHeights;
  }

  lemma {:induction false} ReadsInStep(text: Cid -> string, ranges: Ranges, st: Project, start: int, end: int)
    requires OneEach(st, start, end)
    ensures InStep(ranges, st, start, end, DagRead(text, st, start, end), ChainRead(ranges, st, start, end))
    decreases end - start
  {
    if start <= end {
      hide SlotAt, RangeOf, InStep, Listed;
      ReadsInStep(text, ranges, st, start, end - 1);
      var d, s := DagRead(text, st, start, end - 1), ChainRead(ranges, st, start, end - 1);
      ListedOne(text, st, end);
      assert d + [] == d && s + [] == s;
      if SlotAt(st, end).BlockWith? {
        InStepMore(ranges, st, start, end, d, s, DagEntry(end, text(GetDagCid(st, end).value), ""));
      } else {
        InStepSame(ranges, st, start, end, d, s);
      }
    }
  }

  // --- the payload index describes the chain ---------------------------------------------

  lemma {:induction false} RisingLists(a: seq<int>, b: seq<int>)
    requires Rising(a) && Rising(b) && forall h :: h in a <==> h in b
    ensures a == b
    decreases |a|
  {
    forall i | 0 <= i < |a| ensures a[i] in b {
      assert a[i] in a;
    }
    forall i | 0 <= i < |b| ensures b[i] in a {
      assert b[i] in b;
    }
    assert |b| > 0 ==> b[0] in a;
    if a != [] {
      assert a[0] in b;
      var m, n := |a| - 1, |b| - 1;
      assert a[m] in b && b[n] in a;
      assert a[m] == b[n];
      forall h ensures h in a[..m] <==> h in b[..n] {
        assert h in a[..m] <==> h in a && h != a[m];
        assert h in b[..n] <==> h in b && h != b[n];
      }
      RisingLists(a[..m], b[..n]);
      assert a == a[..m] + [a[m]] && b == b[..n] + [b[n]];
    }
  }

  lemma PayloadHeightsAre(z: map<string, int>, start: int, end: int, p: seq<PayloadEntry>, h: int)
    requires ListsPayloads(z, start, end, p)
    ensures h in PayloadHeights(p) <==> start <= h <= end && exists c :: Sits(z, c, h)
  {
    var b := PayloadHeights(p);
    if h in b {
      var j :| 0 <= j < |b| && b[j] == h;
      assert p[j] in p && Sits(z, p[j].member, h);
    }
    if start <= h <= end && exists c :: Sits(z, c, h) {
      var c :| Sits(z, c, h);
      assert PayloadEntry(h, c) in p;
      var j :| 0 <= j < |p| && p[j] == PayloadEntry(h, c);
      assert b[j] == h;
    }
  }

  /** One member per height makes the payload read strictly ascending. */
  lemma PayloadsRise(z: map<string, int>, start: int, end: int, p: seq<PayloadEntry>)
    requires ListsPayloads(z, start, end, p)
    requires forall h, c, c' | start <= h <= end && Sits(z, c, h) && Sits(z, c', h) :: c == c'
    ensures Rising(PayloadHeights(p))
  {
    forall i, j | 0 <= i < j < |p| ensures p[i].height < p[j].height {
      assert p[i] in p && p[j] in p;
      assert Sits(z, p[i].member, p[i].height) && Sits(z, p[j].member, p[j].height);
    }
  }

  lemma DescribedFits(ranges: Ranges, st: Project, start: int, end: int, r: Reads, s: seq<Entry>, h: int)
    requires InStep(ranges, st, start, end, r.dag, s) && Fetchable(ranges, st, start, end)
    requires ListsPayloads(st.payloadCids, start, end, r.payloads) && r.ranges == ranges
    requires Describes(r, s) && start <= h <= end
    ensures Fits(ranges, st.payloadCids, h, SlotAt(st, h))
  {
    hide SlotAt, F.IsNull, ListsPayloads, DagHeights, PayloadHeights;
    var z, p, a, slot := st.payloadCids, r.payloads, DagHeights(r.dag), SlotAt(st, h);
    assert a == PayloadHeights(p);
    PayloadHeightsAre(z, start, end, p, h);
    if slot.BlockWith? {
      assert h in a;
      var i :| 0 <= i < |a| && a[i] == h;
      forall c | Sits(z, c, h) ensures c == p[i].member {
        var j := PayloadPosition(z, start, end, p, h, c);
        assert a[j] == h;
      }
      var m :| Sits(z, m, h);
      assert m == p[i].member && Names(ranges, m, slot.data);
    }
  }

  lemma PayloadPosition(z: map<string, int>, start: int, end: int, p: seq<PayloadEntry>, h: int, c: string)
          returns (j: nat)
    requires ListsPayloads(z, start, end, p) && start <= h <= end && Sits(z, c, h)
    ensures j < |p| && p[j] == PayloadEntry(h, c)
  {
    assert PayloadEntry(h, c) in p;
    j :| j < |p| && p[j] == PayloadEntry(h, c);
  }

  lemma FitDescribes(ranges: Ranges, st: Project, start: int, end: int, r: Reads, s: seq<Entry>)
    requires InStep(ranges, st, start, end, r.dag, s) && Fetchable(ranges, st, start, end)
    requires ListsPayloads(st.payloadCids, start, end, r.payloads) && r.ranges == ranges
    requires forall h | start <= h <= end :: Fits(ranges, st.payloadCids, h, SlotAt(st, h))
    ensures Describes(r, s)
  {
    hide SlotAt, F.IsNull, ListsPayloads, DagHeights, PayloadHeights, Names, RangeOf;
    var z, p := st.payloadCids, r.payloads;
    forall h, c, c' | start <= h <= end && Sits(z, c, h) && Sits(z, c', h) ensures c == c' {
      AtMostOne(ranges, z, h, SlotAt(st, h), c, c');
    }
    PayloadsRise(z, start, end, p);
    var a, b := DagHeights(r.dag), PayloadHeights(p);
    forall h ensures h in a <==> h in b {
      PayloadHeightsAre(z, start, end, p, h);
      if start <= h <= end {
        SomeMember(ranges, z, h, SlotAt(st, h));
      }
    }
    RisingLists(a, b);
    forall i | 0 <= i < |s|
      ensures r.dag[i].height == p[i].height == s[i].height
      ensures F.IsNull(p[i].member) <==> s[i].range.None?
      ensures s[i].range.Some? ==> p[i].member in ranges && ranges[p[i].member] == s[i].range.value
    {
      assert a[i] == b[i] && a[i] in a;
      SitsThere(z, start, end, p, i);
      NamedRange(ranges, z, p[i].height, p[i].member, SlotAt(st, p[i].height));
    }
  }

  lemma AtMostOne(ranges: Ranges, z: map<string, int>, h: int, slot: Slot, c: string, c': string)
    requires Fits(ranges, z, h, slot) && Sits(z, c, h) && Sits(z, c', h)
    ensures c == c'
  {
  }

  lemma SomeMember(ranges: Ranges, z: map<string, int>, h: int, slot: Slot)
    requires Fits(ranges, z, h, slot)
    ensures slot.BlockWith? <==> exists c :: Sits(z, c, h)
  {
    if slot.BlockWith? {
      var m :| Names(ranges, m, slot.data) && forall c :: Sits(z, c, h) <==> c == m;
      assert Sits(z, m, h);
    }
  }

  lemma SitsThere(z: map<string, int>, start: int, end: int, p: seq<PayloadEntry>, i: nat)
    requires ListsPayloads(z, start, end, p) && i < |p|
    ensures start <= p[i].height <= end && Sits(z, p[i].member, p[i].height)
  {
    assert p[i] in p;
  }

  lemma NamedRange(ranges: Ranges, z: map<string, int>, h: int, m: string, slot: Slot)
    requires Fits(ranges, z, h, slot) && Sits(z, m, h)
    requires slot.BlockWith? && slot.data.Some? ==> slot.data.value in ranges
    ensures F.IsNull(m) <==> RangeOf(ranges, slot).None?
    ensures RangeOf(ranges, slot).Some? ==> m in ranges && ranges[m] == RangeOf(ranges, slot).value
  {
    hide F.IsNull;
  }

  /** The reads of a cycle describe the chain exactly when, at every height from the start on, the payload
      index has one member per block, standing for its payload, and nothing else. */
  lemma DescribesExactly(text: Cid -> string, ranges: Ranges, st: Project, start: int, r: Reads)
    requires OneEach(st, start, st.blockHeight) && Fetchable(ranges, st, start, st.blockHeight)
    requires ReadsFrom(text, ranges, st, start, r)
    ensures Describes(r, ChainRead(ranges, st, start, st.blockHeight)) <==>
            forall h | start <= h <= st.blockHeight :: Fits(ranges, st.payloadCids, h, SlotAt(st, h))
  {
    hide Fits, Describes, InStep, ListsPayloads, SlotAt, Fetchable;
    var s := ChainRead(ranges, st, start, st.blockHeight);
    ReadsInStep(text, ranges, st, start, st.blockHeight);
    if Describes(r, s) {
      forall h | start <= h <= st.blockHeight ensures Fits(ranges, st.payloadCids, h, SlotAt(st, h)) {
        DescribedFits(ranges, st, start, st.blockHeight, r, s, h);
      }
    }
    if forall h | start <= h <= st.blockHeight :: Fits(ranges, st.payloadCids, h, SlotAt(st, h)) {
      FitDescribes(ranges, st, start, st.blockHeight, r, s);
    }
  }

  /** Two payload index members at one height of a chain stop its verification: whatever the order of
      equal scores and whatever IPFS returns, the merge does not succeed, and the cycle reports nothing. */
  lemma TwoMembersStopVerification(text: Cid -> string, ranges: Ranges, st: Project, start: int, r: Reads, h: int,
                                   c: string, c': string)
    requires OneEach(st, start, st.blockHeight) && ReadsFrom(text, ranges, st, start, r)
    requires start <= h <= st.blockHeight && c != c' && Sits(st.payloadCids, c, h) && Sits(st.payloadCids, c', h)
    ensures !Merge(r.dag, r.payloads, 0, r.ipfs).Merged?
  {
    hide Merge, DagRead, ChainRead, SlotAt, InStep, ListsPayloads, OneEach, OneBlockPerHeight;
    ReadsInStep(text, ranges, st, start, st.blockHeight);
    StepsRise(ranges, st, start, st.blockHeight, r.dag, ChainRead(ranges, st, start, st.blockHeight));
    MergeSucceedsExactly(r.dag, r.payloads, 0, r.ipfs);
    var i := PayloadPosition(st.payloadCids, start, st.blockHeight, r.payloads, h, c);
    var j := PayloadPosition(st.payloadCids, start, st.blockHeight, r.payloads, h, c');
    AlignedRises(r.dag, r.payloads);
  }

  lemma StepsRise(ranges: Ranges, st: Project, start: int, end: int, d: seq<DagEntry>, s: seq<Entry>)
    requires InStep(ranges, st, start, end, d, s)
    ensures OneBlockPerHeight(d)
  {
    hide SlotAt, RangeOf;
    forall i, j | 0 <= i < j < |d| ensures d[i].height < d[j].height {
      assert DagHeights(d)[i] < DagHeights(d)[j];
    }
  }

  lemma AlignedRises(d: seq<DagEntry>, p: seq<PayloadEntry>)
    requires OneBlockPerHeight(d)
    ensures |p| <= |d| && (forall k | 0 <= k < |p| :: d[k].height == p[k].height) ==>
              forall i, j | 0 <= i < j < |p| :: p[i].height < p[j].height
  {
  }

  // --- the payload read exists ------------------------------------------------------------

  lemma {:induction false} MembersCanBeListed(members: set<string>, h: int) returns (s: seq<PayloadEntry>)
    ensures forall i | 0 <= i < |s| :: s[i].height == h
    ensures forall i, j | 0 <= i < j < |s| :: s[i] != s[j]
    ensures forall e :: e in s <==> e.height == h && e.member in members
    decreases |members|
  {
    s := [];
    if |members| > 0 {
      var c := Sets.Member(members);
      var rest := MembersCanBeListed(members - {c}, h);
      assert PayloadEntry(h, c) !in rest;
      s := rest + [PayloadEntry(h, c)];
    }
  }

  lemma {:induction false} PayloadsCanBeListed(z: map<string, int>, start: int, end: int) returns (s: seq<PayloadEntry>)
    ensures ListsPayloads(z, start, end, s)
    decreases end - start
  {
    s := [];
    if start <= end {
      var below := PayloadsCanBeListed(z, start, end - 1);
      var top := MembersCanBeListed((set c | c in z && z[c] == end), end);
      forall i | 0 <= i < |below| ensures below[i].height < end {
        assert below[i] in below;
      }
      s := below + top;
    }
  }
}
