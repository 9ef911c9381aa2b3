/** What the queue of parked callbacks guarantees: an in-order delivery finalizes exactly the
    contiguous confirmed run, and no confirmed entry is ever left right above the chain. */
module Queue {
  import opened Store
  import opened Finalizer
  import opened ChainInvariant
  import opened Sets

  // --- confirmed entries of one height ---------------------------------------

  lemma NoneConfirmed()
    ensures ConfirmedIn([]) == []
  {
  }

  lemma ConfirmedFirst(p: Pending, b: seq<Pending>)
    ensures ConfirmedIn([p] + b) == (if Confirmed(p) then [p] else []) + ConfirmedIn(b)
  {
    assert ([p] + b)[1..] == b;
  }

  /** The confirmed entries of a height are listed where they stand, and no other is. */
  lemma {:induction false} ConfirmedInPlace(a: seq<Pending>, p: Pending, b: seq<Pending>)
    ensures ConfirmedIn(a + [p] + b) == ConfirmedIn(a) + (if p.lastTouched == -1 then [p] else []) + ConfirmedIn(b)
  {
    hide ConfirmedIn;
    if a == [] {
      NoneConfirmed();
      ConfirmedFirst(p, b);
      assert a + [p] + b == [p] + b;
    } else {
      var rest := a[1..];
      assert a == [a[0]] + rest;
      assert a + [p] + b == [a[0]] + (rest + [p] + b);
      ConfirmedInPlace(rest, p, b);
      ConfirmedFirst(a[0], rest + [p] + b);
      ConfirmedFirst(a[0], rest);
    }
  }

  lemma {:induction false} ConfirmedInsert(b: seq<Pending>, p: Pending)
    ensures !Confirmed(p) ==> ConfirmedIn(Insert(b, p)) == ConfirmedIn(b)
    ensures Confirmed(p) && ConfirmedIn(b) == [] ==> ConfirmedIn(Insert(b, p)) == [p]
  {
    hide ConfirmedIn, Confirmed, Precedes;
    if b == [] || Precedes(p, b[0]) {
      ConfirmedFirst(p, b);
      assert Insert(b, p) == [p] + b;
    } else {
      var rest := b[1..];
      assert b == [b[0]] + rest;
      ConfirmedInsert(rest, p);
      ConfirmedFirst(b[0], rest);
      ConfirmedFirst(b[0], Insert(rest, p));
    }
  }

  lemma {:induction false} ConfirmedWithout(b: seq<Pending>, p: Pending)
    requires !Confirmed(p)
    ensures ConfirmedIn(Without(b, p)) == ConfirmedIn(b)
  {
    if b != [] {
      ConfirmedWithout(b[1..], p);
      if b[0] != p {
        assert Without(b, p) == [b[0]] + Without(b[1..], p);
        assert Without(b, p)[1..] == Without(b[1..], p);
      } else {
        assert Without(b, p) == Without(b[1..], p) && ConfirmedIn(b) == ConfirmedIn(b[1..]);
      }
    }
  }

  lemma ConfirmedTouched(b: seq<Pending>, height: int)
    requires height != CALLBACK_RECEIVED
    ensures ConfirmedIn(Touched(b, height)) == ConfirmedIn(b)
  {
    var last := LastFresh(b);
    if last.Some? {
      ConfirmedWithout(b, last.value);
      ConfirmedInsert(Without(b, last.value), last.value.(lastTouched := height));
    }
  }

  // --- the run that a delivery finalizes ----------------------------------------

  /** m ends the run of consecutive heights above h that have a confirmed entry. */
  predicate IsRunEnd(z: map<int, seq<Pending>>, h: int, m: int) {
    && h <= m
    && (forall k | h < k <= m :: ConfirmedIn(At(z, k)) != [])
    && ConfirmedIn(At(z, m + 1)) == []
  }

  /** The block at k carries what the first confirmed entry of that height recorded. */
  ghost predicate CarriesQueued(z: map<int, seq<Pending>>, head: Cid, k: int) {
    var q := ConfirmedIn(At(z, k));
    q != [] && Carries(Ancestor(head, k), k, q[0].event.txHash, q[0].event.snapshotCid, q[0].event.timestamp)
  }

  /** The block links to the snapshot, unless that is empty or a null marker: then it links to nothing. */
  predicate LinksPayload(c: Cid, snapshotCid: string) {
    match c.block.data
    case Some(payload) => payload == snapshotCid && payload != "" && !IsNull(payload)
    case None => snapshotCid == "" || IsNull(snapshotCid)
  }

  /** Null markers are the texts that begin with null. */
  lemma NullMarkers(s: string)
    ensures IsNull(s) <==> exists rest :: s == "null" + rest
  {
    if IsNull(s) {
      assert s == "null" + s[4..];
    }
  }

  predicate Carries(c: Cid, k: int, txHash: string, snapshotCid: string, timestamp: int) {
    && c.block.height == k
    && LinksPayload(c, snapshotCid)
    && c.block.txHash == txHash
    && c.block.timestamp == timestamp
  }

  function Heights(lo: int, hi: int): (r: set<int>)
    ensures forall k :: k in r <==> lo <= k <= hi
    decreases hi - lo
  {
    if hi < lo then {} else Heights(lo, hi - 1) + {hi}
  }

  /** Everything that working off the queue from height h does, h being finalized already. */
  ghost predicate WorkedOff(cfg: Config, lo: int, st: Project, st': Project)
    requires cfg.segmentSize > 0
  {
    && Indexed(cfg, st', lo) && Extends(st, st')
    && IsRunEnd(st.pending, st.blockHeight, st'.blockHeight)
    && st'.pending == st.pending - Heights(st.blockHeight + 1, st'.blockHeight)
    && (forall k | st.blockHeight < k <= st'.blockHeight :: CarriesQueued(st.pending, st'.lastDagCid.value, k))
    && st'.payloadCids == st.payloadCids && st'.discarded == st.discarded
  }

  lemma {:induction false} DrainComplete(cfg: Config, st: Project, lo: int)
    requires cfg.segmentSize > 0 && Indexed(cfg, st, lo)
    ensures WorkedOff(cfg, lo, st, Drain(cfg, st, NoCut))
    decreases |st.pending|
  {
    hide ConfirmedIn, CreateBlock, Ancestor, WellLinked, LinksPayload, WorkedOff;
    var next := st.blockHeight + 1;
    var queued := ConfirmedIn(At(st.pending, next));
    var st' := Drain(cfg, st, NoCut);
    DrainKeepsIndex(cfg, st, lo, NoCut);
    if queued == [] {
      NothingQueued(cfg, lo, st);
    } else {
      assert queued[0] in At(st.pending, next);
      SmallerWithout(st.pending, next);
      var e := queued[0].event;
      CreateBlockEffect(cfg, st, lo, e.txHash, e.snapshotCid, e.timestamp);
      var mid := CreateBlock(cfg, st, next, e.txHash, e.snapshotCid, e.timestamp);
      assert st' == Drain(cfg, mid, NoCut);
      DrainComplete(cfg, mid, lo);
      WorkedOffMore(cfg, lo, st, mid, st');
    }
  }

  lemma NothingQueued(cfg: Config, lo: int, st: Project)
    requires cfg.segmentSize > 0 && Indexed(cfg, st, lo)
    requires ConfirmedIn(At(st.pending, st.blockHeight + 1)) == []
    ensures WorkedOff(cfg, lo, st, st)
  {
    assert Heights(st.blockHeight + 1, st.blockHeight) == {};
    assert st.pending - {} == st.pending;
  }

  lemma CreateBlockEffect(cfg: Config, st: Project, lo: int, txHash: string, snapshotCid: string, timestamp: int)
    requires cfg.segmentSize > 0 && Indexed(cfg, st, lo)
    ensures !Raises(cfg, st, st.blockHeight + 1)
    ensures var next := st.blockHeight + 1;
            var mid := CreateBlock(cfg, st, next, txHash, snapshotCid, timestamp);
            && Indexed(cfg, mid, lo) && Extends(st, mid)
            && mid.blockHeight == next
            && mid.pending == st.pending - {next}
            && Carries(Ancestor(mid.lastDagCid.value, next), next, txHash, snapshotCid, timestamp)
            && mid.payloadCids == st.payloadCids && mid.discarded == st.discarded
  {
    IndexBlockKeepsIndex(cfg, st, lo, txHash, snapshotCid, timestamp);
  }

  lemma WorkedOffMore(cfg: Config, lo: int, st: Project, mid: Project, st': Project)
    requires cfg.segmentSize > 0 && Indexed(cfg, mid, lo)
    requires mid.blockHeight == st.blockHeight + 1 && mid.pending == st.pending - {mid.blockHeight}
    requires Extends(st, mid) && WorkedOff(cfg, lo, mid, st')
    requires CarriesQueued(st.pending, mid.lastDagCid.value, mid.blockHeight)
    requires mid.payloadCids == st.payloadCids && mid.discarded == st.discarded
    ensures WorkedOff(cfg, lo, st, st')
  {
    hide ConfirmedIn, WellLinked, LinksPayload, Ancestor;
    var next := mid.blockHeight;
    ExtendsTransitive(st, mid, st');
    forall k | k != next ensures At(mid.pending, k) == At(st.pending, k) {
    }
    assert ConfirmedIn(At(mid.pending, st'.blockHeight + 1)) == [];
    forall k | st.blockHeight < k <= st'.blockHeight
      ensures ConfirmedIn(At(st.pending, k)) != []
      ensures CarriesQueued(st.pending, st'.lastDagCid.value, k)
    {
      if k > next {
        assert CarriesQueued(mid.pending, st'.lastDagCid.value, k);
      }
    }
    assert {next} + Heights(next + 1, st'.blockHeight) == Heights(next, st'.blockHeight);
  }

  /** The effect of an in-order delivery at blockHeight + 1: its own block, then exactly the
      consecutive heights that have a confirmed entry, each from its first one. */
  ghost predicate Finalized(cfg: Config, lo: int, st: Project, st': Project, txHash: string, snapshotCid: string,
                            timestamp: int)
    requires cfg.segmentSize > 0
  {
    var next := st.blockHeight + 1;
    && Indexed(cfg, st', lo) && Extends(st, st')
    && IsRunEnd(st.pending, next, st'.blockHeight)
    && st'.pending == st.pending - Heights(next, st'.blockHeight)
    && Carries(Ancestor(st'.lastDagCid.value, next), next, txHash, snapshotCid, timestamp)
    && (forall k | next < k <= st'.blockHeight :: CarriesQueued(st.pending, st'.lastDagCid.value, k))
    && st'.payloadCids == st.payloadCids && st'.discarded == st.discarded
  }

  lemma InOrderComplete(cfg: Config, st: Project, lo: int, txHash: string, snapshotCid: string, timestamp: int)
    requires cfg.segmentSize > 0 && Indexed(cfg, st, lo)
    ensures Finalized(cfg, lo, st, InOrder(cfg, st, st.blockHeight + 1, txHash, snapshotCid, timestamp, NoCut),
                      txHash, snapshotCid, timestamp)
  {
    hide CreateBlock, Drain, ConfirmedIn;
    var next := st.blockHeight + 1;
    CreateBlockEffect(cfg, st, lo, txHash, snapshotCid, timestamp);
    var mid := CreateBlock(cfg, st, next, txHash, snapshotCid, timestamp);
    var st' := InOrder(cfg, st, next, txHash, snapshotCid, timestamp, NoCut);
    assert st' == Drain(cfg, mid, NoCut);
    DrainComplete(cfg, mid, lo);
    FinalizedFrom(cfg, lo, st, mid, st', txHash, snapshotCid, timestamp);
  }

  lemma FinalizedFrom(cfg: Config, lo: int, st: Project, mid: Project, st': Project, txHash: string,
                      snapshotCid: string, timestamp: int)
    requires cfg.segmentSize > 0 && Indexed(cfg, mid, lo)
    requires mid.blockHeight == st.blockHeight + 1 && mid.pending == st.pending - {mid.blockHeight}
    requires Extends(st, mid) && WorkedOff(cfg, lo, mid, st')
    requires Carries(Ancestor(mid.lastDagCid.value, mid.blockHeight), mid.blockHeight, txHash, snapshotCid, timestamp)
    requires mid.payloadCids == st.payloadCids && mid.discarded == st.discarded
    ensures Finalized(cfg, lo, st, st', txHash, snapshotCid, timestamp)
  {
    hide ConfirmedIn, WellLinked, LinksPayload;
    var next := mid.blockHeight;
    ExtendsTransitive(st, mid, st');
    assert Ancestor(st'.lastDagCid.value, next) == Ancestor(mid.lastDagCid.value, next);
    forall k | k != next ensures At(mid.pending, k) == At(st.pending, k) {
    }
    assert ConfirmedIn(At(mid.pending, st'.blockHeight + 1)) == [];
    forall k | next < k <= st'.blockHeight
      ensures ConfirmedIn(At(st.pending, k)) != [] && CarriesQueued(st.pending, st'.lastDagCid.value, k)
    {
      assert CarriesQueued(mid.pending, st'.lastDagCid.value, k);
    }
    assert {next} + Heights(next + 1, st'.blockHeight) == Heights(next, st'.blockHeight);
  }
}
