/** The pending entries of a height as Redis lists them: in order and without repetitions, in every run. */
module PendingOrder {
  import opened Wrappers
  import opened Store
  import opened Finalizer
  import opened ChainInvariant
  import Sets

  // --- text order ------------------------------------------------------------------

  /** Text order is decided by the first difference; a proper prefix comes first. */
  lemma {:induction false} LexLessExactly(a: string, b: string)
    ensures LexLess(a, b) <==>
            exists i :: 0 <= i <= |a| && i < |b| && a[..i] == b[..i] && (i == |a| || a[i] < b[i])
  {
    if a != "" && b != "" && a[0] == b[0] {
      var s, t := a[1..], b[1..];
      assert a == [a[0]] + s && b == [b[0]] + t;
      LexLessExactly(s, t);
      if i :| 0 <= i <= |s| && i < |t| && s[..i] == t[..i] && (i == |s| || s[i] < t[i]) {
        assert a[..i + 1] == [a[0]] + s[..i] && b[..i + 1] == [b[0]] + t[..i];
      }
      if i :| 0 <= i <= |a| && i < |b| && a[..i] == b[..i] && (i == |a| || a[i] < b[i]) {
        assert s[..i - 1] == a[..i][1..] && t[..i - 1] == b[..i][1..];
      }
    } else if b != "" && (a == "" || a[0] < b[0]) {
      assert a[..0] == b[..0];
    } else {
      forall i | 0 < i <= |a| && i < |b| ensures a[..i] != b[..i] {
        assert a[..i][0] == a[0] && b[..i][0] == b[0];
      }
    }
  }

  lemma {:induction false} LexLessIsTotal(a: string, b: string)
    ensures LexLess(a, b) || LexLess(b, a) || a == b
    ensures !(LexLess(a, b) && LexLess(b, a)) && !LexLess(a, a)
  {
    if a != "" {
      LexLessIsTotal(a[1..], if b == "" then "" else b[1..]);
      assert b != "" && a[0] == b[0] && a[1..] == b[1..] ==> a == [a[0]] + a[1..] == b;
    }
  }

  lemma {:induction false} LexLessIsTransitive(a: string, b: string, c: string)
    requires LexLess(a, b) && LexLess(b, c)
    ensures LexLess(a, c)
  {
    if a != "" && a[0] == b[0] == c[0] {
      LexLessIsTransitive(a[1..], b[1..], c[1..]);
    }
  }

  // --- one bucket ----------------------------------------------------------------------

  predicate Before(p: Pending, q: Pending) {
    LexLess(p.txHash, q.txHash) || (p.txHash == q.txHash && LexLess(p.requestID, q.requestID))
  }

  /** No entry twice, and none ahead of one that sorts before it. */
  predicate Listed(b: seq<Pending>) {
    forall i, j | 0 <= i < j < |b| :: b[i] != b[j] && !Before(b[j], b[i])
  }

  lemma BeforeIsOrder(p: Pending, q: Pending, r: Pending)
    ensures Before(p, q) && !Before(r, q) ==> !Before(r, p)
    ensures !(Before(p, q) && Before(q, p))
  {
    LexLessIsTotal(p.txHash, q.txHash);
    LexLessIsTotal(q.txHash, r.txHash);
    LexLessIsTotal(p.txHash, r.txHash);
    LexLessIsTotal(p.requestID, q.requestID);
    LexLessIsTotal(q.requestID, r.requestID);
    LexLessIsTotal(p.requestID, r.requestID);
    hide LexLess;
    if Before(p, q) && Before(r, p) {
      if LexLess(r.txHash, p.txHash) && LexLess(p.txHash, q.txHash) {
        LexLessIsTransitive(r.txHash, p.txHash, q.txHash);
      } else if r.txHash == p.txHash && p.txHash == q.txHash {
        LexLessIsTransitive(r.requestID, p.requestID, q.requestID);
      }
    }
  }

  lemma {:induction false} InsertKeepsListed(b: seq<Pending>, p: Pending)
    requires Listed(b) && p !in b
    ensures Listed(Insert(b, p))
  {
    hide LexLess;
    if b != [] {
      var rest := b[1..];
      assert b == [b[0]] + rest;
      if Precedes(p, b[0]) {
        forall j | 0 <= j < |b| ensures b[j] != p && !Before(b[j], p) {
          BeforeIsOrder(p, b[0], b[j]);
        }
      } else {
        InsertKeepsListed(rest, p);
        var more := Insert(rest, p);
        forall j | 0 <= j < |more| ensures more[j] != b[0] && !Before(more[j], b[0]) {
          assert more[j] in more;
          if more[j] != p {
            var k :| 0 <= k < |rest| && rest[k] == more[j];
            assert b[k + 1] == more[j];
          }
        }
        ListedFrom(b[0], more);
      }
    }
  }

  lemma ListedFrom(p: Pending, b: seq<Pending>)
    requires Listed(b) && forall j | 0 <= j < |b| :: b[j] != p && !Before(b[j], p)
    ensures Listed([p] + b)
  {
  }

  lemma {:induction false} WithoutKeepsListed(b: seq<Pending>, p: Pending)
    requires Listed(b)
    ensures Listed(Without(b, p))
  {
    hide Before;
    if b != [] {
      var rest := b[1..];
      assert b == [b[0]] + rest;
      WithoutKeepsListed(rest, p);
      var less := Without(rest, p);
      forall j | 0 <= j < |less| ensures less[j] != b[0] && !Before(less[j], b[0]) {
        assert less[j] in rest;
        var k :| 0 <= k < |rest| && rest[k] == less[j];
        assert b[k + 1] == less[j];
      }
      if b[0] != p {
        ListedFrom(b[0], less);
      }
    }
  }

  // --- every run --------------------------------------------------------------------------

  ghost predicate AllListed(z: map<int, seq<Pending>>) {
    forall k :: Listed(At(z, k))
  }

  lemma ZAddKeepsListed(z: map<int, seq<Pending>>, h: int, p: Pending)
    requires AllListed(z)
    ensures AllListed(ZAdd(z, h, p))
  {
    hide Listed, Insert;
    if p !in At(z, h) {
      InsertKeepsListed(At(z, h), p);
    }
    forall k ensures Listed(At(ZAdd(z, h, p), k)) {
      assert Listed(At(z, k));
    }
  }

  lemma NothingListed()
    ensures Listed([])
  {
  }

  lemma ZRemKeepsListed(z: map<int, seq<Pending>>, h: int, p: Pending)
    requires AllListed(z)
    ensures AllListed(ZRem(z, h, p))
  {
    hide Listed, Without;
    if h in z {
      assert At(z, h) == z[h];
      WithoutKeepsListed(z[h], p);
    }
    forall k ensures Listed(At(ZRem(z, h, p), k)) {
      assert Listed(At(z, k));
    }
  }

  lemma TouchedKeepsListed(b: seq<Pending>, height: int)
    requires Listed(b)
    ensures Listed(Touched(b, height))
  {
    hide Listed, LastFresh, Insert, Without;
    var last := LastFresh(b);
    if last.Some? {
      WithoutKeepsListed(b, last.value);
      if last.value.(lastTouched := height) !in Without(b, last.value) {
        InsertKeepsListed(Without(b, last.value), last.value.(lastTouched := height));
      }
    }
  }

  lemma ResubmitKeepsListed(st: Project, height: int)
    requires AllListed(st.pending)
    ensures AllListed(Resubmit(st, height).pending)
  {
    hide Listed, Touched;
    NothingListed();
    forall k ensures Listed(At(Resubmit(st, height).pending, k)) {
      assert Listed(At(st.pending, k));
      TouchedKeepsListed(At(st.pending, k), height);
    }
  }

  lemma {:induction false} FillsKeepListed(cfg: Config, env: Env, z: map<int, seq<Pending>>, lo: int, hi: int)
    requires cfg.epochSize.Some? && cfg.firstEpochEnd.Some? && AllListed(z)
    ensures AllListed(AddFillEntries(cfg, env, z, lo, hi))
    decreases hi - lo
  {
    hide AllListed, FillEntry, ZAdd;
    if lo < hi {
      FillsKeepListed(cfg, env, z, lo, hi - 1);
      ZAddKeepsListed(AddFillEntries(cfg, env, z, lo, hi - 1), hi - 1, FillEntry(cfg, env, hi - 1));
    }
  }

  /** Creating blocks takes entries away, a height at a time, and adds none. */
  ghost predicate Cleared(z: map<int, seq<Pending>>, z': map<int, seq<Pending>>) {
    forall k :: At(z', k) == At(z, k) || At(z', k) == []
  }

  lemma {:induction false} InOrderClears(cfg: Config, st: Project, h: int, txHash: string, snapshotCid: string,
                                         timestamp: int, cut: Cut)
    requires cfg.segmentSize > 0 && h >= 0
    ensures Cleared(st.pending, InOrder(cfg, st, h, txHash, snapshotCid, timestamp, cut).pending)
    decreases |st.pending - {h}|, 1
  {
    hide Cleared, IndexBlock, WithSegment, CreateBlock, ClearPending;
    ClearedAtOnce(cfg, st, h, txHash, snapshotCid, timestamp);
    if !Raises(cfg, st, h) && (match cut case BeforeHeight(0) => false case AfterIndex(0) => false
                                         case AfterClear(0) => false case _ => true)
    {
      var mid := CreateBlock(cfg, st, h, txHash, snapshotCid, timestamp);
      DrainClears(cfg, mid, OneLess(cut));
      ClearedTwice(st.pending, mid.pending, Drain(cfg, mid, OneLess(cut)).pending);
    }
  }

  lemma ClearedAtOnce(cfg: Config, st: Project, h: nat, txHash: string, snapshotCid: string, timestamp: int)
    requires cfg.segmentSize > 0
    ensures Cleared(st.pending, st.pending) && Cleared(st.pending, st.pending - {h})
    ensures !Raises(cfg, st, h) ==>
              && WithSegment(cfg, st, h).pending == st.pending
              && IndexBlock(cfg, st, h, txHash, snapshotCid, timestamp).pending == st.pending
              && CreateBlock(cfg, st, h, txHash, snapshotCid, timestamp).pending == st.pending - {h}
  {
  }

  lemma ClearedTwice(a: map<int, seq<Pending>>, b: map<int, seq<Pending>>, c: map<int, seq<Pending>>)
    requires Cleared(a, b) && Cleared(b, c)
    ensures Cleared(a, c)
  {
  }

  lemma {:induction false} DrainClears(cfg: Config, st: Project, cut: Cut)
    requires cfg.segmentSize > 0
    ensures Cleared(st.pending, Drain(cfg, st, cut).pending)
    decreases |st.pending|, 0
  {
    hide Cleared, ConfirmedIn;
    var next := st.blockHeight + 1;
    var queued := ConfirmedIn(At(st.pending, next));
    if queued == [] {
      ClearedAtOnce(cfg, st, next, "", "", 0);
    } else {
      assert queued[0] in At(st.pending, next);
      Sets.SmallerWithout(st.pending, next);
      var e := queued[0].event;
      InOrderClears(cfg, st, next, e.txHash, e.snapshotCid, e.timestamp, cut);
    }
  }

  lemma ClearedKeepsListed(z: map<int, seq<Pending>>, z': map<int, seq<Pending>>)
    requires AllListed(z) && Cleared(z, z')
    ensures AllListed(z')
  {
    NothingListed();
    hide Listed;
    forall k ensures Listed(At(z', k)) {
      assert Listed(At(z, k));
    }
  }

  lemma BlocksKeepListed(cfg: Config, st: Project, h: int, txHash: string, snapshotCid: string, timestamp: int,
                         cut: Cut)
    requires cfg.segmentSize > 0 && h >= 0 && AllListed(st.pending)
    ensures AllListed(InOrder(cfg, st, h, txHash, snapshotCid, timestamp, cut).pending)
  {
    hide InOrder, AllListed, Cleared;
    InOrderClears(cfg, st, h, txHash, snapshotCid, timestamp, cut);
    ClearedKeepsListed(st.pending, InOrder(cfg, st, h, txHash, snapshotCid, timestamp, cut).pending);
  }

  lemma HealKeepsListed(cfg: Config, st: Project, seen: map<int, seq<Pending>>, height: int, env: Env)
    requires cfg.segmentSize > 0 && AllListed(st.pending)
    ensures AllListed(Heal(cfg, st, seen, height, env).pending)
  {
    hide InOrder, AllListed, ConfirmedIn, Earliest, AddFillEntries, AddFills, DropUnreached, FillCid;
    var next := st.blockHeight + 1;
    var stuck := ConfirmedIn(At(seen, next));
    if |stuck| == 1 {
      BlocksKeepListed(cfg, st, next, stuck[0].txHash, stuck[0].event.snapshotCid, stuck[0].event.timestamp, env.cut);
    } else if stuck == [] && cfg.useConsensus && cfg.epochSize.Some? && cfg.firstEpochEnd.Some? {
      var earliest := Earliest(seen, next + 1, height);
      FillsKeepListed(cfg, env, st.pending, next, earliest);
      BlocksKeepListed(cfg, Fill(cfg, st, env, next, earliest), next, cfg.dummyTxHash, FillCid(cfg, env, next),
                       env.now, env.cut);
    }
  }

  lemma ProcessKeepsListed(cfg: Config, st: Project, cb: Callback, env: Env)
    requires cfg.segmentSize > 0 && AllListed(st.pending)
    ensures AllListed(Process(cfg, st, cb, env).pending)
  {
    hide InOrder, AllListed, Heal, Find, Resubmit, ZAdd, ZRem;
    var h := cb.height;
    var found := Find(At(st.pending, h), cb.requestID);
    if h <= st.blockHeight {
      HeightClearedKeepsListed(st.pending, h);
    } else if found.Some? {
      if h == st.blockHeight + 1 {
        BlocksKeepListed(cfg, st, h, cb.txHash, cb.snapshotCid, cb.timestamp, env.cut);
      } else {
        var e := found.value;
        ZRemKeepsListed(st.pending, h, e);
        ZAddKeepsListed(ZRem(st.pending, h, e), h, Saved(e, cb));
        var saved := SaveEvent(st, e, cb);
        ResubmitKeepsListed(saved, h);
        HealKeepsListed(cfg, Resubmit(saved, h), saved.pending, h, env);
      }
    }
  }

  lemma HeightClearedKeepsListed(z: map<int, seq<Pending>>, h: int)
    requires AllListed(z)
    ensures AllListed(z - {h})
  {
    ClearedKeepsListed(z, z - {h});
  }

  /** A process that dies while it rewrites pending entries leaves them as Redis lists them. */
  ghost predicate LeavesListed(ev: Event) {
    ev.Interrupted? ==> AllListed(ev.pending)
  }

  /** In every state of every run, whatever is submitted, resubmitted, delivered and healed: the entries of every
      height are in the order in which Redis lists them, and none is there twice. */
  lemma {:induction false} EveryRunIsListed(cfg: Config, events: seq<Event>)
    requires cfg.segmentSize > 0 && forall i | 0 <= i < |events| :: LeavesListed(events[i])
    ensures AllListed(Run(cfg, EMPTY, events).pending)
    decreases |events|
  {
    if events == [] {
      NothingListed();
    } else {
      var n := |events| - 1;
      EveryRunIsListed(cfg, events[..n]);
      assert LeavesListed(events[n]);
      StepKeepsListed(cfg, Run(cfg, EMPTY, events[..n]), events[n]);
    }
  }

  lemma StepKeepsListed(cfg: Config, st: Project, ev: Event)
    requires cfg.segmentSize > 0 && AllListed(st.pending) && LeavesListed(ev)
    ensures AllListed(Step(cfg, st, ev).pending)
  {
    hide AllListed, Process, ZAdd;
    match ev {
      case Deliver(cb, env) => ProcessKeepsListed(cfg, st, cb, env);
      case Submitted(h, e) => ZAddKeepsListed(st.pending, h, e);
      case Resubmitted(h, e) =>
        HeightClearedKeepsListed(st.pending, h);
        ZAddKeepsListed(st.pending - {h}, h, e);
      case Recorded(_, _) =>
      case Interrupted(_, _, _) =>
    }
  }

  // --- what payload-commit writes ----------------------------------------------------------

  /** A submitted commit joins the entries of its height, a resubmitted one replaces them, and a snapshot CID is
      recorded for one height, the last it was recorded for. Nothing else changes. */
  lemma CommitsWriteExactly(cfg: Config, st: Project, h: int, e: Pending, c: string)
    requires cfg.segmentSize > 0
    ensures var st' := Step(cfg, st, Submitted(h, e));
            && (forall p :: p in At(st'.pending, h) <==> p == e || p in At(st.pending, h))
            && (forall k | k != h :: At(st'.pending, k) == At(st.pending, k))
            && st' == st.(pending := st'.pending)
    ensures var st' := Step(cfg, st, Resubmitted(h, e));
            && At(st'.pending, h) == [e]
            && (forall k | k != h :: At(st'.pending, k) == At(st.pending, k))
            && st' == st.(pending := st'.pending)
    ensures var st' := Step(cfg, st, Recorded(h, c));
            && c in st'.payloadCids && st'.payloadCids[c] == h
            && (forall d | d != c :: d in st'.payloadCids <==> d in st.payloadCids)
            && (forall d | d != c && d in st.payloadCids :: st'.payloadCids[d] == st.payloadCids[d])
            && st' == st.(payloadCids := st'.payloadCids)
  {
    hide Process;
  }
}
