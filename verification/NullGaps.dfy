/** What the verifier reports about a chain whose payloads follow the epochs: its runs of null blocks. */
module NullGaps {
  import opened Wrappers
  import opened Store
  import opened GapScan
  import opened PayloadMerge
  import opened Epochs
  import F = Finalizer
  import C = ChainInvariant

  /** The blocks at heights 1..m, null where `nulls` says so, the others covering the epoch of their height. */
  function ChainUpTo(epochSize: int, firstEpochEnd: int, nulls: set<int>, m: nat): (s: seq<Entry>)
    ensures |s| == m
    ensures forall i | 0 <= i < m :: s[i].height == i + 1
  {
    if m == 0 then []
    else
      ChainUpTo(epochSize, firstEpochEnd, nulls, m - 1) +
      [Entry(m, if m in nulls then None
                else Some((Begin(epochSize, firstEpochEnd, m), End(epochSize, firstEpochEnd, m))))]
  }

  /** a..b is a longest run of null blocks with a non-null block on either side, within 1..m. */
  predicate NullRun(nulls: set<int>, m: int, a: int, b: int) {
    && 1 < a <= b < m
    && a - 1 !in nulls && b + 1 !in nulls
    && forall h | a <= h <= b :: h in nulls
  }

  /** The gap issue for a run: reported at the next height, with exactly the source range of the run's epochs. */
  function GapOf(epochSize: int, firstEpochEnd: int, a: int, b: int): Issue {
    GapInChain(b + 1, (a - 1) * epochSize + firstEpochEnd - epochSize + 1, (b - 1) * epochSize + firstEpochEnd)
  }

  function IssueHeight(x: Issue): int {
    x.height
  }

  /** The last non-null block, if any. */
  ghost predicate LastNonNull(nulls: set<int>, m: nat, p: int) {
    1 <= p <= m && p !in nulls && forall h | p < h <= m :: h in nulls
  }

  ghost predicate ReportsRuns(epochSize: int, firstEpochEnd: int, nulls: set<int>, m: nat, issues: seq<Issue>) {
    && (forall x | x in issues :: exists a, b :: NullRun(nulls, m, a, b) && x == GapOf(epochSize, firstEpochEnd, a, b))
    && (forall a, b | NullRun(nulls, m, a, b) :: GapOf(epochSize, firstEpochEnd, a, b) in issues)
    && (forall i, j | 0 <= i < j < |issues| :: IssueHeight(issues[i]) < IssueHeight(issues[j]))
  }

  /** One issue per run of null blocks, with the run's exact source range, and no other issue: in both
      directions, for every pattern of null blocks. */
  lemma {:induction false} NullRunsReportedExactly(epochSize: int, firstEpochEnd: int, nulls: set<int>, m: nat)
    requires epochSize > 0 && firstEpochEnd > 0
    ensures var chain := NonNull(ChainUpTo(epochSize, firstEpochEnd, nulls, m));
            && ReportsRuns(epochSize, firstEpochEnd, nulls, m, Scan(chain))
            && (chain == [] <==> forall h | 1 <= h <= m :: h in nulls)
            && (chain != [] ==>
                  && LastNonNull(nulls, m, chain[|chain| - 1].height)
                  && chain[|chain| - 1].end == End(epochSize, firstEpochEnd, chain[|chain| - 1].height))
  {
    hide ReportsRuns, Begin, End, Scan, IssuesBetween, GapAbove, NonNull;
    NoneOfNothing();
    if m > 0 {
      NullRunsReportedExactly(epochSize, firstEpochEnd, nulls, m - 1);
      var s, s' := ChainUpTo(epochSize, firstEpochEnd, nulls, m - 1), ChainUpTo(epochSize, firstEpochEnd, nulls, m);
      assert s' == s + [s'[m - 1]];
      NonNullConcat(s, [s'[m - 1]]);
      OneEntry(s'[m - 1], 0);
      var chain, chain' := NonNull(s), NonNull(s');
      if m in nulls {
        assert chain' == chain;
        NullOnTop(epochSize, firstEpochEnd, nulls, m, Scan(chain));
      } else {
        var c := Verified(m, Begin(epochSize, firstEpochEnd, m), End(epochSize, firstEpochEnd, m));
        assert chain' == chain + [c];
        if chain == [] {
          NothingToScan(chain');
          NothingBelow(epochSize, firstEpochEnd, nulls, m);
        } else {
          ScanOneMore(chain, c);
          var p := chain[|chain| - 1];
          IssuesOfEpochs(epochSize, firstEpochEnd, p.height, p.begin, m);
          NewBlockOnTop(epochSize, firstEpochEnd, nulls, m, p.height, Scan(chain));
        }
      }
    } else {
      NothingToScan([]);
      NothingBelow(epochSize, firstEpochEnd, nulls, 0);
    }
  }

  lemma NullOnTop(epochSize: int, firstEpochEnd: int, nulls: set<int>, m: nat, issues: seq<Issue>)
    requires m > 0 && m in nulls && ReportsRuns(epochSize, firstEpochEnd, nulls, m - 1, issues)
    ensures ReportsRuns(epochSize, firstEpochEnd, nulls, m, issues)
  {
    hide GapOf;
    forall a, b ensures NullRun(nulls, m, a, b) <==> NullRun(nulls, m - 1, a, b) {
    }
  }

  lemma NothingBelow(epochSize: int, firstEpochEnd: int, nulls: set<int>, m: nat)
    requires forall h | 1 <= h < m :: h in nulls
    ensures ReportsRuns(epochSize, firstEpochEnd, nulls, m, [])
  {
    forall a, b ensures !NullRun(nulls, m, a, b) {
    }
  }

  /** The report due at a non-null block m on top of a non-null block h, the blocks between them being null. */
  function GapAbove(epochSize: int, firstEpochEnd: int, h: int, m: int): seq<Issue> {
    if h == m - 1 then [] else [GapOf(epochSize, firstEpochEnd, h + 1, m - 1)]
  }

  /** The scan's verdict about a non-null block on top of another: silence when they adjoin, else the gap of
      the run between. */
  lemma IssuesOfEpochs(epochSize: int, firstEpochEnd: int, h: int, begin: int, m: int)
    requires epochSize > 0 && firstEpochEnd > 0 && 1 <= h < m
    ensures IssuesBetween(Verified(h, begin, End(epochSize, firstEpochEnd, h)),
                          Verified(m, Begin(epochSize, firstEpochEnd, m), End(epochSize, firstEpochEnd, m))) ==
            GapAbove(epochSize, firstEpochEnd, h, m)
  {
    EpochsPositive(epochSize, firstEpochEnd, h);
    EpochsPositive(epochSize, firstEpochEnd, m - 1);
    Adjoining(epochSize, firstEpochEnd, m - 1);
    Adjoining(epochSize, firstEpochEnd, h);
    if h < m - 1 {
      assert (h - 1) * epochSize + epochSize == h * epochSize;
      assert (m - 2) * epochSize + epochSize == (m - 1) * epochSize;
      Numbers.MulGap(h - 1, m - 2, epochSize);
    }
  }

  /** Blocks that cover the epochs of their heights. */
  predicate OfEpochs(epochSize: int, firstEpochEnd: int, chain: seq<Verified>) {
    && (forall i | 0 <= i < |chain| ::
          && chain[i].height >= 1
          && chain[i].begin == Begin(epochSize, firstEpochEnd, chain[i].height)
          && chain[i].end == End(epochSize, firstEpochEnd, chain[i].height))
    && (forall i, j | 0 <= i < j < |chain| :: chain[i].height < chain[j].height)
  }

  /** Among such blocks, those between the last verified block and the first one left for instance, nothing is
      to be reported exactly when no height is left out. */
  lemma {:induction false} SilentExactly(epochSize: int, firstEpochEnd: int, chain: seq<Verified>)
    requires epochSize > 0 && firstEpochEnd > 0 && OfEpochs(epochSize, firstEpochEnd, chain)
    ensures Scan(chain) == [] <==> forall i | 0 < i < |chain| :: chain[i].height == chain[i - 1].height + 1
  {
    hide Begin, End, IssuesBetween, Scan;
    if |chain| <= 1 {
      NothingToScan(chain);
    } else {
      var n := |chain| - 1;
      SilentExactly(epochSize, firstEpochEnd, chain[..n]);
      assert chain == chain[..n] + [chain[n]];
      ScanOneMore(chain[..n], chain[n]);
      IssuesOfEpochs(epochSize, firstEpochEnd, chain[n - 1].height, chain[n - 1].begin, chain[n].height);
      assert chain[n - 1].height < chain[n].height;
      if forall i | 0 < i < n :: chain[..n][i].height == chain[..n][i - 1].height + 1 {
        assert forall i | 0 < i < n :: chain[i].height == chain[i - 1].height + 1;
      }
    }
  }

  lemma NewBlockOnTop(epochSize: int, firstEpochEnd: int, nulls: set<int>, m: nat, h: int, issues: seq<Issue>)
    requires m > 1 && m !in nulls && LastNonNull(nulls, m - 1, h)
    requires ReportsRuns(epochSize, firstEpochEnd, nulls, m - 1, issues)
    ensures ReportsRuns(epochSize, firstEpochEnd, nulls, m, issues + GapAbove(epochSize, firstEpochEnd, h, m))
  {
    hide GapOf;
    RunsWithTop(nulls, m, h);
    if h == m - 1 {
      assert issues + [] == issues;
    } else {
      var g := GapOf(epochSize, firstEpochEnd, h + 1, m - 1);
      HeightOfGap(epochSize, firstEpochEnd, h + 1, m - 1);
      forall x | x in issues ensures IssueHeight(x) < m {
        var a, b :| NullRun(nulls, m - 1, a, b) && x == GapOf(epochSize, firstEpochEnd, a, b);
        HeightOfGap(epochSize, firstEpochEnd, a, b);
      }
      var all := issues + [g];
      forall x | x in all
        ensures exists a, b :: NullRun(nulls, m, a, b) && x == GapOf(epochSize, firstEpochEnd, a, b)
      {
        if x in issues {
          var a, b :| NullRun(nulls, m - 1, a, b) && x == GapOf(epochSize, firstEpochEnd, a, b);
          assert NullRun(nulls, m, a, b);
        } else {
          assert NullRun(nulls, m, h + 1, m - 1) && x == g;
        }
      }
    }
  }

  lemma HeightOfGap(epochSize: int, firstEpochEnd: int, a: int, b: int)
    ensures IssueHeight(GapOf(epochSize, firstEpochEnd, a, b)) == b + 1
  {
  }

  /** A new non-null block completes the run below it, if there is one, and no other. */
  lemma RunsWithTop(nulls: set<int>, m: nat, p: int)
    requires m > 1 && m !in nulls && LastNonNull(nulls, m - 1, p)
    ensures forall a, b :: NullRun(nulls, m, a, b) <==>
                             NullRun(nulls, m - 1, a, b) || (a == p + 1 && b == m - 1 && p < m - 1)
  {
    forall a, b
      ensures NullRun(nulls, m, a, b) <==> NullRun(nulls, m - 1, a, b) || (a == p + 1 && b == m - 1 && p < m - 1)
    {
      if NullRun(nulls, m, a, b) && b == m - 1 {
        assert a - 1 <= p;
        assert p < a || p in nulls;
      }
    }
  }

  // --- from the indexes to the scan ------------------------------------------------

  /** Index reads that describe a chain: equal heights, a null marker exactly at null blocks, and
      fetchable ranges for all others. */
  predicate Describes(r: Reads, s: seq<Entry>) {
    && |r.dag| == |r.payloads| == |s|
    && forall i | 0 <= i < |s| ::
         && r.dag[i].height == r.payloads[i].height == s[i].height
         && (F.IsNull(r.payloads[i].member) <==> s[i].range.None?)
         && (s[i].range.Some? ==>
               r.payloads[i].member in r.ranges && r.ranges[r.payloads[i].member] == s[i].range.value)
  }

  lemma {:induction false} NonNullBlocksBack(chain: seq<DagEntry>, res: seq<PayloadEntry>)
    requires |chain| == |res| > 0
    ensures var n := |res| - 1;
            NonNullBlocks(chain, res) ==
            NonNullBlocks(chain[..n], res[..n]) +
            WithPayloadOf(chain[n], res[n])
  {
    hide WithPayloadOf, NonNullBlocks;
    var n := |res| - 1;
    NonNullBlocksFront(chain, res);
    NoBlocks();
    if n == 0 {
      assert chain[1..] == [] && res[1..] == [] && chain[..0] == [] && res[..0] == [];
    } else {
      NonNullBlocksBack(chain[1..], res[1..]);
      NonNullBlocksFront(chain[..n], res[..n]);
      assert chain[..n][1..] == chain[1..][..n - 1] && res[..n][1..] == res[1..][..n - 1];
    }
  }

  lemma NoBlocks()
    ensures NonNullBlocks([], []) == []
  {
  }

  lemma NonNullBlocksFront(chain: seq<DagEntry>, res: seq<PayloadEntry>)
    requires |chain| == |res| > 0
    ensures NonNullBlocks(chain, res) == WithPayloadOf(chain[0], res[0]) + NonNullBlocks(chain[1..], res[1..])
  {
  }

  lemma {:induction false} BlocksAreNonNull(r: Reads, s: seq<Entry>)
    requires Describes(r, s)
    ensures forall b | b in NonNullBlocks(r.dag, r.payloads) :: b.payloadCid in r.ranges
    ensures WithRanges(NonNullBlocks(r.dag, r.payloads), r.ranges) == NonNull(s)
    decreases |s|
  {
    hide F.IsNull, NonNullBlocks, WithRanges, NonNull;
    NoBlocks();
    NoneOfNothing();
    if s == [] {
      assert r.dag == [] && r.payloads == [];
      RangesOf([], r.ranges);
    } else {
      var n := |s| - 1;
      var r' := r.(dag := r.dag[..n], payloads := r.payloads[..n]);
      BlocksAreNonNull(r', s[..n]);
      NonNullBlocksBack(r.dag, r.payloads);
      assert s == s[..n] + [s[n]];
      NonNullConcat(s[..n], [s[n]]);
      OneEntry(s[n], 0);
      RangesOf(NonNullBlocks(r.dag, r.payloads), r.ranges);
      RangesOf(NonNullBlocks(r'.dag, r'.payloads), r.ranges);
    }
  }

  lemma RangesOf(blocks: seq<DagEntry>, ranges: map<string, (int, int)>)
    ensures blocks == [] ==> WithRanges(blocks, ranges) == []
    ensures blocks != [] && (forall b | b in blocks :: b.payloadCid in ranges) ==>
              var n := |blocks| - 1;
              WithRanges(blocks, ranges) ==
              WithRanges(blocks[..n], ranges) +
              [Verified(blocks[n].height, ranges[blocks[n].payloadCid].0, ranges[blocks[n].payloadCid].1)]
  {
  }

  /** A verification cycle whose reads describe the chain from the last verified height on is the
      cycle of the incremental scan. */
  lemma ReadsGiveCycle(v: Progress, r: Reads, s: seq<Entry>)
    requires Describes(r, From(s, v.last)) && NonNull(From(s, v.last)) != []
    ensures var m := Merge(r.dag, r.payloads, 0, r.ipfs);
            && m.Merged? && m.chain != [] && (forall b | b in m.chain :: b.payloadCid in r.ranges)
            && var chain := WithRanges(m.chain, r.ranges);
            Cycle(v, s) == Progress(chain[|chain| - 1].height, v.reported + Scan(chain))
  {
    hide F.IsNull, Scan, NonNull, From;
    SameHeightsMerge(r.dag, r.payloads, 0, r.ipfs);
    assert r.dag[..0] + NonNullBlocks(r.dag[0..], r.payloads[0..]) == NonNullBlocks(r.dag, r.payloads);
    BlocksAreNonNull(r, From(s, v.last));
  }

  // --- null blocks of a finalized chain ----------------------------------------------

  /** The heights of a finalized chain whose blocks carry no payload. */
  function NullHeights(head: Cid, m: nat): (r: set<int>)
    ensures forall h :: h in r <==> 1 <= h <= m && C.Ancestor(head, h).block.data.None?
  {
    if m == 0 then {}
    else NullHeights(head, m - 1) + if C.Ancestor(head, m).block.data.None? then {m} else {}
  }
}
