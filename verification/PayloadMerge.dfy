/** Pairing the DAG index with the payload index before a chain is verified. */
module PayloadMerge {
  import F = Finalizer

  /** A DAG index entry; its payload CID is filled in by the merge. */
  datatype DagEntry = DagEntry(height: int, cid: string, payloadCid: string)

  datatype PayloadEntry = PayloadEntry(height: int, member: string)

  datatype Outcome =
    | Merged(chain: seq<DagEntry>)
    | Inconsistent       // the indexes disagree on a height
    | FetchFailed        // IPFS did not return a block needed to judge a duplicate
    | InProgress         // more payloads than blocks: retry later

  function RemoveAt<T>(s: seq<T>, i: nat): (r: seq<T>)
    requires i < |s|
    ensures |r| == |s| - 1
    ensures forall j | 0 <= j < |r| :: r[j] == if j < i then s[j] else s[j + 1]
  {
    s[..i] + s[i + 1..]
  }

  /** The merge from position i on, without going back: `ipfs` gives the payload link of a DAG block. */
  function Merge(chain: seq<DagEntry>, res: seq<PayloadEntry>, i: nat, ipfs: map<string, string>): Outcome
    decreases |chain|, |res| - i
  {
    if i >= |res| then Merged(chain)
    else if i >= |chain| then InProgress
    else if chain[i].height != res[i].height then
      if i > 0 && chain[i].height == chain[i - 1].height then
        if chain[i].cid !in ipfs || chain[i - 1].cid !in ipfs then FetchFailed
        else if ipfs[chain[i].cid] == ipfs[chain[i - 1].cid] then Merge(RemoveAt(chain, i), res, i, ipfs)
        else Inconsistent
      else Inconsistent
    else if F.IsNull(res[i].member) then Merge(RemoveAt(chain, i), RemoveAt(res, i), i, ipfs)
    else Merge(chain[i := chain[i].(payloadCid := res[i].member)], res, i + 1, ipfs)
  }

  /** Positions below i are paired and carry a payload. */
  predicate Paired(chain: seq<DagEntry>, res: seq<PayloadEntry>, i: nat) {
    i <= |chain| && i <= |res| &&
    forall j | 0 <= j < i ::
      chain[j].height == res[j].height && chain[j].payloadCid == res[j].member && !F.IsNull(res[j].member)
  }

  /** Starting over after a removal repeats work that changes nothing. */
  lemma {:induction false} RestartIsRedundant(chain: seq<DagEntry>, res: seq<PayloadEntry>, i: nat, j: nat,
                                              ipfs: map<string, string>)
    requires Paired(chain, res, i) && j <= i
    ensures Merge(chain, res, j, ipfs) == Merge(chain, res, i, ipfs)
    decreases i - j
  {
    if j < i {
      assert chain[j := chain[j].(payloadCid := res[j].member)] == chain;
      RestartIsRedundant(chain, res, i, j + 1, ipfs);
    }
  }

  /** The merge loop of `GetPayloadCidsFromRedis`: after every removal it starts over from the first
      entry, and it ends because every such restart has made the chain shorter. */
  method MergeWithRestarts(dagChain: seq<DagEntry>, payloads: seq<PayloadEntry>, ipfs: map<string, string>)
    returns (r: Outcome)
    ensures r == Merge(dagChain, payloads, 0, ipfs)
  {
    var chain, res, i := dagChain, payloads, 0;
    while i < |res|
      invariant Paired(chain, res, i)
      invariant Merge(chain, res, i, ipfs) == Merge(dagChain, payloads, 0, ipfs)
      decreases |chain|, |res| - i
    {
      if i >= |chain| {
        return InProgress;
      }
      if chain[i].height != res[i].height {
        if i > 0 && chain[i].height == chain[i - 1].height {
          if chain[i].cid !in ipfs || chain[i - 1].cid !in ipfs {
            return FetchFailed;
          }
          if ipfs[chain[i].cid] == ipfs[chain[i - 1].cid] {
            chain := RemoveAt(chain, i);
            RestartIsRedundant(chain, res, i, 0, ipfs);
            i := 0;
            continue;
          }
        }
        return Inconsistent;
      }
      if F.IsNull(res[i].member) {
        chain := RemoveAt(chain, i);
        res := RemoveAt(res, i);
        RestartIsRedundant(chain, res, i, 0, ipfs);
        i := 0;
        continue;
      }
      chain := chain[i := chain[i].(payloadCid := res[i].member)];
      i := i + 1;
    }
    r := Merged(chain);
  }

  // --- what a merged chain is ------------------------------------------------------

  function WithPayload(res: seq<PayloadEntry>): seq<PayloadEntry> {
    if res == [] then []
    else (if F.IsNull(res[0].member) then [] else [res[0]]) + WithPayload(res[1..])
  }

  /** What the output must begin with once positions below i are paired. */
  function Kept(res: seq<PayloadEntry>, i: nat): seq<PayloadEntry>
    requires i <= |res|
  {
    res[..i] + WithPayload(res[i..])
  }

  lemma KeptSteps(res: seq<PayloadEntry>, i: nat)
    requires i < |res|
    ensures F.IsNull(res[i].member) ==> Kept(RemoveAt(res, i), i) == Kept(res, i)
    ensures !F.IsNull(res[i].member) ==> Kept(res, i + 1) == Kept(res, i)
  {
    assert res[i..][0] == res[i] && res[i..][1..] == res[i + 1..];
    if F.IsNull(res[i].member) {
      var res' := RemoveAt(res, i);
      assert res'[..i] == res[..i] && res'[i..] == res[i + 1..];
      assert WithPayload(res[i..]) == [] + WithPayload(res[i + 1..]);
    } else {
      assert res[..i] + ([res[i]] + WithPayload(res[i + 1..])) == res[..i + 1] + WithPayload(res[i + 1..]);
    }
  }

  /** On success the first entries pair one to one, by height, with the payloads that are not null. */
  lemma {:induction false} MergedPairs(chain: seq<DagEntry>, res: seq<PayloadEntry>, i: nat, ipfs: map<string, string>)
    requires Paired(chain, res, i) && Merge(chain, res, i, ipfs).Merged?
    ensures var out, kept := Merge(chain, res, i, ipfs).chain, Kept(res, i);
            && |kept| <= |out|
            && forall j | 0 <= j < |kept| :: out[j].height == kept[j].height && out[j].payloadCid == kept[j].member
    decreases |chain|, |res| - i
  {
    hide Kept, WithPayload;
    if i < |res| {
      KeptSteps(res, i);
      if chain[i].height != res[i].height {
        MergedPairs(RemoveAt(chain, i), res, i, ipfs);
      } else if F.IsNull(res[i].member) {
        MergedPairs(RemoveAt(chain, i), RemoveAt(res, i), i, ipfs);
      } else {
        MergedPairs(chain[i := chain[i].(payloadCid := res[i].member)], res, i + 1, ipfs);
      }
    } else {
      NothingLeft(res);
    }
  }

  lemma NothingLeft(res: seq<PayloadEntry>)
    ensures Kept(res, |res|) == res
  {
    assert res[|res|..] == [] && res[..|res|] + [] == res;
  }

  predicate OneBlockPerHeight(chain: seq<DagEntry>) {
    forall i, j | 0 <= i < j < |chain| :: chain[i].height < chain[j].height
  }

  /** For a chain with one block per height the merge succeeds exactly when the payload entries are, height
      by height, those of its first blocks. Otherwise the cycle ends without a result, as inconsistent or
      in progress, and no block is ever fetched to judge a duplicate. */
  lemma {:induction false} MergeSucceedsExactly(chain: seq<DagEntry>, res: seq<PayloadEntry>, i: nat,
                                                ipfs: map<string, string>)
    requires OneBlockPerHeight(chain) && i <= |chain|
    ensures var r := Merge(chain, res, i, ipfs);
            && (r.Merged? <==> |res| <= |chain| && forall j | i <= j < |res| :: chain[j].height == res[j].height)
            && !r.FetchFailed?
    decreases |chain|, |res| - i
  {
    hide F.IsNull;
    if i < |res| && i < |chain| && chain[i].height == res[i].height {
      if F.IsNull(res[i].member) {
        var chain', res' := RemoveAt(chain, i), RemoveAt(res, i);
        MergeSucceedsExactly(chain', res', i, ipfs);
        if |res| <= |chain| && forall j | i <= j < |res'| :: chain'[j].height == res'[j].height {
          forall j | i < j < |res| ensures chain[j].height == res[j].height {
            assert chain'[j - 1].height == res'[j - 1].height;
          }
        }
      } else {
        MergeSucceedsExactly(chain[i := chain[i].(payloadCid := res[i].member)], res, i + 1, ipfs);
      }
    }
  }

  lemma SameHeightsBut(chain: seq<DagEntry>, res: seq<PayloadEntry>, i: nat)
    requires i < |chain| < |res| && chain[i].height == res[i].height
    ensures (forall j | i <= j < |chain| :: chain[j].height == res[j].height) <==>
            forall j | i <= j < |chain| - 1 :: RemoveAt(chain, i)[j].height == RemoveAt(res, i)[j].height
  {
    var chain', res' := RemoveAt(chain, i), RemoveAt(res, i);
    if forall j | i <= j < |chain'| :: chain'[j].height == res'[j].height {
      forall j | i < j < |chain| ensures chain[j].height == res[j].height {
        assert chain'[j - 1].height == res'[j - 1].height;
      }
    }
  }

  /** It has to wait exactly when there are more payload entries than blocks, and those of the blocks fit. */
  lemma {:induction false} MergeWaitsExactly(chain: seq<DagEntry>, res: seq<PayloadEntry>, i: nat,
                                             ipfs: map<string, string>)
    requires OneBlockPerHeight(chain) && i <= |chain|
    ensures Merge(chain, res, i, ipfs).InProgress? <==>
            |res| > |chain| && forall j | i <= j < |chain| :: chain[j].height == res[j].height
    decreases |chain|, |res| - i
  {
    hide F.IsNull;
    if i < |res| && i < |chain| && chain[i].height == res[i].height {
      if F.IsNull(res[i].member) {
        var chain', res' := RemoveAt(chain, i), RemoveAt(res, i);
        MergeWaitsExactly(chain', res', i, ipfs);
        if |res| > |chain| {
          SameHeightsBut(chain, res, i);
        }
      } else {
        MergeWaitsExactly(chain[i := chain[i].(payloadCid := res[i].member)], res, i + 1, ipfs);
      }
    }
  }

  predicate SameHeights(chain: seq<DagEntry>, res: seq<PayloadEntry>) {
    |chain| == |res| && forall j | 0 <= j < |res| :: chain[j].height == res[j].height
  }

  function WithPayloadOf(b: DagEntry, p: PayloadEntry): seq<DagEntry> {
    if F.IsNull(p.member) then [] else [b.(payloadCid := p.member)]
  }

  /** The blocks whose payload is not null, each with its payload CID. */
  function NonNullBlocks(chain: seq<DagEntry>, res: seq<PayloadEntry>): seq<DagEntry>
    requires |chain| == |res|
  {
    if res == [] then []
    else WithPayloadOf(chain[0], res[0]) + NonNullBlocks(chain[1..], res[1..])
  }

  /** Indexes with the same heights always merge, into exactly the non-null blocks in order. */
  lemma {:induction false} SameHeightsMerge(chain: seq<DagEntry>, res: seq<PayloadEntry>, i: nat,
                                            ipfs: map<string, string>)
    requires SameHeights(chain, res) && i <= |res|
    ensures Merge(chain, res, i, ipfs) == Merged(chain[..i] + NonNullBlocks(chain[i..], res[i..]))
    decreases |chain|, |res| - i
  {
    hide F.IsNull;
    if i < |res| {
      assert res[i..][0] == res[i] && res[i..][1..] == res[i + 1..];
      assert chain[i..][0] == chain[i] && chain[i..][1..] == chain[i + 1..];
      if F.IsNull(res[i].member) {
        var chain', res' := RemoveAt(chain, i), RemoveAt(res, i);
        SameHeightsMerge(chain', res', i, ipfs);
        assert chain'[..i] == chain[..i] && chain'[i..] == chain[i + 1..] && res'[i..] == res[i + 1..];
        assert NonNullBlocks(chain[i..], res[i..]) == NonNullBlocks(chain[i + 1..], res[i + 1..]);
      } else {
        var b := chain[i].(payloadCid := res[i].member);
        var chain' := chain[i := b];
        SameHeightsMerge(chain', res, i + 1, ipfs);
        assert chain'[i + 1..] == chain[i + 1..];
        assert chain'[..i + 1] == chain[..i] + [b];
        assert NonNullBlocks(chain[i..], res[i..]) == [b] + NonNullBlocks(chain[i + 1..], res[i + 1..]);
      }
    } else {
      assert chain[i..] == [] && chain[..i] == chain;
      assert chain[..i] + NonNullBlocks(chain[i..], res[i..]) == chain;
    }
  }

  // --- several blocks at a height ----------------------------------------------------

  function Flat(groups: seq<seq<DagEntry>>): seq<DagEntry> {
    if groups == [] then [] else groups[0] + Flat(groups[1..])
  }

  /** The index read height by height, in step with payload entries that are not null. */
  predicate Grouped(groups: seq<seq<DagEntry>>, res: seq<PayloadEntry>) {
    && |groups| == |res|
    && (forall k | 0 <= k < |res| ::
          && groups[k] != [] && !F.IsNull(res[k].member)
          && forall j | 0 <= j < |groups[k]| :: groups[k][j].height == res[k].height)
    && forall k | 0 < k < |res| :: res[k - 1].height < res[k].height
  }

  /** Both blocks can be fetched. */
  predicate Fetched(a: DagEntry, b: DagEntry, ipfs: map<string, string>) {
    a.cid in ipfs && b.cid in ipfs
  }

  /** Both blocks can be fetched and link to the same payload. */
  predicate SamePayload(a: DagEntry, b: DagEntry, ipfs: map<string, string>) {
    Fetched(a, b, ipfs) && ipfs[a.cid] == ipfs[b.cid]
  }

  /** A block of group k other than the first, in a group other than the last. */
  predicate Extra(groups: seq<seq<DagEntry>>, k: int, j: int) {
    0 <= k < |groups| - 1 && 1 <= j < |groups[k]|
  }

  /** The extra blocks ahead of this one repeat the first block of their height. */
  ghost predicate Repeating(groups: seq<seq<DagEntry>>, ipfs: map<string, string>, k: int, j: int) {
    forall m, n | Extra(groups, m, n) && (m < k || (m == k && n < j)) :: SamePayload(groups[m][0], groups[m][n], ipfs)
  }

  /** The first block of every height, with its payload. */
  function Firsts(groups: seq<seq<DagEntry>>, res: seq<PayloadEntry>, n: nat): (r: seq<DagEntry>)
    requires Grouped(groups, res) && n <= |groups|
    ensures |r| == n
    ensures forall k | 0 <= k < n :: r[k] == groups[k][0].(payloadCid := res[k].member)
  {
    seq(n, k requires 0 <= k < n => groups[k][0].(payloadCid := res[k].member))
  }

  /** With several blocks at a height, all below the last height are dropped but the first, provided that they
      link to the same payload; the last height keeps its blocks. Otherwise the first block that is different
      decides: the indexes are inconsistent, or a block could not be fetched. */
  lemma DuplicatesMerge(groups: seq<seq<DagEntry>>, res: seq<PayloadEntry>, ipfs: map<string, string>)
      returns (k: int, j: int)
    requires Grouped(groups, res) && groups != []
    ensures var n := |groups|;
            var r := Merge(Flat(groups), res, 0, ipfs);
            if Repeating(groups, ipfs, n, 0) then r == Merged(Firsts(groups, res, n) + groups[n - 1][1..])
            else
              && Extra(groups, k, j) && Repeating(groups, ipfs, k, j)
              && !SamePayload(groups[k][0], groups[k][j], ipfs)
              && r == if Fetched(groups[k][0], groups[k][j], ipfs) then Inconsistent else FetchFailed
  {
    hide F.IsNull, Repeating;
    var chain := Flat(groups);
    var b := groups[0][0].(payloadCid := res[0].member);
    assert chain[0] == groups[0][0];
    assert chain[0 := b] == MergedUpTo(groups, res, 0, 1);
    NothingRepeated(groups, ipfs);
    k, j := MergeFrom(groups, res, ipfs, 0, 1);
  }

  lemma NothingRepeated(groups: seq<seq<DagEntry>>, ipfs: map<string, string>)
    ensures Repeating(groups, ipfs, 0, 1)
  {
  }

  /** The chain once the first heights are merged, and the extra blocks of group k below j dropped. */
  function MergedUpTo(groups: seq<seq<DagEntry>>, res: seq<PayloadEntry>, k: nat, j: nat): seq<DagEntry>
    requires Grouped(groups, res) && k < |groups| && j <= |groups[k]|
  {
    Firsts(groups, res, k + 1) + groups[k][j..] + Flat(groups[k + 1..])
  }

  lemma {:induction false} MergeFrom(groups: seq<seq<DagEntry>>, res: seq<PayloadEntry>, ipfs: map<string, string>,
                                     k: nat, j: nat) returns (bk: int, bj: int)
    requires Grouped(groups, res) && k < |groups| && 1 <= j <= |groups[k]| && (k == |groups| - 1 ==> j == 1)
    requires Repeating(groups, ipfs, k, j)
    ensures var n := |groups|;
            var r := Merge(MergedUpTo(groups, res, k, j), res, k + 1, ipfs);
            if Repeating(groups, ipfs, n, 0) then r == Merged(Firsts(groups, res, n) + groups[n - 1][1..])
            else
              && Extra(groups, bk, bj) && Repeating(groups, ipfs, bk, bj)
              && !SamePayload(groups[bk][0], groups[bk][bj], ipfs)
              && r == if Fetched(groups[bk][0], groups[bk][bj], ipfs) then Inconsistent else FetchFailed
    decreases |groups| - k, |groups[k]| - j
  {
    hide F.IsNull, Repeating;
    bk, bj := k, j;
    if k == |groups| - 1 {
      assert groups[k + 1..] == [] && Flat([]) == [];
      assert MergedUpTo(groups, res, k, j) == Firsts(groups, res, k + 1) + groups[k][1..];
      AllRepeated(groups, ipfs);
    } else if j < |groups[k]| {
      DropExtra(groups, res, ipfs, k, j);
      if SamePayload(groups[k][0], groups[k][j], ipfs) {
        RepeatedMore(groups, ipfs, k, j);
        bk, bj := MergeFrom(groups, res, ipfs, k, j + 1);
      } else {
        NotAllRepeated(groups, ipfs, k, j);
      }
    } else {
      NextHeight(groups, res, ipfs, k);
      RepeatedNext(groups, ipfs, k);
      bk, bj := MergeFrom(groups, res, ipfs, k + 1, 1);
    }
  }

  lemma AllRepeated(groups: seq<seq<DagEntry>>, ipfs: map<string, string>)
    requires groups != [] && Repeating(groups, ipfs, |groups| - 1, 1)
    ensures Repeating(groups, ipfs, |groups|, 0)
  {
  }

  lemma RepeatedMore(groups: seq<seq<DagEntry>>, ipfs: map<string, string>, k: nat, j: nat)
    requires Repeating(groups, ipfs, k, j) && Extra(groups, k, j) && SamePayload(groups[k][0], groups[k][j], ipfs)
    ensures Repeating(groups, ipfs, k, j + 1)
  {
  }

  lemma NotAllRepeated(groups: seq<seq<DagEntry>>, ipfs: map<string, string>, k: nat, j: nat)
    requires Extra(groups, k, j) && !SamePayload(groups[k][0], groups[k][j], ipfs)
    ensures !Repeating(groups, ipfs, |groups|, 0)
  {
  }

  lemma RepeatedNext(groups: seq<seq<DagEntry>>, ipfs: map<string, string>, k: nat)
    requires k < |groups| - 1 && Repeating(groups, ipfs, k, |groups[k]|)
    ensures Repeating(groups, ipfs, k + 1, 1)
  {
  }

  /** An extra block is judged against the first of its height. */
  lemma DropExtra(groups: seq<seq<DagEntry>>, res: seq<PayloadEntry>, ipfs: map<string, string>, k: nat, j: nat)
    requires Grouped(groups, res) && Extra(groups, k, j)
    ensures Merge(MergedUpTo(groups, res, k, j), res, k + 1, ipfs) ==
            if !Fetched(groups[k][0], groups[k][j], ipfs) then FetchFailed
            else if SamePayload(groups[k][0], groups[k][j], ipfs)
            then Merge(MergedUpTo(groups, res, k, j + 1), res, k + 1, ipfs)
            else Inconsistent
  {
    var chain := MergedUpTo(groups, res, k, j);
    assert chain[k].cid == groups[k][0].cid && chain[k].height == res[k].height;
    assert chain[k + 1] == groups[k][j];
    assert RemoveAt(chain, k + 1) == MergedUpTo(groups, res, k, j + 1);
    assert res[k].height < res[k + 1].height;
  }

  /** After the last extra block of a height the next height is paired. */
  lemma NextHeight(groups: seq<seq<DagEntry>>, res: seq<PayloadEntry>, ipfs: map<string, string>, k: nat)
    requires Grouped(groups, res) && k < |groups| - 1
    ensures Merge(MergedUpTo(groups, res, k, |groups[k]|), res, k + 1, ipfs) ==
            Merge(MergedUpTo(groups, res, k + 1, 1), res, k + 2, ipfs)
  {
    hide F.IsNull;
    var chain := MergedUpTo(groups, res, k, |groups[k]|);
    assert groups[k + 1..][0] == groups[k + 1] && groups[k + 1..][1..] == groups[k + 2..];
    assert chain == Firsts(groups, res, k + 1) + groups[k + 1] + Flat(groups[k + 2..]);
    assert chain[k + 1] == groups[k + 1][0];
    var b := chain[k + 1].(payloadCid := res[k + 1].member);
    assert chain[k + 1 := b] == MergedUpTo(groups, res, k + 1, 1);
  }
}
