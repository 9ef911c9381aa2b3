/** The verifier's search for gaps and duplicates, and its resumption from the last verified height. */
module GapScan {
  import opened Wrappers
  import opened PayloadMerge

  /** A chain block with the source-chain range its payload covers. */
  datatype Verified = Verified(height: int, begin: int, end: int)

  datatype Issue =
    | DuplicateHeight(height: int)
    | GapInChain(height: int, missingFrom: int, missingTo: int)

  /** What the scan reports at a block, given the block before it. */
  function IssuesBetween(a: Verified, b: Verified): seq<Issue> {
    if a.end == 0 then []
    else
      (if b.height == a.height then [DuplicateHeight(b.height)] else []) +
      (if b.begin != 0 && b.begin != a.end + 1 then [GapInChain(b.height, a.end + 1, b.begin - 1)] else [])
  }

  function Scan(chain: seq<Verified>): seq<Issue> {
    if |chain| <= 1 then []
    else Scan(chain[..|chain| - 1]) + IssuesBetween(chain[|chain| - 2], chain[|chain| - 1])
  }

  lemma NothingToScan(chain: seq<Verified>)
    requires |chain| <= 1
    ensures Scan(chain) == []
  {
  }

  lemma ScanOneMore(chain: seq<Verified>, c: Verified)
    requires chain != []
    ensures Scan(chain + [c]) == Scan(chain) + IssuesBetween(chain[|chain| - 1], c)
  {
    assert (chain + [c])[..|chain|] == chain;
  }

  // --- what is reported, position by position -------------------------------------------

  /** The block at a position, with the one before it, calls for the issue. */
  predicate CalledAt(chain: seq<Verified>, i: int, x: Issue) {
    && 0 < i < |chain| && chain[i - 1].end != 0 && chain[i].height == x.height
    && match x
       case DuplicateHeight(h) => chain[i - 1].height == h
       case GapInChain(h, a, b) => chain[i - 1].end == a - 1 && chain[i].begin == b + 1 != 0 && b + 1 != a
  }

  /** The positions whose block has the height of the block before it. */
  function Duplicates(chain: seq<Verified>): set<int> {
    set i {:trigger chain[i]} | 0 < i < |chain| && chain[i - 1].end != 0 && chain[i].height == chain[i - 1].height
  }

  /** The positions whose block begins neither at 0 nor right after the block before it. */
  function Gaps(chain: seq<Verified>): set<int> {
    set i {:trigger chain[i]} |
      0 < i < |chain| && chain[i - 1].end != 0 && chain[i].begin != 0 && chain[i].begin != chain[i - 1].end + 1
  }

  lemma CalledEarlier(chain: seq<Verified>, c: Verified, i: int, x: Issue)
    requires chain != []
    ensures i != |chain| ==> (CalledAt(chain + [c], i, x) <==> CalledAt(chain, i, x))
    ensures CalledAt(chain + [c], |chain|, x) <==> x in IssuesBetween(chain[|chain| - 1], c)
  {
  }

  /** Positions of issues: in order, and with the duplicate first where a position has both. */
  predicate InPlace(issues: seq<Issue>, at: seq<int>) {
    && |at| == |issues|
    && forall j, k | 0 <= j < k < |at| ::
         at[j] < at[k] || (at[j] == at[k] && issues[j].DuplicateHeight? && issues[k].GapInChain?)
  }

  lemma InPlaceMore(issues: seq<Issue>, at: seq<int>, added: seq<Issue>, n: int)
    requires InPlace(issues, at) && (forall j | 0 <= j < |at| :: at[j] < n)
    requires forall j, k | 0 <= j < k < |added| :: added[j].DuplicateHeight? && added[k].GapInChain?
    ensures InPlace(issues + added, at + seq(|added|, _ => n))
  {
    var all, places := issues + added, at + seq(|added|, _ => n);
    forall j, k | 0 <= j < k < |all|
      ensures places[j] < places[k]
              || (places[j] == places[k] && all[j].DuplicateHeight? && all[k].GapInChain?)
    {
      if j >= |issues| {
        assert all[j] == added[j - |issues|] && all[k] == added[k - |issues|];
      }
    }
  }

  /** The issues of a chain are those that its positions call for, each position's in its place: `at` names the
      position of every issue. */
  lemma {:induction false} ScanExactly(chain: seq<Verified>) returns (at: seq<int>)
    ensures InPlace(Scan(chain), at) && forall j | 0 <= j < |at| :: CalledAt(chain, at[j], Scan(chain)[j])
    ensures forall i, x | CalledAt(chain, i, x) :: exists j :: 0 <= j < |at| && at[j] == i && Scan(chain)[j] == x
  {
    if |chain| <= 1 {
      at := [];
    } else {
      var n := |chain| - 1;
      var prefix, c := chain[..n], chain[n];
      assert chain == prefix + [c];
      var before := ScanExactly(prefix);
      ScanOneMoreExactly(prefix, c, before);
      at := before + seq(|IssuesBetween(prefix[n - 1], c)|, _ => n);
    }
  }

  lemma ScanOneMoreExactly(chain: seq<Verified>, c: Verified, before: seq<int>)
    requires chain != []
    requires InPlace(Scan(chain), before)
    requires forall j | 0 <= j < |before| :: CalledAt(chain, before[j], Scan(chain)[j])
    requires forall i, x | CalledAt(chain, i, x) ::
               exists j :: 0 <= j < |before| && before[j] == i && Scan(chain)[j] == x
    ensures var issues, at := Scan(chain + [c]),
                              before + seq(|IssuesBetween(chain[|chain| - 1], c)|, _ => |chain|);
            && InPlace(issues, at) && (forall j | 0 <= j < |at| :: CalledAt(chain + [c], at[j], issues[j]))
            && (forall i, x | CalledAt(chain + [c], i, x) ::
                  exists j :: 0 <= j < |at| && at[j] == i && issues[j] == x)
  {
    var known, added, n := Scan(chain), IssuesBetween(chain[|chain| - 1], c), |chain|;
    var at := before + seq(|added|, _ => n);
    ScanOneMore(chain, c);
    hide Scan;
    InPlaceMore(known, before, added, n);
    hide CalledAt, IssuesBetween, InPlace;
    PlacesCall(chain, c, known, before, added);
    forall i, x | CalledAt(chain + [c], i, x)
      ensures exists j :: 0 <= j < |at| && at[j] == i && (known + added)[j] == x
    {
      CalledEarlier(chain, c, i, x);
      if i != n {
        assert CalledAt(chain, i, x);
      }
      PlaceOf(known, before, added, n, i, x);
    }
  }

  lemma PlacesCall(chain: seq<Verified>, c: Verified, issues: seq<Issue>, before: seq<int>, added: seq<Issue>)
    requires chain != [] && |before| == |issues| && added == IssuesBetween(chain[|chain| - 1], c)
    requires forall j | 0 <= j < |before| :: before[j] < |chain| && CalledAt(chain, before[j], issues[j])
    ensures var at := before + seq(|added|, _ => |chain|);
            forall j | 0 <= j < |at| :: CalledAt(chain + [c], at[j], (issues + added)[j])
  {
    hide CalledAt, IssuesBetween;
    var at := before + seq(|added|, _ => |chain|);
    forall j | 0 <= j < |at| ensures CalledAt(chain + [c], at[j], (issues + added)[j]) {
      CalledEarlier(chain, c, at[j], (issues + added)[j]);
      assert j >= |before| ==> (issues + added)[j] == added[j - |before|];
    }
  }

  /** An issue that has a place has one among more. */
  lemma PlaceOf(issues: seq<Issue>, before: seq<int>, added: seq<Issue>, n: int, i: int, x: Issue)
    requires |before| == |issues|
    requires (i == n && x in added) || exists j :: 0 <= j < |before| && before[j] == i && issues[j] == x
    ensures var at := before + seq(|added|, _ => n);
            exists j :: 0 <= j < |at| && at[j] == i && (issues + added)[j] == x
  {
    var at := before + seq(|added|, _ => n);
    if j :| 0 <= j < |before| && before[j] == i && issues[j] == x {
      assert at[j] == i && (issues + added)[j] == x;
    } else {
      var j :| 0 <= j < |added| && added[j] == x;
      assert at[|before| + j] == i && (issues + added)[|before| + j] == x;
    }
  }

  lemma ScanMembers(chain: seq<Verified>)
    ensures forall x :: x in Scan(chain) <==> exists i :: CalledAt(chain, i, x)
  {
    hide Scan, CalledAt;
    var at := ScanExactly(chain);
    forall x ensures x in Scan(chain) <==> exists i :: CalledAt(chain, i, x) {
      if x in Scan(chain) {
        var j :| 0 <= j < |at| && Scan(chain)[j] == x;
        assert CalledAt(chain, at[j], x);
      }
    }
  }

  /** No issue is reported twice for one position. */
  lemma {:induction false} ScanCounts(chain: seq<Verified>)
    ensures |Scan(chain)| == |Duplicates(chain)| + |Gaps(chain)|
  {
    if |chain| <= 1 {
      assert Duplicates(chain) == {} && Gaps(chain) == {};
    } else {
      var n := |chain| - 1;
      var prefix, c := chain[..n], chain[n];
      var a := prefix[n - 1];
      assert chain == prefix + [c];
      ScanCounts(prefix);
      ScanOneMore(prefix, c);
      PositionsOneMore(prefix, c);
    }
  }

  lemma PositionsOneMore(chain: seq<Verified>, c: Verified)
    requires chain != []
    ensures var n, a := |chain|, chain[|chain| - 1];
            && n !in Duplicates(chain) && n !in Gaps(chain)
            && Duplicates(chain + [c]) == Duplicates(chain) + (if a.end != 0 && c.height == a.height then {n} else {})
            && Gaps(chain + [c]) ==
               Gaps(chain) + (if a.end != 0 && c.begin != 0 && c.begin != a.end + 1 then {n} else {})
  {
    var n, a, more := |chain|, chain[|chain| - 1], chain + [c];
    forall i ensures i in Duplicates(more) <==> i in Duplicates(chain) || (i == n && a.end != 0 && c.height == a.height)
    {
      assert 0 < i < n ==> more[i] == chain[i] && more[i - 1] == chain[i - 1];
    }
    forall i
      ensures i in Gaps(more) <==> i in Gaps(chain) || (i == n && a.end != 0 && c.begin != 0 && c.begin != a.end + 1)
    {
      assert 0 < i < n ==> more[i] == chain[i] && more[i - 1] == chain[i - 1];
    }
  }

  /** What is reported, and how often. */
  lemma ReportedForPositions(chain: seq<Verified>)
    ensures forall h :: DuplicateHeight(h) in Scan(chain) <==>
                        exists i {:trigger chain[i]} :: 0 < i < |chain| && chain[i - 1].end != 0
                                                        && chain[i].height == chain[i - 1].height == h
    ensures forall h, a, b :: GapInChain(h, a, b) in Scan(chain) <==>
                              exists i {:trigger chain[i]} :: 0 < i < |chain| && chain[i].height == h
                                                              && chain[i - 1].end == a - 1 != 0
                                                              && chain[i].begin == b + 1 != 0 && b + 1 != a
    ensures |Scan(chain)| == |Duplicates(chain)| + |Gaps(chain)|
  {
    hide Scan, Duplicates, Gaps;
    ScanMembers(chain);
    ScanCounts(chain);
    hide CalledAt;
    forall h ensures DuplicateHeight(h) in Scan(chain) <==>
                     exists i {:trigger chain[i]} :: 0 < i < |chain| && chain[i - 1].end != 0
                                                     && chain[i].height == chain[i - 1].height == h
    {
      WhoCalls(chain, DuplicateHeight(h));
    }
    forall h, a, b ensures GapInChain(h, a, b) in Scan(chain) <==>
                           exists i {:trigger chain[i]} :: 0 < i < |chain| && chain[i].height == h
                                                           && chain[i - 1].end == a - 1 != 0
                                                           && chain[i].begin == b + 1 != 0 && b + 1 != a
    {
      WhoCalls(chain, GapInChain(h, a, b));
    }
  }

  lemma WhoCalls(chain: seq<Verified>, x: Issue)
    ensures (exists i :: CalledAt(chain, i, x)) <==>
            match x
            case DuplicateHeight(h) =>
              exists i {:trigger chain[i]} :: 0 < i < |chain| && chain[i - 1].end != 0
                                              && chain[i].height == chain[i - 1].height == h
            case GapInChain(h, a, b) =>
              exists i {:trigger chain[i]} :: 0 < i < |chain| && chain[i].height == h
                                              && chain[i - 1].end == a - 1 != 0
                                              && chain[i].begin == b + 1 != 0 && b + 1 != a
  {
    if i :| CalledAt(chain, i, x) {
      assert chain[i].height == x.height;
    }
    match x {
      case DuplicateHeight(h) =>
        if i {:trigger chain[i]} :| 0 < i < |chain| && chain[i - 1].end != 0
                                    && chain[i].height == chain[i - 1].height == h {
          assert CalledAt(chain, i, x);
        }
      case GapInChain(h, a, b) =>
        if i {:trigger chain[i]} :| 0 < i < |chain| && chain[i].height == h && chain[i - 1].end == a - 1 != 0
                                    && chain[i].begin == b + 1 != 0 && b + 1 != a {
          assert CalledAt(chain, i, x);
        }
    }
  }

  /** `verifyDagForIssues`: one pass that remembers the end of the previous block, 0 at the start. */
  method VerifyDagForIssues(chain: seq<Verified>) returns (issues: seq<Issue>)
    ensures issues == Scan(chain)
    ensures forall h :: DuplicateHeight(h) in issues <==>
                        exists i {:trigger chain[i]} :: 0 < i < |chain| && chain[i - 1].end != 0
                                                        && chain[i].height == chain[i - 1].height == h
    ensures forall h, a, b :: GapInChain(h, a, b) in issues <==>
                              exists i {:trigger chain[i]} :: 0 < i < |chain| && chain[i].height == h
                                                              && chain[i - 1].end == a - 1 != 0
                                                              && chain[i].begin == b + 1 != 0 && b + 1 != a
    ensures |issues| == |Duplicates(chain)| + |Gaps(chain)|
  {
    hide Scan;
    issues := [];
    var prevEnd := 0;
    NothingToScan(chain[..0]);
    for i := 0 to |chain|
      invariant issues == Scan(chain[..i])
      invariant prevEnd == if i == 0 then 0 else chain[i - 1].end
    {
      assert chain[..i + 1] == chain[..i] + [chain[i]];
      if i == 0 {
        NothingToScan(chain[..1]);
      } else {
        ScanOneMore(chain[..i], chain[i]);
      }
      if prevEnd != 0 {
        if chain[i].height == chain[i - 1].height {
          issues := issues + [DuplicateHeight(chain[i].height)];
        }
        if chain[i].begin != 0 && chain[i].begin != prevEnd + 1 {
          issues := issues + [GapInChain(chain[i].height, prevEnd + 1, chain[i].begin - 1)];
        }
      }
      prevEnd := chain[i].end;
    }
    assert chain[..|chain|] == chain;
    ReportedForPositions(chain);
  }

  /** Scanning a chain in two parts that share one block reports the same issues once. */
  lemma {:induction false} ScanSplits(a: seq<Verified>, b: seq<Verified>)
    requires a != []
    ensures Scan(a + b) == Scan(a) + Scan([a[|a| - 1]] + b)
    decreases |b|
  {
    hide IssuesBetween;
    var last := [a[|a| - 1]];
    if b == [] {
      assert a + b == a && last + b == last;
    } else {
      hide Scan;
      var m := |b| - 1;
      ScanSplits(a, b[..m]);
      assert a + b == (a + b[..m]) + [b[m]] && last + b == (last + b[..m]) + [b[m]];
      ScanOneMore(a + b[..m], b[m]);
      ScanOneMore(last + b[..m], b[m]);
    }
  }

  // --- cycles -------------------------------------------------------------------

  /** A block of the growing chain: its height and, unless its payload is null, the range it covers. */
  datatype Entry = Entry(height: int, range: Option<(int, int)>)

  function NonNull(s: seq<Entry>): seq<Verified> {
    if s == [] then []
    else
      var e := s[|s| - 1];
      NonNull(s[..|s| - 1]) +
      match e.range
      case Some(r) => [Verified(e.height, r.0, r.1)]
      case None => []
  }

  /** The entries that a read from a start score returns. */
  function From(s: seq<Entry>, start: int): seq<Entry> {
    if s == [] then []
    else From(s[..|s| - 1], start) + (if s[|s| - 1].height >= start then [s[|s| - 1]] else [])
  }

  /** The verifier's stored progress: the last verified height and everything reported so far. */
  datatype Progress = Progress(last: int, reported: seq<Issue>)

  /** One verification cycle over the chain as it is now. Without a non-null block to look at the
      verifier indexes an empty slice and dies, which stores nothing. */
  function Cycle(v: Progress, s: seq<Entry>): Progress {
    var chain := NonNull(From(s, v.last));
    if chain == [] then v
    else Progress(chain[|chain| - 1].height, v.reported + Scan(chain))
  }

  function Cycles(v: Progress, s: seq<Entry>, lengths: seq<nat>): Progress
    requires forall i | 0 <= i < |lengths| :: lengths[i] <= |s|
    decreases |lengths|
  {
    if lengths == [] then v
    else
      var n := |lengths| - 1;
      Cycle(Cycles(v, s, lengths[..n]), s[..lengths[n]])
  }

  predicate HeightsAscend(s: seq<Entry>) {
    (forall i | 0 <= i < |s| :: s[i].height > 0) &&
    forall i, j | 0 <= i < j < |s| :: s[i].height < s[j].height
  }

  /** Progress is exactly the one-shot result for the first m blocks. */
  predicate UpTo(v: Progress, s: seq<Entry>) {
    var chain := NonNull(s);
    if chain == [] then v == Progress(0, [])
    else v.last == chain[|chain| - 1].height && v.reported == Scan(chain)
  }

  lemma {:induction false} NonNullConcat(a: seq<Entry>, b: seq<Entry>)
    ensures NonNull(a + b) == NonNull(a) + NonNull(b)
    decreases |b|
  {
    if b == [] {
      assert a + b == a;
    } else {
      assert (a + b)[..|a + b| - 1] == a + b[..|b| - 1];
      NonNullConcat(a, b[..|b| - 1]);
    }
  }

  lemma {:induction false} FromAll(s: seq<Entry>, start: int)
    requires forall i | 0 <= i < |s| :: s[i].height >= start
    ensures From(s, start) == s
  {
    if s != [] {
      FromAll(s[..|s| - 1], start);
    }
  }

  lemma {:induction false} FromNone(s: seq<Entry>, start: int)
    requires forall i | 0 <= i < |s| :: s[i].height < start
    ensures From(s, start) == []
  {
    if s != [] {
      FromNone(s[..|s| - 1], start);
    }
  }

  lemma {:induction false} FromConcat(a: seq<Entry>, b: seq<Entry>, start: int)
    ensures From(a + b, start) == From(a, start) + From(b, start)
    decreases |b|
  {
    if b == [] {
      assert a + b == a;
    } else {
      assert (a + b)[..|a + b| - 1] == a + b[..|b| - 1];
      FromConcat(a, b[..|b| - 1], start);
    }
  }

  lemma NoneOfNothing()
    ensures NonNull([]) == []
  {
  }

  lemma OneEntry(e: Entry, start: int)
    ensures From([e], start) == if e.height >= start then [e] else []
    ensures NonNull([e]) == if e.range.Some? then [Verified(e.height, e.range.value.0, e.range.value.1)] else []
  {
    assert [e][..0] == [];
    if e.range.Some? {
      assert NonNull([e]) == [] + [Verified(e.height, e.range.value.0, e.range.value.1)];
    }
  }

  /** A read that resumes at the last non-null height sees that block again and nothing before it. */
  lemma {:induction false} ResumeAtLast(s: seq<Entry>) returns (i: nat)
    requires HeightsAscend(s) && NonNull(s) != []
    ensures var n := NonNull(s);
            && NonNull(From(s, n[|n| - 1].height)) == [n[|n| - 1]]
            && i < |s| && s[i].height == n[|n| - 1].height
  {
    hide From, NonNull;
    NoneOfNothing();
    var m := |s| - 1;
    var prefix, e := s[..m], s[m];
    assert s == prefix + [e];
    NonNullConcat(prefix, [e]);
    var n := NonNull(s);
    var start := n[|n| - 1].height;
    OneEntry(e, start);
    FromConcat(prefix, [e], start);
    if e.range.Some? {
      FromNone(prefix, start);
      assert From(s, start) == [e];
      i := m;
    } else {
      i := ResumeAtLast(prefix);
      NonNullConcat(From(prefix, start), [e]);
      assert n == NonNull(prefix) && s[i] == prefix[i];
      assert From(s, start) == From(prefix, start) + [e];
    }
  }

  /** One more cycle over a longer chain reports exactly what is new. */
  lemma CycleExtends(v: Progress, s: seq<Entry>, m: nat, n: nat)
    requires HeightsAscend(s) && m <= n <= |s| && UpTo(v, s[..m])
    ensures UpTo(Cycle(v, s[..n]), s[..n])
  {
    hide NonNull, From, Scan;
    var seen, more := s[..m], s[m..n];
    assert s[..n] == seen + more;
    NonNullConcat(seen, more);
    if NonNull(seen) == [] {
      FromAll(s[..n], 0);
    } else {
      ResumedRead(seen, more);
      ScanSplits(NonNull(seen), NonNull(more));
    }
  }

  lemma ResumedRead(seen: seq<Entry>, more: seq<Entry>)
    requires HeightsAscend(seen + more) && NonNull(seen) != []
    ensures var chain := NonNull(seen);
            NonNull(From(seen + more, chain[|chain| - 1].height)) == [chain[|chain| - 1]] + NonNull(more)
  {
    hide NonNull, From;
    var chain := NonNull(seen);
    var start := chain[|chain| - 1].height;
    forall i | 0 <= i < |seen| ensures seen[i] == (seen + more)[i] {
    }
    forall i | 0 <= i < |more| ensures more[i] == (seen + more)[|seen| + i] {
    }
    var i := ResumeAtLast(seen);
    FromConcat(seen, more, start);
    FromAll(more, start);
    NonNullConcat(From(seen, start), more);
  }

  /** However the history is cut into verification cycles, the cycles together report the issues of
      one scan of the whole chain, each exactly once, and remember the last non-null height. */
  lemma {:induction false} IncrementalIsOneShot(s: seq<Entry>, lengths: seq<nat>)
    requires HeightsAscend(s)
    requires forall i | 0 <= i < |lengths| :: lengths[i] <= |s|
    requires forall i, j | 0 <= i < j < |lengths| :: lengths[i] <= lengths[j]
    requires lengths != []
    ensures UpTo(Cycles(Progress(0, []), s, lengths), s[..lengths[|lengths| - 1]])
    decreases |lengths|
  {
    var n := |lengths| - 1;
    if n == 0 {
      assert s[..0] == [];
      CycleExtends(Progress(0, []), s, 0, lengths[0]);
    } else {
      IncrementalIsOneShot(s, lengths[..n]);
      assert lengths[..n][|lengths[..n]| - 1] == lengths[n - 1];
      CycleExtends(Cycles(Progress(0, []), s, lengths[..n]), s, lengths[n - 1], lengths[n]);
    }
  }

  // --- cycles whose heights are not stored ------------------------------------------------

  /** Issues are stored at once, last heights only when all projects are through: a process that dies in
      between, because of any project, forgets how far this cycle came. */
  function CycleOr(v: Progress, s: seq<Entry>, stored: bool): Progress {
    var after := Cycle(v, s);
    if stored then after else Progress(v.last, after.reported)
  }

  function CyclesOr(v: Progress, s: seq<Entry>, lengths: seq<nat>, stored: seq<bool>): Progress
    requires |stored| == |lengths| && forall i | 0 <= i < |lengths| :: lengths[i] <= |s|
    decreases |lengths|
  {
    if lengths == [] then v
    else
      var n := |lengths| - 1;
      CycleOr(CyclesOr(v, s, lengths[..n], stored[..n]), s[..lengths[n]], stored[n])
  }

  ghost predicate SameIssues(a: seq<Issue>, b: seq<Issue>) {
    forall x :: x in a <==> x in b
  }

  /** Heights were last stored for the first m blocks, issues reported for the first k. */
  ghost predicate Behind(v: Progress, s: seq<Entry>, m: nat, k: nat) {
    && m <= k <= |s|
    && (var chain := NonNull(s[..m]);
        v.last == if chain == [] then 0 else chain[|chain| - 1].height)
    && SameIssues(v.reported, Scan(NonNull(s[..k])))
  }

  lemma ScanOfPrefix(s: seq<Entry>, m: nat, k: nat)
    requires m <= k <= |s|
    ensures forall x | x in Scan(NonNull(s[..m])) :: x in Scan(NonNull(s[..k]))
  {
    hide NonNull, Scan;
    assert s[..k] == s[..m] + s[m..k];
    NonNullConcat(s[..m], s[m..k]);
    if NonNull(s[..m]) == [] {
      NothingToScan([]);
    } else {
      ScanSplits(NonNull(s[..m]), NonNull(s[m..k]));
    }
  }

  /** What a cycle looks at, together with what lies below the stored height, is the whole chain. */
  lemma {:induction false} CycleCompletes(v: Progress, s: seq<Entry>, m: nat, n: nat)
    requires HeightsAscend(s) && m <= n <= |s|
    requires var chain := NonNull(s[..m]); v.last == if chain == [] then 0 else chain[|chain| - 1].height
    ensures var looked := NonNull(From(s[..n], v.last));
            Scan(NonNull(s[..n])) == Scan(NonNull(s[..m])) + Scan(looked)
    ensures var whole, looked := NonNull(s[..n]), NonNull(From(s[..n], v.last));
            && (whole == [] <==> looked == []) && (whole == [] ==> v.last == 0)
            && (whole != [] ==> looked[|looked| - 1] == whole[|whole| - 1])
  {
    hide NonNull, From, Scan;
    var seen, more := s[..m], s[m..n];
    assert s[..n] == seen + more;
    NonNullConcat(seen, more);
    if NonNull(seen) == [] {
      FromAll(s[..n], 0);
      NothingToScan([]);
    } else {
      ResumedRead(seen, more);
      ScanSplits(NonNull(seen), NonNull(more));
    }
  }

  lemma {:induction false} CycleOrStaysBehind(v: Progress, s: seq<Entry>, m: nat, k: nat, n: nat, stored: bool)
    requires HeightsAscend(s) && Behind(v, s, m, k) && k <= n <= |s|
    ensures Behind(CycleOr(v, s[..n], stored), s, if stored then n else m, n)
  {
    hide NonNull, From, Scan;
    CycleCompletes(v, s, m, n);
    ScanOfPrefix(s, m, k);
    ScanOfPrefix(s, k, n);
    var looked := NonNull(From(s[..n], v.last));
    if looked == [] {
      NothingToScan(looked);
    }
  }

  /** With cycles that die before their heights are stored, issues may be reported again, but none is ever
      missing and none is made up: the issues reported are those of one scan of the longest chain looked at. */
  lemma {:induction false} EveryIssueIsReported(s: seq<Entry>, lengths: seq<nat>, stored: seq<bool>) returns (m: nat)
    requires HeightsAscend(s) && |stored| == |lengths|
    requires forall i | 0 <= i < |lengths| :: lengths[i] <= |s|
    requires forall i, j | 0 <= i < j < |lengths| :: lengths[i] <= lengths[j]
    requires lengths != []
    ensures Behind(CyclesOr(Progress(0, []), s, lengths, stored), s, m, lengths[|lengths| - 1])
    decreases |lengths|
  {
    hide Behind, CycleOr;
    var n := |lengths| - 1;
    if n == 0 {
      NothingBehind(s);
      CycleOrStaysBehind(Progress(0, []), s, 0, 0, lengths[0], stored[0]);
      m := if stored[0] then lengths[0] else 0;
    } else {
      m := EveryIssueIsReported(s, lengths[..n], stored[..n]);
      assert lengths[..n][|lengths[..n]| - 1] == lengths[n - 1];
      CycleOrStaysBehind(CyclesOr(Progress(0, []), s, lengths[..n], stored[..n]), s, m, lengths[n - 1], lengths[n],
                         stored[n]);
      m := if stored[n] then lengths[n] else m;
    }
  }

  lemma NothingBehind(s: seq<Entry>)
    ensures Behind(Progress(0, []), s, 0, 0)
  {
    assert s[..0] == [];
    NothingToScan([]);
  }

  // --- cycles over a pruned index ------------------------------------------------------------

  /** The entries up to a height: what pruning takes from the reads. */
  function Below(s: seq<Entry>, f: int): seq<Entry> {
    if s == [] then [] else Below(s[..|s| - 1], f) + (if s[|s| - 1].height <= f then [s[|s| - 1]] else [])
  }

  /** What a cycle still sees once the index has forgotten the heights up to f. */
  function Seen(v: Progress, s: seq<Entry>, f: int): seq<Verified> {
    NonNull(From(From(s, f + 1), v.last))
  }

  function CycleThrough(v: Progress, s: seq<Entry>, f: int): Progress {
    Cycle(v, From(s, f + 1))
  }

  /** The last verified block, the forgotten blocks above it and the first block that the cycle sees. */
  function Bridge(v: Progress, s: seq<Entry>, f: int): seq<Verified> {
    NonNull(From(Below(s, f), v.last)) + (if Seen(v, s, f) == [] then [] else [Seen(v, s, f)[0]])
  }

  lemma BelowMore(s: seq<Entry>, e: Entry, f: int)
    ensures Below(s + [e], f) == Below(s, f) + if e.height <= f then [e] else []
  {
    assert (s + [e])[..|s|] == s;
  }

  lemma {:induction false} Cut(s: seq<Entry>, f: int)
    requires HeightsAscend(s)
    ensures s == Below(s, f) + From(s, f + 1)
  {
    hide From, Below, HeightsAscend;
    if s == [] {
      FromAll([], f + 1);
      NothingBelow(f);
    } else {
      var prefix, e := s[..|s| - 1], s[|s| - 1];
      assert s == prefix + [e];
      AscendsBelow(s);
      Cut(prefix, f);
      if e.height <= f {
        CutAbove(prefix, e, f);
      } else {
        CutWithin(prefix, e, f);
      }
    }
  }

  lemma AscendsBelow(s: seq<Entry>)
    requires HeightsAscend(s) && s != []
    ensures HeightsAscend(s[..|s| - 1])
  {
  }

  lemma CutAbove(s: seq<Entry>, e: Entry, f: int)
    requires HeightsAscend(s + [e]) && e.height <= f && s == Below(s, f) + From(s, f + 1)
    ensures s + [e] == Below(s + [e], f) + From(s + [e], f + 1)
  {
    hide From, Below;
    AllBelow(s + [e], f);
    forall i | 0 <= i < |s| ensures s[i].height < f + 1 {
      assert (s + [e])[i] == s[i];
    }
    FromNone(s + [e], f + 1);
    FromNone(s, f + 1);
    BelowMore(s, e, f);
  }

  lemma CutWithin(s: seq<Entry>, e: Entry, f: int)
    requires e.height > f && s == Below(s, f) + From(s, f + 1)
    ensures s + [e] == Below(s + [e], f) + From(s + [e], f + 1)
  {
    hide From, Below;
    BelowMore(s, e, f);
    FromConcat(s, [e], f + 1);
    OneEntry(e, f + 1);
  }

  lemma AllBelow(s: seq<Entry>, f: int)
    requires HeightsAscend(s) && s != [] && s[|s| - 1].height <= f
    ensures forall i | 0 <= i < |s| :: s[i].height < f + 1
  {
  }

  lemma NothingBelow(f: int)
    ensures Below([], f) == []
  {
  }

  /** The issues of a chain, split at what a cycle over a pruned index sees of it. */
  lemma {:induction false} CycleLoses(v: Progress, s: seq<Entry>, m: nat, n: nat, f: int)
    requires HeightsAscend(s) && m <= n <= |s|
    requires var chain := NonNull(s[..m]); v.last == if chain == [] then 0 else chain[|chain| - 1].height
    ensures var whole, seen := NonNull(s[..n]), Seen(v, s[..n], f);
            seen != [] ==>
              && Scan(whole) == Scan(NonNull(s[..m])) + Scan(Bridge(v, s[..n], f)) + Scan(seen)
              && whole != [] && seen[|seen| - 1] == whole[|whole| - 1]
  {
    hide NonNull, From, Below, Scan;
    var chain := s[..n];
    CycleCompletes(v, s, m, n);
    Cut(chain, f);
    FromConcat(Below(chain, f), From(chain, f + 1), v.last);
    NonNullConcat(From(Below(chain, f), v.last), From(From(chain, f + 1), v.last));
    var lost, seen := NonNull(From(Below(chain, f), v.last)), Seen(v, chain, f);
    assert NonNull(From(chain, v.last)) == lost + seen;
    if seen != [] {
      var first := seen[0];
      assert lost + seen == (lost + [first]) + seen[1..];
      assert [first] + seen[1..] == seen;
      ScanSplits(lost + [first], seen[1..]);
    }
  }

  /** A cycle over a pruned index reports what one scan of the whole chain reports exactly when no issue lies
      between the last verified block and the first one it still sees; otherwise just these are missing. */
  lemma {:induction false} PrunedCycleExactly(v: Progress, s: seq<Entry>, m: nat, f: int)
    requires HeightsAscend(s) && m <= |s| && UpTo(v, s[..m])
    ensures Seen(v, s, f) == [] ==> CycleThrough(v, s, f) == v
    ensures Seen(v, s, f) != [] ==>
              && (UpTo(CycleThrough(v, s, f), s) <==> Scan(Bridge(v, s, f)) == [])
              && Scan(NonNull(s)) == v.reported + Scan(Bridge(v, s, f)) + Scan(Seen(v, s, f))
    ensures f < v.last ==> Scan(Bridge(v, s, f)) == []
  {
    hide NonNull, From, Below, Scan, Bridge;
    assert s[..|s|] == s;
    CycleLoses(v, s, m, |s|, f);
    ReportedSoFar(v, s[..m]);
    if f < v.last {
      NothingToBridge(v, s, f);
    }
  }

  lemma ReportedSoFar(v: Progress, s: seq<Entry>)
    requires UpTo(v, s)
    ensures v.reported == Scan(NonNull(s))
  {
    hide NonNull;
  }

  lemma {:induction false} BelowHeights(s: seq<Entry>, f: int)
    ensures forall e | e in Below(s, f) :: e.height <= f
  {
    if s != [] {
      BelowHeights(s[..|s| - 1], f);
    }
  }

  lemma NothingToBridge(v: Progress, s: seq<Entry>, f: int)
    requires f < v.last
    ensures Scan(Bridge(v, s, f)) == []
  {
    hide NonNull, Below, Scan;
    var b := Below(s, f);
    BelowHeights(s, f);
    forall i | 0 <= i < |b| ensures b[i].height < v.last {
      assert b[i] in b;
    }
    FromNone(b, v.last);
    NoneOfNothing();
    NothingToScan(Bridge(v, s, f));
  }

  /** Cycles over a growing chain whose index is pruned meanwhile. */
  function CyclesThrough(v: Progress, s: seq<Entry>, lengths: seq<nat>, forgotten: seq<int>): Progress
    requires |forgotten| == |lengths| && forall i | 0 <= i < |lengths| :: lengths[i] <= |s|
    decreases |lengths|
  {
    if lengths == [] then v
    else
      var n := |lengths| - 1;
      CycleThrough(CyclesThrough(v, s, lengths[..n], forgotten[..n]), s[..lengths[n]], forgotten[n])
  }

  /** How many issues a cycle misses for good. */
  function Missed(v: Progress, s: seq<Entry>, f: int): nat {
    if Seen(v, s, f) == [] then 0 else |Scan(Bridge(v, s, f))|
  }

  function AllMissed(v: Progress, s: seq<Entry>, lengths: seq<nat>, forgotten: seq<int>): nat
    requires |forgotten| == |lengths| && forall i | 0 <= i < |lengths| :: lengths[i] <= |s|
    decreases |lengths|
  {
    if lengths == [] then 0
    else
      var n := |lengths| - 1;
      AllMissed(v, s, lengths[..n], forgotten[..n]) +
      Missed(CyclesThrough(v, s, lengths[..n], forgotten[..n]), s[..lengths[n]], forgotten[n])
  }

  /** Progress over the first m blocks of which some issues were missed. */
  ghost predicate Short(v: Progress, s: seq<Entry>, m: nat, missed: nat) {
    && m <= |s|
    && (var chain := NonNull(s[..m]);
        v.last == if chain == [] then 0 else chain[|chain| - 1].height)
    && |v.reported| + missed == |Scan(NonNull(s[..m]))|
    && (missed == 0 ==> v.reported == Scan(NonNull(s[..m])))
  }

  lemma {:induction false} CycleStaysShort(v: Progress, s: seq<Entry>, m: nat, missed: nat, n: nat, f: int)
    requires HeightsAscend(s) && Short(v, s, m, missed) && m <= n <= |s|
    ensures var m' := if Seen(v, s[..n], f) == [] then m else n;
            Short(CycleThrough(v, s[..n], f), s, m', missed + Missed(v, s[..n], f))
  {
    hide NonNull, From, Below, Scan, Bridge;
    CycleLoses(v, s, m, n, f);
  }

  /** Over any run of cycles, with the chain growing and the index being pruned in between: the issues reported
      fall short of one scan of what was looked at by exactly those that lay in forgotten parts, so that the
      cycles together report what one scan does exactly when there were none. */
  lemma {:induction false} PrunedRunExactly(s: seq<Entry>, lengths: seq<nat>, forgotten: seq<int>) returns (m: nat)
    requires HeightsAscend(s) && |forgotten| == |lengths|
    requires forall i | 0 <= i < |lengths| :: lengths[i] <= |s|
    requires forall i, j | 0 <= i < j < |lengths| :: lengths[i] <= lengths[j]
    ensures m <= (if lengths == [] then 0 else lengths[|lengths| - 1])
    ensures var v, missed := CyclesThrough(Progress(0, []), s, lengths, forgotten),
                             AllMissed(Progress(0, []), s, lengths, forgotten);
            && Short(v, s, m, missed)
            && (v.reported == Scan(NonNull(s[..m])) <==> missed == 0)
    decreases |lengths|
  {
    hide NonNull, Scan, CycleThrough, Missed, Seen;
    if lengths == [] {
      m := 0;
      assert s[..0] == [];
      NoneOfNothing();
      NothingToScan([]);
    } else {
      var n := |lengths| - 1;
      m := PrunedRunExactly(s, lengths[..n], forgotten[..n]);
      var v := CyclesThrough(Progress(0, []), s, lengths[..n], forgotten[..n]);
      var missed := AllMissed(Progress(0, []), s, lengths[..n], forgotten[..n]);
      assert n > 0 ==> lengths[..n][|lengths[..n]| - 1] == lengths[n - 1];
      CycleStaysShort(v, s, m, missed, lengths[n], forgotten[n]);
      m := if Seen(v, s[..lengths[n]], forgotten[n]) == [] then m else lengths[n];
    }
  }

  // --- the verifier --------------------------------------------------------------

  /** What the two index reads of a cycle return, and the payload ranges that can be fetched. */
  datatype Reads = Reads(dag: seq<DagEntry>, payloads: seq<PayloadEntry>, ranges: map<string, (int, int)>,
                         ipfs: map<string, string>)

  /** How a project's cycle ends: with a scan, without one, or with the process. */
  datatype CycleEnd = Done | Ended | Died

  class DagVerifier {
    var lastVerified: map<string, int>
    var chainGaps: map<string, seq<Issue>>

    function ProgressOf(project: string): Progress
      reads this
    {
      Progress(if project in lastVerified then lastVerified[project] else 0,
               if project in chainGaps then chainGaps[project] else [])
    }

    constructor ()
      ensures lastVerified == map[] && chainGaps == map[]
    {
      lastVerified, chainGaps := map[], map[];
    }

    /** `VerifyDagChain`: merge, fetch the ranges, scan, then note the last verified height. A chain in which
        every block is null indexes an empty slice, and the whole process dies. */
    method VerifyDagChain(project: string, reads_: Reads) returns (end: CycleEnd)
      modifies this
      ensures !end.Done? ==> lastVerified == old(lastVerified) && chainGaps == old(chainGaps)
      ensures var m := Merge(reads_.dag, reads_.payloads, 0, reads_.ipfs);
              && (end.Died? <==> reads_.dag != [] && m == Merged([]))
              && (end.Done? <==>
                    reads_.dag != [] && m.Merged? && m.chain != [] &&
                    forall b | b in m.chain :: b.payloadCid in reads_.ranges)
      ensures end.Done? ==>
                var chain := WithRanges(Merge(reads_.dag, reads_.payloads, 0, reads_.ipfs).chain, reads_.ranges);
                && ProgressOf(project) == Progress(chain[|chain| - 1].height,
                                                   old(ProgressOf(project)).reported + Scan(chain))
                && (forall x :: x in ProgressOf(project).reported <==>
                                x in old(ProgressOf(project)).reported || exists i :: CalledAt(chain, i, x))
                && forall p | p != project :: ProgressOf(p) == old(ProgressOf(p))
    {
      if reads_.dag == [] {
        return Ended;
      }
      var merged := MergeWithRestarts(reads_.dag, reads_.payloads, reads_.ipfs);
      if !merged.Merged? {
        return Ended;
      }
      for i := 0 to |merged.chain|
        invariant forall j | 0 <= j < i :: merged.chain[j].payloadCid in reads_.ranges
      {
        if merged.chain[i].payloadCid !in reads_.ranges {
          assert merged.chain[i] in merged.chain;
          return Ended;
        }
      }
      if merged.chain == [] {
        return Died;
      }
      var chain := WithRanges(merged.chain, reads_.ranges);
      var issues := VerifyDagForIssues(chain);
      ScanMembers(chain);
      chainGaps := chainGaps[project := (if project in chainGaps then chainGaps[project] else []) + issues];
      lastVerified := lastVerified[project := chain[|chain| - 1].height];
      end := Done;
    }
  }

  function WithRanges(chain: seq<DagEntry>, ranges: map<string, (int, int)>): (r: seq<Verified>)
    requires forall b | b in chain :: b.payloadCid in ranges
    ensures |r| == |chain|
    ensures forall i | 0 <= i < |r| ::
              r[i] == Verified(chain[i].height, ranges[chain[i].payloadCid].0, ranges[chain[i].payloadCid].1)
  {
    if chain == [] then []
    else
      assert chain[|chain| - 1] in chain;
      WithRanges(chain[..|chain| - 1], ranges) +
      [Verified(chain[|chain| - 1].height, ranges[chain[|chain| - 1].payloadCid].0,
                ranges[chain[|chain| - 1].payloadCid].1)]
  }
}
