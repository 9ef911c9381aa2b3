/** Retiring old segments: archive or drop them in order, and forget their heights. */
module Pruning {
  import opened Wrappers
  import opened Store
  import FinalizerService

  datatype Settings = Settings(performArchival: bool, pruneZsets: bool, buffer: nat, behindHead: nat)

  /** What becomes of a segment once its turn comes. The archive upload and the CID reads may fail, which ends
      the pass; so may the writes that note its new storage type and that remove its heights from the two
      indexes, from which the pass goes on. */
  datatype Fate = Fate(archived: bool, readable: bool, noted: bool, cidsRemoved: bool, payloadsRemoved: bool)

  predicate Smooth(fate: Fate) {
    fate == Fate(true, true, true, true, true)
  }

  datatype State = State(
    segments: map<int, Segment>,
    lastPruned: int,
    cids: map<int, seq<Cid>>,
    payloadCids: map<string, int>)

  /** `GetOldestIndexedProjectHeight`: the 7d tail, or, for a project without that index, a fixed
      distance behind the finalized height. */
  function OldestIndexed(settings: Settings, tail: Option<int>, blockHeight: nat): int {
    match tail
    case Some(t) => t
    case None => if blockHeight == 0 then 0 else blockHeight - settings.behindHead
  }

  /** `FindPruningHeight`: -1 stands for an unknown oldest height. */
  function HeightToPrune(settings: Settings, lastPruned: int, oldest: int): int {
    if oldest == -1 then lastPruned else oldest - settings.buffer
  }

  function DropUpTo<T>(z: map<int, seq<T>>, h: int): map<int, seq<T>> {
    map k | k in z && k > h :: z[k]
  }

  function DropPayloadsUpTo(z: map<string, int>, h: int): map<string, int> {
    map c | c in z && z[c] > h :: z[c]
  }

  function Retire(settings: Settings, s: State, e: int, fate: Fate): State
    requires e in s.segments
  {
    State(
      if fate.noted then s.segments[e := s.segments[e].(storage := if settings.performArchival then Cold else Pruned)]
          else s.segments,
      e,
      if settings.pruneZsets && fate.cidsRemoved then DropUpTo(s.cids, e) else s.cids,
      if settings.pruneZsets && fate.payloadsRemoved then DropPayloadsUpTo(s.payloadCids, e) else s.payloadCids)
  }

  predicate Fails(settings: Settings, fate: Fate) {
    !fate.readable || (settings.performArchival && !fate.archived)
  }

  // --- what a pass is to leave ---------------------------------------------------------

  /** A segment whose turn comes: it ends below the pruning height and is not retired yet. */
  predicate Turn(s: State, height: int, e: int) {
    e in s.segments && e < height && s.segments[e].storage == PendingStorage
  }

  /** Its CIDs can be read and, with archival on, its archive is uploaded. */
  predicate Works(settings: Settings, fate: Fate) {
    fate.readable && (settings.performArchival ==> fate.archived)
  }

  ghost predicate SomeTurn(s: State, height: int) {
    exists e :: Turn(s, height, e)
  }

  ghost predicate SomeFails(settings: Settings, s: State, height: int, fates: int -> Fate) {
    exists e :: Turn(s, height, e) && !Works(settings, fates(e))
  }

  /** The pass retires the segment: neither it nor any before it fails. */
  ghost predicate Reached(settings: Settings, s: State, height: int, fates: int -> Fate, e: int) {
    Turn(s, height, e) && forall k | k <= e && Turn(s, height, k) :: Works(settings, fates(k))
  }

  /** The reached segments get their storage type, where it is noted: cold when they are archived, pruned
      otherwise. No other segment changes. */
  ghost predicate RetiredSegments(settings: Settings, s: State, s': State, height: int, fates: int -> Fate) {
    && s'.segments.Keys == s.segments.Keys
    && forall e | e in s.segments ::
         var retires := Reached(settings, s, height, fates, e) && fates(e).noted;
         && s'.segments[e] == s.segments[e].(storage := s'.segments[e].storage)
         && (s'.segments[e].storage == Cold <==>
               s.segments[e].storage == Cold || (retires && settings.performArchival && fates(e).archived))
         && (s'.segments[e].storage == Pruned <==>
               s.segments[e].storage == Pruned || (retires && !settings.performArchival))
  }

  /** The indexes lose the heights up to each reached segment, where their removal goes through. */
  ghost predicate RetiredHeights(settings: Settings, s: State, s': State, height: int, fates: int -> Fate) {
    && (forall h :: At(s'.cids, h) ==
                    if settings.pruneZsets &&
                       exists e :: h <= e && Reached(settings, s, height, fates, e) && fates(e).cidsRemoved
                    then [] else At(s.cids, h))
    && (forall c :: c in s'.payloadCids <==>
                    c in s.payloadCids &&
                    !(settings.pruneZsets &&
                      exists e :: s.payloadCids[c] <= e && Reached(settings, s, height, fates, e)
                                  && fates(e).payloadsRemoved))
    && (forall c | c in s'.payloadCids :: s'.payloadCids[c] == s.payloadCids[c])
  }

  /** What a pass does; the last reached segment becomes the last pruned height. */
  ghost predicate Retired(settings: Settings, s: State, s': State, height: int, fates: int -> Fate) {
    && RetiredSegments(settings, s, s', height, fates) && RetiredHeights(settings, s, s', height, fates)
    && (Reached(settings, s, height, fates, s'.lastPruned) ||
        (s'.lastPruned == s.lastPruned && forall e :: !Reached(settings, s, height, fates, e)))
    && (forall e | Reached(settings, s, height, fates, e) :: e <= s'.lastPruned)
  }

  /** The pass over the segment ends: the state it leaves, and the segment it stopped at, if any. */
  function RetireAll(settings: Settings, s: State, ends: seq<int>, height: int,
                     fates: int -> Fate): (State, Option<int>)
    requires forall e | e in ends :: e in s.segments
    decreases |ends|
  {
    if ends == [] then (s, None)
    else
      var e := ends[0];
      if e < height && s.segments[e].storage == PendingStorage then
        if Fails(settings, fates(e)) then (s, Some(e))
        else RetireAll(settings, Retire(settings, s, e, fates(e)), ends[1..], height, fates)
      else RetireAll(settings, s, ends[1..], height, fates)
  }

  predicate Ascending(ends: seq<int>) {
    forall i, j | 0 <= i < j < |ends| :: ends[i] < ends[j]
  }

  /** `SortKeysAsNumber`. */
  method SortKeysAsNumber(keys: set<int>) returns (sorted: seq<int>)
    ensures Ascending(sorted)
    ensures forall k :: k in sorted <==> k in keys
  {
    sorted := [];
    var rest := keys;
    while |rest| > 0
      invariant rest <= keys && Ascending(sorted)
      invariant forall k :: k in sorted <==> k in keys && k !in rest
      invariant forall k, j | k in rest && 0 <= j < |sorted| :: k < sorted[j]
      decreases |rest|
    {
      var largest := FinalizerService.LastKey(rest);
      forall k | k in rest && k != largest ensures k < largest {
      }
      sorted := [largest] + sorted;
      rest := rest - {largest};
    }
  }

  class Pruner {
    const settings: Settings
    var segments: map<int, Segment>
    var lastPruned: int
    var cids: map<int, seq<Cid>>
    var payloadCids: map<string, int>

    function View(): State
      reads this
    {
      State(segments, lastPruned, cids, payloadCids)
    }

    constructor (settings: Settings, st: Project)
      ensures this.settings == settings
      ensures View() == State(st.segments, 0, st.cids, st.payloadCids)
    {
      this.settings := settings;
      segments, lastPruned, cids, payloadCids := st.segments, 0, st.cids, st.payloadCids;
    }

    method UpdateDagSegmentStatus(e: int, storage: Storage, noted: bool)
      requires e in segments
      modifies this`segments
      ensures segments == if noted then old(segments)[e := old(segments)[e].(storage := storage)] else old(segments)
    {
      if noted {
        segments := segments[e := segments[e].(storage := storage)];
      }
    }

    /** The two removals are writes of their own; each may fail. */
    method PruneProjectInRedis(e: int, fate: Fate)
      modifies this`cids, this`payloadCids
      ensures cids == if fate.cidsRemoved then DropUpTo(old(cids), e) else old(cids)
      ensures payloadCids == if fate.payloadsRemoved then DropPayloadsUpTo(old(payloadCids), e) else old(payloadCids)
    {
      if fate.cidsRemoved {
        cids := DropUpTo(cids, e);
      }
      if fate.payloadsRemoved {
        payloadCids := DropPayloadsUpTo(payloadCids, e);
      }
    }

    /** The body of the loop over the segments: one that is pending and ends below the pruning height. */
    method ProcessSegment(e: int, height: int, fate: Fate) returns (failed: bool, retired: bool)
      requires e in segments
      modifies this
      ensures failed <==> Turn(old(View()), height, e) && Fails(settings, fate)
      ensures retired <==> Turn(old(View()), height, e) && !Fails(settings, fate)
      ensures View() == if retired then Retire(settings, old(View()), e, fate) else old(View())
      ensures segments.Keys == old(segments.Keys)
    {
      failed, retired := false, false;
      if e < height && segments[e].storage == PendingStorage {
        var storage := Pruned;
        if settings.performArchival {
          if !fate.archived {
            return true, false;
          }
          storage := Cold;
        }
        if !fate.readable {
          return true, false;
        }
        UpdateDagSegmentStatus(e, storage, fate.noted);
        lastPruned := e;
        if settings.pruneZsets {
          PruneProjectInRedis(e, fate);
        }
        retired := true;
      }
    }

    /** `ProcessProject`: 0 when something was retired, 1 when there was nothing to do, -2 on a failure. */
    method ProcessProject(tail: Option<int>, blockHeight: nat, fates: int -> Fate)
            returns (code: int, ghost sorted: seq<int>)
      modifies this
      ensures Ascending(sorted) && forall k :: k in sorted <==> k in old(segments)
      ensures var height := HeightToPrune(settings, old(lastPruned), OldestIndexed(settings, tail, blockHeight));
              var (after, failed) := RetireAll(settings, old(View()), sorted, height, fates);
              if height <= old(lastPruned) then code == 1 && View() == old(View())
              else View() == after && (code == -2 <==> failed.Some?)
      ensures code == 1 ==> View() == old(View())
      ensures CycleEnds(settings, old(View()), View(), tail, blockHeight, fates, code)
    {
      var height := HeightToPrune(settings, lastPruned, OldestIndexed(settings, tail, blockHeight));
      var ends := SortKeysAsNumber(segments.Keys);
      sorted := ends;
      RetiredExactly(settings, View(), ends, height, fates);
      CycleEndsAs(settings, View(), ends, tail, blockHeight, fates);
      if height <= lastPruned {
        return 1, sorted;
      }
      ghost var was := View();
      hide CycleEnds, Ascending, RetireAll, Busy, OldestIndexed, HeightToPrune, Retire, Fails, Turn;
      var processed := false;
      for i := 0 to |ends|
        invariant segments.Keys == was.segments.Keys
        invariant forall e | e in ends :: e in was.segments.Keys
        invariant forall e | e in ends[i..] :: e in segments
        invariant RetireAll(settings, View(), ends[i..], height, fates) ==
                  RetireAll(settings, was, ends, height, fates)
        invariant !processed ==> View() == was
        invariant processed || Busy(settings, View(), ends[i..], height, fates) <==>
                  Busy(settings, was, ends, height, fates)
      {
        var e := ends[i];
        assert forall k | k in ends :: k in segments.Keys;
        PassSteps(settings, View(), ends, i, height, fates);
        var failed, retired := ProcessSegment(e, height, fates(e));
        if failed {
          return -2, sorted;
        }
        processed := processed || retired;
      }
      PassEnds(settings, View(), ends, height, fates);
      code := if processed then 0 else 1;
    }
  }

  /** How a cycle ends: 0 when something was retired, 1 when there was nothing to do, -2 on a failure. */
  ghost predicate CycleEnds(settings: Settings, s: State, s': State, tail: Option<int>, blockHeight: nat,
                            fates: int -> Fate, code: int) {
    var oldest := if tail.Some? then tail.value else if blockHeight == 0 then 0 else blockHeight - settings.behindHead;
    var height := oldest - settings.buffer;
    if oldest == -1 || height <= s.lastPruned then code == 1 && s' == s
    else
      && Retired(settings, s, s', height, fates)
      && code == if SomeFails(settings, s, height, fates) then -2
                 else if SomeTurn(s, height) then 0 else 1
  }

  lemma CycleEndsAs(settings: Settings, s: State, ends: seq<int>, tail: Option<int>, blockHeight: nat,
                    fates: int -> Fate)
    requires Ascending(ends) && forall e :: e in ends <==> e in s.segments
    ensures var height := HeightToPrune(settings, s.lastPruned, OldestIndexed(settings, tail, blockHeight));
            var (after, failed) := RetireAll(settings, s, ends, height, fates);
            var code := if height <= s.lastPruned then 1
                        else if failed.Some? then -2
                        else if Busy(settings, s, ends, height, fates) then 0 else 1;
            CycleEnds(settings, s, if height <= s.lastPruned then s else after, tail, blockHeight, fates, code)
  {
    hide Retired, RetireAll, Ascending, Turn, Works, Busy;
    var height := HeightToPrune(settings, s.lastPruned, OldestIndexed(settings, tail, blockHeight));
    RetiredExactly(settings, s, ends, height, fates);
    BusyExactly(settings, s, ends, height, fates);
  }

  lemma BusyExactly(settings: Settings, s: State, ends: seq<int>, height: int, fates: int -> Fate)
    requires Ascending(ends) && forall e :: e in ends <==> e in s.segments
    ensures SomeFails(settings, s, height, fates) ||
            (Busy(settings, s, ends, height, fates) <==> SomeTurn(s, height))
  {
    hide RetireAll, Ascending, Turn, Works;
    DueIsReached(settings, s, ends, height, fates);
    var due := Due(settings, s.segments, ends, height, fates);
    if due != [] {
      assert due[0] in due && Turn(s, height, due[0]);
    } else if e :| Turn(s, height, e) {
      assert !Reached(settings, s, height, fates, e);
      var k :| k <= e && Turn(s, height, k) && !Works(settings, fates(k));
      assert Turn(s, height, k);
    }
  }

  /** A pass retires something. */
  predicate Busy(settings: Settings, s: State, ends: seq<int>, height: int, fates: int -> Fate)
    requires forall e | e in ends :: e in s.segments
  {
    Due(settings, s.segments, ends, height, fates) != []
  }

  lemma PassEnds(settings: Settings, s: State, ends: seq<int>, height: int, fates: int -> Fate)
    requires forall e | e in ends :: e in s.segments
    ensures RetireAll(settings, s, ends[|ends|..], height, fates) == (s, None)
    ensures !Busy(settings, s, ends[|ends|..], height, fates)
  {
  }

  /** The pass at one segment end. */
  lemma PassSteps(settings: Settings, s: State, ends: seq<int>, i: nat, height: int, fates: int -> Fate)
    requires i < |ends| && Ascending(ends) && forall e | e in ends :: e in s.segments
    ensures forall k | i < k < |ends| :: ends[k] != ends[i]
    ensures forall e | e in ends[i..] :: e in s.segments
    ensures forall e | e in ends[i + 1..] :: e in s.segments
    ensures RetireAll(settings, s, ends[i..], height, fates) ==
            if !Turn(s, height, ends[i]) then RetireAll(settings, s, ends[i + 1..], height, fates)
            else if Fails(settings, fates(ends[i])) then (s, Some(ends[i]))
            else RetireAll(settings, Retire(settings, s, ends[i], fates(ends[i])), ends[i + 1..], height, fates)
    ensures Busy(settings, s, ends[i..], height, fates) <==>
            if !Turn(s, height, ends[i]) then Busy(settings, s, ends[i + 1..], height, fates)
            else !Fails(settings, fates(ends[i]))
  {
    assert ends[i..][0] == ends[i] && ends[i..][1..] == ends[i + 1..];
  }

  // --- what a pass does ----------------------------------------------------------------

  /** The segments that a pass retires: the pending ones below the pruning height, up to the first failure. */
  function Due(settings: Settings, segments: map<int, Segment>, ends: seq<int>, height: int,
               fates: int -> Fate): seq<int>
    requires forall e | e in ends :: e in segments
    decreases |ends|
  {
    if ends == [] then []
    else if ends[0] < height && segments[ends[0]].storage == PendingStorage then
      if Fails(settings, fates(ends[0])) then []
      else [ends[0]] + Due(settings, segments, ends[1..], height, fates)
    else Due(settings, segments, ends[1..], height, fates)
  }

  /** The height up to which a pass removed entries from Cids. */
  function CidsCut(settings: Settings, due: seq<int>, fates: int -> Fate): Option<int> {
    if !settings.pruneZsets || due == [] then None
    else if fates(due[|due| - 1]).cidsRemoved then Some(due[|due| - 1])
    else CidsCut(settings, due[..|due| - 1], fates)
  }

  function PayloadsCut(settings: Settings, due: seq<int>, fates: int -> Fate): Option<int> {
    if !settings.pruneZsets || due == [] then None
    else if fates(due[|due| - 1]).payloadsRemoved then Some(due[|due| - 1])
    else PayloadsCut(settings, due[..|due| - 1], fates)
  }

  predicate Gone(cut: Option<int>, h: int) {
    cut.Some? && h <= cut.value
  }

  /** Retiring some segments changes their storage type, where that was noted, the last pruned height and the
      two indexes, and nothing else. */
  ghost predicate Passed(settings: Settings, s: State, s': State, due: seq<int>, fates: int -> Fate) {
    && s'.lastPruned == (if due == [] then s.lastPruned else due[|due| - 1])
    && s'.segments.Keys == s.segments.Keys
    && (forall e | e in s.segments ::
          s'.segments[e] == if e in due && fates(e).noted
              then s.segments[e].(storage := if settings.performArchival then Cold else Pruned)
                            else s.segments[e])
    && (forall h :: At(s'.cids, h) == if Gone(CidsCut(settings, due, fates), h) then [] else At(s.cids, h))
    && (forall c :: c in s'.payloadCids <==>
                    c in s.payloadCids && !Gone(PayloadsCut(settings, due, fates), s.payloadCids[c]))
    && (forall c | c in s'.payloadCids :: s'.payloadCids[c] == s.payloadCids[c])
  }

  lemma NothingPassed(settings: Settings, s: State, fates: int -> Fate)
    ensures Passed(settings, s, s, [], fates)
  {
  }

  lemma OneMorePassed(settings: Settings, s: State, s': State, due: seq<int>, e: int, fates: int -> Fate)
    requires Passed(settings, s, s', due, fates) && Ascending(due + [e]) && e in s.segments
    ensures Passed(settings, s, Retire(settings, s', e, fates(e)), due + [e], fates)
  {
    hide CidsCut, PayloadsCut, Ascending;
    CutsOneMore(settings, due, e, fates);
    CutsBelow(settings, due, fates, e);
    SegmentsOneMore(settings, s, s', due, e, fates);
    var s'' := Retire(settings, s', e, fates(e));
    forall h ensures At(s''.cids, h) == if Gone(CidsCut(settings, due + [e], fates), h) then [] else At(s.cids, h) {
    }
    forall c ensures c in s''.payloadCids <==>
                     c in s.payloadCids && !Gone(PayloadsCut(settings, due + [e], fates), s.payloadCids[c])
    {
    }
  }

  lemma CutsOneMore(settings: Settings, due: seq<int>, e: int, fates: int -> Fate)
    ensures CidsCut(settings, due + [e], fates) ==
            if settings.pruneZsets && fates(e).cidsRemoved then Some(e) else CidsCut(settings, due, fates)
    ensures PayloadsCut(settings, due + [e], fates) ==
            if settings.pruneZsets && fates(e).payloadsRemoved then Some(e) else PayloadsCut(settings, due, fates)
  {
    assert (due + [e])[..|due|] == due;
  }

  lemma SegmentsOneMore(settings: Settings, s: State, s': State, due: seq<int>, e: int, fates: int -> Fate)
    requires Passed(settings, s, s', due, fates) && Ascending(due + [e]) && e in s.segments
    ensures e in s'.segments
    ensures var s'' := Retire(settings, s', e, fates(e));
            && s''.lastPruned == e && s''.segments.Keys == s.segments.Keys
            && forall k | k in s.segments ::
                 s''.segments[k] ==
                 if k in due + [e] && fates(k).noted then s.segments[k].(storage := if settings.performArchival
                     then Cold else Pruned)
                 else s.segments[k]
  {
    hide CidsCut, PayloadsCut;
    assert e in s'.segments.Keys;
    assert e !in due by {
      forall i | 0 <= i < |due| ensures due[i] < e {
        assert (due + [e])[i] < (due + [e])[|due|];
      }
    }
  }

  lemma {:induction false} CutsBelow(settings: Settings, due: seq<int>, fates: int -> Fate, e: int)
    requires Ascending(due + [e])
    ensures CidsCut(settings, due, fates).Some? ==> CidsCut(settings, due, fates).value < e
    ensures PayloadsCut(settings, due, fates).Some? ==> PayloadsCut(settings, due, fates).value < e
    decreases |due|
  {
    if due != [] {
      var n := |due| - 1;
      assert due[n] == (due + [e])[n] < (due + [e])[n + 1];
      AscendingPrefix(due, e);
      CutsBelow(settings, due[..n], fates, e);
    }
  }

  lemma AscendingPrefix(due: seq<int>, e: int)
    requires due != [] && Ascending(due + [e])
    ensures Ascending(due[..|due| - 1] + [e])
  {
    var n, all := |due| - 1, due + [e];
    forall i, j | 0 <= i < j <= n ensures (due[..n] + [e])[i] < (due[..n] + [e])[j] {
      assert all[i] < all[if j == n then n + 1 else j];
    }
  }

  // --- the pass, end by end ---------------------------------------------------------------

  lemma FirstOfAscending(ends: seq<int>)
    requires Ascending(ends) && ends != []
    ensures Ascending(ends[1..])
    ensures forall k :: k in ends <==> k == ends[0] || k in ends[1..]
    ensures forall k | k in ends[1..] :: ends[0] < k
  {
    assert ends == [ends[0]] + ends[1..];
  }

  lemma AscendingMore(due: seq<int>, e: int)
    requires Ascending(due) && forall k | k in due :: k < e
    ensures Ascending(due + [e])
  {
    forall i | 0 <= i < |due| ensures due[i] < e {
      assert due[i] in due;
    }
  }

  lemma {:induction false} SameDue(settings: Settings, a: map<int, Segment>, b: map<int, Segment>, ends: seq<int>,
                                   height: int,
                                   fates: int -> Fate)
    requires forall e | e in ends :: e in a && e in b && a[e] == b[e]
    ensures Due(settings, a, ends, height, fates) == Due(settings, b, ends, height, fates)
    decreases |ends|
  {
    if ends != [] {
      assert ends[0] in ends && forall e | e in ends[1..] :: e in ends;
      SameDue(settings, a, b, ends[1..], height, fates);
    }
  }

  /** What was done before, then the rest of the ends. */
  lemma {:induction false} PassFrom(settings: Settings, s: State, mid: State, done: seq<int>, ends: seq<int>,
                                    height: int,
                                    fates: int -> Fate)
    requires Passed(settings, s, mid, done, fates) && Ascending(done) && Ascending(ends)
    requires forall e | e in ends :: e in s.segments && e !in done && forall k | k in done :: k < e
    ensures forall e | e in ends :: e in mid.segments
    ensures Passed(settings, s, RetireAll(settings, mid, ends, height, fates).0,
                   done + Due(settings, s.segments, ends, height, fates), fates)
    decreases |ends|
  {
    hide Passed, Fails, Ascending, Retire;
    SameEnds(settings, s, mid, done, fates);
    if ends == [] {
      assert done + [] == done;
    } else {
      var e, rest := ends[0], ends[1..];
      FirstOfAscending(ends);
      if e < height && s.segments[e].storage == PendingStorage {
        if Fails(settings, fates(e)) {
          assert done + [] == done;
        } else {
          AscendingMore(done, e);
          OneMorePassed(settings, s, mid, done, e, fates);
          PassFrom(settings, s, Retire(settings, mid, e, fates(e)), done + [e], rest, height, fates);
          assert done + ([e] + Due(settings, s.segments, rest, height, fates)) ==
                 done + [e] + Due(settings, s.segments, rest, height, fates);
        }
      } else {
        PassFrom(settings, s, mid, done, rest, height, fates);
      }
    }
  }

  lemma SameEnds(settings: Settings, s: State, s': State, due: seq<int>, fates: int -> Fate)
    requires Passed(settings, s, s', due, fates)
    ensures forall e :: e in s'.segments <==> e in s.segments
    ensures forall e | e in s.segments && e !in due :: s'.segments[e] == s.segments[e]
  {
    forall e ensures e in s'.segments <==> e in s.segments {
      assert e in s'.segments.Keys <==> e in s.segments.Keys;
    }
  }

  /** Which segments are due, and where the pass stops. */
  ghost predicate IsDue(settings: Settings, segments: map<int, Segment>, ends: seq<int>, height: int,
                        fates: int -> Fate, due: seq<int>,
                        failed: Option<int>)
    requires forall e | e in ends :: e in segments
  {
    && Ascending(due)
    && (forall e :: e in due <==>
          e in ends && e < height && segments[e].storage == PendingStorage && (failed.Some? ==> e < failed.value))
    && (forall e | e in due :: Works(settings, fates(e)))
    && (failed.Some? ==>
          && failed.value in ends && failed.value < height && segments[failed.value].storage == PendingStorage
          && !Works(settings, fates(failed.value)))
  }

  lemma {:induction false} DueExactly(settings: Settings, s: State, ends: seq<int>, height: int, fates: int -> Fate)
    requires Ascending(ends) && forall e | e in ends :: e in s.segments
    ensures IsDue(settings, s.segments, ends, height, fates, Due(settings, s.segments, ends, height, fates),
                  RetireAll(settings, s, ends, height, fates).1)
    decreases |ends|
  {
    hide Ascending, Retire;
    if ends == [] {
      NothingAscends();
    } else {
      var e, rest := ends[0], ends[1..];
      FirstOfAscending(ends);
      DueExactly(settings, s, rest, height, fates);
      if e < height && s.segments[e].storage == PendingStorage {
        if Fails(settings, fates(e)) {
          NothingAscends();
        } else {
          AscendingFrom(e, Due(settings, s.segments, rest, height, fates));
          RetireElsewhere(settings, s, e, fates(e));
          SameFailure(settings, s, Retire(settings, s, e, fates(e)), rest, height, fates);
        }
      }
    }
  }

  lemma NothingAscends()
    ensures Ascending([])
  {
  }

  lemma AscendingFrom(e: int, due: seq<int>)
    requires Ascending(due) && forall k | k in due :: e < k
    ensures Ascending([e] + due)
  {
    forall i | 0 <= i < |due| ensures e < due[i] {
      assert due[i] in due;
    }
  }

  lemma RetireElsewhere(settings: Settings, s: State, e: int, fate: Fate)
    requires e in s.segments
    ensures var s' := Retire(settings, s, e, fate);
            forall k | k != e && k in s.segments :: k in s'.segments && s'.segments[k] == s.segments[k]
  {
  }

  /** Where a pass stops depends on the segments ahead of it only. */
  lemma {:induction false} SameFailure(settings: Settings, s: State, s': State, ends: seq<int>, height: int,
                                       fates: int -> Fate)
    requires Ascending(ends)
    requires forall k | k in ends :: k in s.segments && k in s'.segments && s'.segments[k] == s.segments[k]
    ensures RetireAll(settings, s', ends, height, fates).1 == RetireAll(settings, s, ends, height, fates).1
    decreases |ends|
  {
    hide Fails, Retire, Ascending;
    if ends != [] {
      var e, rest := ends[0], ends[1..];
      FirstOfAscending(ends);
      RetireElsewhere(settings, s, e, fates(e));
      RetireElsewhere(settings, s', e, fates(e));
      SameFailure(settings, s, s', rest, height, fates);
      SameFailure(settings, Retire(settings, s, e, fates(e)), Retire(settings, s', e, fates(e)), rest, height, fates);
    }
  }

  /** A pass over the sorted ends of all segments. */
  lemma PassExactly(settings: Settings, s: State, ends: seq<int>, height: int, fates: int -> Fate)
    requires Ascending(ends) && forall e | e in ends :: e in s.segments
    ensures var (s', failed) := RetireAll(settings, s, ends, height, fates);
            var due := Due(settings, s.segments, ends, height, fates);
            Passed(settings, s, s', due, fates) && IsDue(settings, s.segments, ends, height, fates, due, failed)
  {
    hide Passed, IsDue, RetireAll, Due;
    NothingPassed(settings, s, fates);
    NothingAscends();
    PassFrom(settings, s, s, [], ends, height, fates);
    DueExactly(settings, s, ends, height, fates);
    var due := Due(settings, s.segments, ends, height, fates);
    assert [] + due == due;
  }

  lemma {:induction false} CutsExactly(settings: Settings, due: seq<int>, fates: int -> Fate, h: int)
    requires Ascending(due)
    ensures Gone(CidsCut(settings, due, fates), h) <==>
            settings.pruneZsets && exists e :: h <= e && e in due && fates(e).cidsRemoved
    ensures Gone(PayloadsCut(settings, due, fates), h) <==>
            settings.pruneZsets && exists e :: h <= e && e in due && fates(e).payloadsRemoved
    decreases |due|
  {
    if due != [] {
      var n := |due| - 1;
      assert due == due[..n] + [due[n]];
      LastIsLargest(due);
      CutsExactly(settings, due[..n], fates, h);
    }
  }

  /** The due segments are the reached ones, and the pass fails exactly when the turn of one comes that fails. */
  lemma DueIsReached(settings: Settings, s: State, ends: seq<int>, height: int, fates: int -> Fate)
    requires Ascending(ends) && forall e :: e in ends <==> e in s.segments
    ensures var due := Due(settings, s.segments, ends, height, fates);
            && Ascending(due) && (forall e :: e in due <==> Reached(settings, s, height, fates, e))
            && forall e | e in due :: Turn(s, height, e) && Works(settings, fates(e))
    ensures RetireAll(settings, s, ends, height, fates).1.Some? <==>
            SomeFails(settings, s, height, fates)
  {
    hide Ascending, Works, Due, RetireAll;
    DueExactly(settings, s, ends, height, fates);
    var due, failed := Due(settings, s.segments, ends, height, fates), RetireAll(settings, s, ends, height, fates).1;
    if failed.Some? {
      assert Turn(s, height, failed.value);
    }
  }

  /** A pass does what it is to do. */
  lemma RetiredExactly(settings: Settings, s: State, ends: seq<int>, height: int, fates: int -> Fate)
    requires Ascending(ends) && forall e :: e in ends <==> e in s.segments
    ensures var (s', failed) := RetireAll(settings, s, ends, height, fates);
            && Retired(settings, s, s', height, fates)
            && (failed.Some? <==> SomeFails(settings, s, height, fates))
  {
    hide RetireAll, Due, Reached, IsDue, Passed, Turn, Works, RetiredSegments, RetiredHeights, Ascending;
    PassExactly(settings, s, ends, height, fates);
    DueIsReached(settings, s, ends, height, fates);
    var s', due := RetireAll(settings, s, ends, height, fates).0, Due(settings, s.segments, ends, height, fates);
    SegmentsRetired(settings, s, s', height, fates, due);
    HeightsRetired(settings, s, s', height, fates, due);
    if due != [] {
      LastIsLargest(due);
    }
    assert s'.lastPruned == if due == [] then s.lastPruned else due[|due| - 1] by {
      LastOfPassed(settings, s, s', due, fates);
    }
  }

  lemma LastOfPassed(settings: Settings, s: State, s': State, due: seq<int>, fates: int -> Fate)
    requires Passed(settings, s, s', due, fates)
    ensures s'.lastPruned == if due == [] then s.lastPruned else due[|due| - 1]
  {
    hide CidsCut, PayloadsCut;
  }

  lemma SegmentsRetired(settings: Settings, s: State, s': State, height: int, fates: int -> Fate, due: seq<int>)
    requires Passed(settings, s, s', due, fates)
    requires forall e :: e in due <==> Reached(settings, s, height, fates, e)
    requires forall e | e in due :: Turn(s, height, e) && Works(settings, fates(e))
    ensures RetiredSegments(settings, s, s', height, fates)
  {
    hide Reached, CidsCut, PayloadsCut;
  }

  lemma HeightsRetired(settings: Settings, s: State, s': State, height: int, fates: int -> Fate, due: seq<int>)
    requires Passed(settings, s, s', due, fates) && Ascending(due)
    requires forall e :: e in due <==> Reached(settings, s, height, fates, e)
    ensures RetiredHeights(settings, s, s', height, fates)
  {
    hide Reached, CidsCut, PayloadsCut, Gone, Ascending;
    forall h
      ensures Gone(CidsCut(settings, due, fates), h) <==>
              settings.pruneZsets &&
              exists e :: h <= e && Reached(settings, s, height, fates, e) && fates(e).cidsRemoved
      ensures Gone(PayloadsCut(settings, due, fates), h) <==>
              settings.pruneZsets &&
              exists e :: h <= e && Reached(settings, s, height, fates, e) && fates(e).payloadsRemoved
    {
      CutsExactly(settings, due, fates, h);
    }
  }

  // --- the retired prefix -------------------------------------------------------------------

  /** The retired segments are exactly those that end at or below the last pruned height, which is
      itself the end of a segment once anything was retired. */
  predicate RetiredPrefix(s: State) {
    && (s.lastPruned == 0 || s.lastPruned in s.segments)
    && (forall e | e in s.segments :: e > 0)
    && s.lastPruned >= 0
    && (forall e | e in s.segments :: s.segments[e].storage != PendingStorage <==> e <= s.lastPruned)
  }

  /** One pass over all segments retires, in order, a further run of those below the pruning height; a failure
      leaves the failed segment and everything above it untouched. The retired segments stay a prefix exactly
      when the new storage type of each of them was noted. */
  lemma PassKeepsPrefix(settings: Settings, s: State, ends: seq<int>, height: int, fates: int -> Fate)
    requires RetiredPrefix(s) && Ascending(ends) && forall e :: e in ends <==> e in s.segments
    ensures var (s', failed) := RetireAll(settings, s, ends, height, fates);
            var due := Due(settings, s.segments, ends, height, fates);
            && (RetiredPrefix(s') <==> forall e | e in due :: fates(e).noted)
            && s.lastPruned <= s'.lastPruned
            && (s'.lastPruned == s.lastPruned || s'.lastPruned < height)
            && (failed.Some? ==>
                  && s'.lastPruned < failed.value
                  && forall e | e in s.segments && e >= failed.value ::
                       e in s'.segments && s'.segments[e] == s.segments[e])
            && (failed.None? ==> forall e | e in s.segments && e < height :: e <= s'.lastPruned)
  {
    hide RetireAll, Due, Fails, CidsCut, PayloadsCut;
    PassExactly(settings, s, ends, height, fates);
    var (s', failed) := RetireAll(settings, s, ends, height, fates);
    var due := Due(settings, s.segments, ends, height, fates);
    SameEnds(settings, s, s', due, fates);
    if due != [] {
      LastIsLargest(due);
    }
    PrefixExactly(settings, s, s', due, fates);
  }

  lemma LastIsLargest(due: seq<int>)
    requires Ascending(due) && due != []
    ensures due[|due| - 1] in due && forall e | e in due :: e <= due[|due| - 1]
  {
  }

  lemma PrefixExactly(settings: Settings, s: State, s': State, due: seq<int>, fates: int -> Fate)
    requires RetiredPrefix(s) && Passed(settings, s, s', due, fates) && Ascending(due)
    requires forall e | e in due :: e in s.segments && s.segments[e].storage == PendingStorage
    requires forall e, k | e in s.segments && s.segments[e].storage == PendingStorage && k in due && e <= k :: e in due
    ensures RetiredPrefix(s') <==> forall e | e in due :: fates(e).noted
  {
    hide CidsCut, PayloadsCut;
    SameEnds(settings, s, s', due, fates);
    if due != [] {
      LastIsLargest(due);
      var last := due[|due| - 1];
      forall e | e in s.segments ensures e <= last <==> e in due || s.segments[e].storage != PendingStorage {
        assert e <= last && s.segments[e].storage == PendingStorage ==> e in due;
      }
      forall e | e in due
        ensures e in s'.segments && (s'.segments[e].storage != PendingStorage <==> fates(e).noted)
      {
        assert e in s.segments;
      }
    }
  }

  /** A storage type that was not noted makes the last pruned height go back: the segment is due again, and a
      pass that finds nothing else to do ends at it. */
  lemma PrunedHeightMayGoBack(settings: Settings, s: State, ends: seq<int>, height: int, fates: int -> Fate, e: int)
    requires Ascending(ends) && (forall k :: k in ends <==> k in s.segments)
    requires e in s.segments && s.segments[e].storage == PendingStorage && e < s.lastPruned < height
    requires forall k | k in s.segments && k < height && k != e :: s.segments[k].storage != PendingStorage
    requires Works(settings, fates(e))
    ensures RetireAll(settings, s, ends, height, fates).0.lastPruned == e
  {
    hide RetireAll, Due, Works, CidsCut, PayloadsCut;
    PassExactly(settings, s, ends, height, fates);
    var due := Due(settings, s.segments, ends, height, fates);
    assert e in due;
    LastIsLargest(due);
  }
}
