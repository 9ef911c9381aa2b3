/** How a pruning cycle spreads its projects over goroutines. */
module WorkPartition {
  import opened Numbers

  /** The index ranges handed to goroutines: start and inclusive end. */
  type Chunks = seq<(nat, nat)>

  predicate Taken(chunks: Chunks, k: int) {
    exists c :: 0 <= c < |chunks| && chunks[c].0 <= k <= chunks[c].1
  }

  predicate Disjoint(chunks: Chunks) {
    forall c, d | 0 <= c < d < |chunks| :: chunks[c].1 < chunks[d].0
  }

  lemma BoundOnChunks(total: nat, concurrency: nat, started: nat)
    requires concurrency >= 1 && started >= 1
    requires (started - 1) * (total / concurrency + 1) < total
    ensures started <= concurrency
  {
    var size := total / concurrency + 1;
    assert total == (total / concurrency) * concurrency + total % concurrency;
    assert size * concurrency == (total / concurrency) * concurrency + concurrency;
    if started - 1 > concurrency {
      MulGap(concurrency, started - 1, size);
    }
  }

  lemma Extended(chunks: Chunks, chunk: (nat, nat))
    ensures forall k | Taken(chunks, k) || chunk.0 <= k <= chunk.1 :: Taken(chunks + [chunk], k)
  {
    var more := chunks + [chunk];
    forall k | Taken(chunks, k) || chunk.0 <= k <= chunk.1 ensures Taken(more, k) {
      if Taken(chunks, k) {
        var c :| 0 <= c < |chunks| && chunks[c].0 <= k <= chunks[c].1;
        assert more[c] == chunks[c];
      } else {
        assert more[|chunks|] == chunk;
      }
    }
  }

  lemma OneMoreTimes(n: int, size: int)
    ensures (n + 1) * size == n * size + size
  {
  }

  /** The loop of `VerifyAndPruneDAGChains`, for a given chunk size minus one. */
  method Split(total: nat, perRoutine: nat) returns (chunks: Chunks)
    ensures |chunks| > 0 ==> (|chunks| - 1) * (perRoutine + 1) < total
    ensures forall c | 0 <= c < |chunks| :: chunks[c].0 <= chunks[c].1 < total
    ensures Disjoint(chunks) && forall k | 0 <= k < total :: Taken(chunks, k)
  {
    hide Taken;
    chunks := [];
    var start := 0;
    while start < total
      invariant start == |chunks| * (perRoutine + 1)
      invariant |chunks| > 0 ==> (|chunks| - 1) * (perRoutine + 1) < total
      invariant forall c | 0 <= c < |chunks| :: chunks[c].0 <= chunks[c].1 < total && chunks[c].1 < start
      invariant Disjoint(chunks)
      invariant forall k | 0 <= k < total && k < start :: Taken(chunks, k)
      decreases total - start
    {
      var end := start + perRoutine;
      if end >= total {
        end := total - 1;
      }
      Extended(chunks, (start, end));
      OneMoreTimes(|chunks|, perRoutine + 1);
      chunks := chunks + [(start, end)];
      start := start + perRoutine + 1;
    }
  }

  /** Every project index lands in exactly one chunk, and at most `concurrency` goroutines start. */
  method Partition(total: nat, concurrency: nat) returns (chunks: Chunks)
    requires concurrency >= 1
    ensures |chunks| <= concurrency
    ensures forall c | 0 <= c < |chunks| :: chunks[c].0 <= chunks[c].1 < total
    ensures Disjoint(chunks) && forall k | 0 <= k < total :: Taken(chunks, k)
  {
    chunks := Split(total, total / concurrency);
    if |chunks| > 0 {
      BoundOnChunks(total, concurrency, |chunks|);
    }
  }

  // --- the goroutines ---------------------------------------------------------------

  /** What the goroutines count: 0 is success, 1 is nothing to do, anything else a failure. */
  datatype Counts = Counts(success: nat, notProcessed: nat, failed: nat)

  function Counted(c: Counts, result: int): Counts {
    if result == 0 then c.(success := c.success + 1)
    else if result == 1 then c.(notProcessed := c.notProcessed + 1)
    else c.(failed := c.failed + 1)
  }

  /** A cycle at work: the next project of every goroutine, the projects processed so far in the
      order in which they finished, and the shared counters. */
  datatype Cycle = Cycle(next: seq<nat>, done: seq<nat>, counts: Counts)

  function Starts(chunks: Chunks): (r: seq<nat>)
    ensures |r| == |chunks| && forall g | 0 <= g < |r| :: r[g] == chunks[g].0
  {
    if chunks == [] then [] else Starts(chunks[..|chunks| - 1]) + [chunks[|chunks| - 1].0]
  }

  function Started(chunks: Chunks): Cycle {
    Cycle(Starts(chunks), [], Counts(0, 0, 0))
  }

  predicate CanGo(chunks: Chunks, c: Cycle, g: nat) {
    g < |chunks| && g < |c.next| && c.next[g] <= chunks[g].1
  }

  /** Goroutine g processes its next project; a goroutine at its end does nothing any more. */
  function Turn(chunks: Chunks, results: int -> int, c: Cycle, g: nat): Cycle {
    if !CanGo(chunks, c, g) then c
    else
      var k := c.next[g];
      Cycle(c.next[g := k + 1], c.done + [k], Counted(c.counts, results(k)))
  }

  /** Goroutines take turns in any order. */
  function Schedule(chunks: Chunks, results: int -> int, turns: seq<nat>): Cycle
    decreases |turns|
  {
    if turns == [] then Started(chunks)
    else Turn(chunks, results, Schedule(chunks, results, turns[..|turns| - 1]), turns[|turns| - 1])
  }

  /** All goroutines have returned: what the wait group waits for. */
  predicate Finished(chunks: Chunks, c: Cycle) {
    forall g | 0 <= g < |chunks| :: !CanGo(chunks, c, g)
  }

  /** Project k is behind the position of the goroutine that it was handed to. */
  predicate Behind(chunks: Chunks, c: Cycle, k: int) {
    exists g :: 0 <= g < |chunks| && g < |c.next| && chunks[g].0 <= k < c.next[g]
  }

  predicate NoRepeats(s: seq<nat>) {
    forall i, j | 0 <= i < j < |s| :: s[i] != s[j]
  }

  /** How often a result of some kind came up among the processed projects. */
  function Tally(results: int -> int, done: seq<nat>): Counts {
    if done == [] then Counts(0, 0, 0)
    else Counted(Tally(results, done[..|done| - 1]), results(done[|done| - 1]))
  }

  ghost predicate OnTrack(chunks: Chunks, results: int -> int, c: Cycle) {
    && |c.next| == |chunks|
    && (forall g | 0 <= g < |chunks| :: chunks[g].0 <= c.next[g] <= chunks[g].1 + 1)
    && (forall k :: k in c.done <==> Behind(chunks, c, k))
    && NoRepeats(c.done)
    && c.counts == Tally(results, c.done)
  }

  lemma TurnStaysOnTrack(chunks: Chunks, results: int -> int, c: Cycle, g: nat)
    requires (forall i | 0 <= i < |chunks| :: chunks[i].0 <= chunks[i].1) && Disjoint(chunks)
    requires OnTrack(chunks, results, c)
    ensures OnTrack(chunks, results, Turn(chunks, results, c, g))
  {
    hide Tally, Counted;
    if CanGo(chunks, c, g) {
      var c' := Turn(chunks, results, c, g);
      var n := c.next[g];
      assert !Behind(chunks, c, n) by {
        OnlyOneChunk(chunks, n, g);
      }
      TallyMore(results, c.done, n);
      forall k: int ensures k in c'.done <==> Behind(chunks, c', k) {
        assert k in c'.done <==> k in c.done || k == n;
        BehindMore(chunks, c, c', g, k);
      }
    }
  }

  lemma TallyMore(results: int -> int, done: seq<nat>, k: nat)
    ensures Tally(results, done + [k]) == Counted(Tally(results, done), results(k))
  {
    assert (done + [k])[..|done|] == done;
  }

  lemma OnlyOneChunk(chunks: Chunks, k: int, g: nat)
    requires Disjoint(chunks) && g < |chunks| && chunks[g].0 <= k <= chunks[g].1
    ensures forall f | 0 <= f < |chunks| && chunks[f].0 <= k <= chunks[f].1 :: f == g
  {
  }

  lemma BehindMore(chunks: Chunks, c: Cycle, c': Cycle, g: nat, k: int)
    requires |c.next| == |chunks| && CanGo(chunks, c, g) && chunks[g].0 <= c.next[g]
    requires c'.next == c.next[g := c.next[g] + 1]
    ensures Behind(chunks, c', k) <==> Behind(chunks, c, k) || k == c.next[g]
  {
    if Behind(chunks, c, k) {
      var f :| 0 <= f < |chunks| && f < |c.next| && chunks[f].0 <= k < c.next[f];
      assert chunks[f].0 <= k < c'.next[f];
    }
    if k == c.next[g] {
      assert chunks[g].0 <= k < c'.next[g];
    }
  }

  lemma {:induction false} EveryScheduleIsOnTrack(chunks: Chunks, results: int -> int, turns: seq<nat>)
    requires (forall i | 0 <= i < |chunks| :: chunks[i].0 <= chunks[i].1) && Disjoint(chunks)
    ensures OnTrack(chunks, results, Schedule(chunks, results, turns))
    decreases |turns|
  {
    if turns != [] {
      hide OnTrack;
      EveryScheduleIsOnTrack(chunks, results, turns[..|turns| - 1]);
      TurnStaysOnTrack(chunks, results, Schedule(chunks, results, turns[..|turns| - 1]), turns[|turns| - 1]);
    }
  }

  lemma {:induction false} TallyAddsUp(results: int -> int, done: seq<nat>)
    ensures var c := Tally(results, done); c.success + c.notProcessed + c.failed == |done|
  {
    if done != [] {
      TallyAddsUp(results, done[..|done| - 1]);
    }
  }

  /** A success, nothing to do, or a failure. */
  function Kind(result: int): int {
    if result == 0 || result == 1 then result else 2
  }

  function OfKind(results: int -> int, done: seq<nat>, kind: int): set<nat> {
    set k | k in done && Kind(results(k)) == kind
  }

  lemma OneMoreOfKind(results: int -> int, done: seq<nat>, k: nat, kind: int)
    requires k !in done
    ensures |OfKind(results, done + [k], kind)| ==
            |OfKind(results, done, kind)| + if Kind(results(k)) == kind then 1 else 0
  {
    assert OfKind(results, done + [k], kind) ==
           OfKind(results, done, kind) + if Kind(results(k)) == kind then {k} else {};
  }

  /** Every counter is the number of projects with its kind of result. */
  lemma {:induction false} TallyByKind(results: int -> int, done: seq<nat>)
    requires NoRepeats(done)
    ensures var c := Tally(results, done);
            && c.success == |OfKind(results, done, 0)| && c.notProcessed == |OfKind(results, done, 1)|
            && c.failed == |OfKind(results, done, 2)|
  {
    if done == [] {
      assert forall kind :: OfKind(results, [], kind) == {};
    } else {
      hide OfKind;
      var n := |done| - 1;
      assert done == done[..n] + [done[n]] && done[n] !in done[..n];
      TallyByKind(results, done[..n]);
      OneMoreOfKind(results, done[..n], done[n], 0);
      OneMoreOfKind(results, done[..n], done[n], 1);
      OneMoreOfKind(results, done[..n], done[n], 2);
    }
  }

  lemma CountsByKind(results: int -> int, done: seq<nat>)
    requires NoRepeats(done)
    ensures var c := Tally(results, done);
            && c.success == |set k | k in done && results(k) == 0|
            && c.notProcessed == |set k | k in done && results(k) == 1|
            && c.failed == |set k | k in done && results(k) != 0 && results(k) != 1|
  {
    TallyByKind(results, done);
    assert OfKind(results, done, 0) == set k | k in done && results(k) == 0;
    assert OfKind(results, done, 1) == set k | k in done && results(k) == 1;
    assert OfKind(results, done, 2) == set k | k in done && results(k) != 0 && results(k) != 1;
  }

  function Below(n: nat): (r: set<nat>)
    ensures |r| == n && forall k :: k in r <==> 0 <= k < n
  {
    if n == 0 then {} else Below(n - 1) + {n - 1}
  }

  /** A list without repetitions of projects below `total` is complete exactly when it has `total` entries. */
  lemma {:induction false} Elements(done: seq<nat>) returns (r: set<nat>)
    requires NoRepeats(done)
    ensures |r| == |done| && forall k :: k in r <==> k in done
  {
    r := {};
    if done != [] {
      var n := |done| - 1;
      r := Elements(done[..n]);
      assert done == done[..n] + [done[n]];
      r := r + {done[n]};
    }
  }

  lemma CompleteExactly(done: seq<nat>, total: nat)
    requires NoRepeats(done) && forall k | k in done :: k < total
    ensures |done| == total <==> forall k | 0 <= k < total :: k in done
  {
    var r := Elements(done);
    var rest := Below(total) - r;
    assert Below(total) == r + rest;
    assert |rest| == 0 <==> rest == {};
    assert forall k :: k in rest <==> 0 <= k < total && k !in done;
  }

  /** However the goroutines take turns: no project is ever processed twice, and once all of them have
      returned every project was processed exactly once and the three counters add up to their number. */
  lemma EveryProjectOnce(total: nat, chunks: Chunks, results: int -> int, turns: seq<nat>)
    requires forall c | 0 <= c < |chunks| :: chunks[c].0 <= chunks[c].1 < total
    requires Disjoint(chunks) && forall k | 0 <= k < total :: Taken(chunks, k)
    ensures var c := Schedule(chunks, results, turns);
            && NoRepeats(c.done) && (forall k | k in c.done :: k < total)
            && c.counts == Tally(results, c.done)
            && (Finished(chunks, c) <==> forall k :: k in c.done <==> 0 <= k < total)
            && (Finished(chunks, c) <==> c.counts.success + c.counts.notProcessed + c.counts.failed == total)
            && c.counts.success == |set k | k in c.done && results(k) == 0|
            && c.counts.notProcessed == |set k | k in c.done && results(k) == 1|
            && c.counts.failed == |set k | k in c.done && results(k) != 0 && results(k) != 1|
  {
    hide Schedule, Tally, Turn;
    EveryScheduleIsOnTrack(chunks, results, turns);
    CountsByKind(results, Schedule(chunks, results, turns).done);
    var c := Schedule(chunks, results, turns);
    TallyAddsUp(results, c.done);
    forall k | k in c.done ensures k < total {
      var g :| 0 <= g < |chunks| && g < |c.next| && chunks[g].0 <= k < c.next[g];
    }
    CompleteExactly(c.done, total);
    if Finished(chunks, c) {
      forall k | 0 <= k < total ensures k in c.done {
        HandedOut(chunks, c, k);
      }
    } else {
      var g :| 0 <= g < |chunks| && CanGo(chunks, c, g);
      NotYet(chunks, results, c, g);
    }
  }

  lemma HandedOut(chunks: Chunks, c: Cycle, k: int)
    requires |c.next| == |chunks| && Finished(chunks, c) && Taken(chunks, k)
    ensures Behind(chunks, c, k)
  {
    var g :| 0 <= g < |chunks| && chunks[g].0 <= k <= chunks[g].1;
    assert !CanGo(chunks, c, g);
  }

  lemma NotYet(chunks: Chunks, results: int -> int, c: Cycle, g: nat)
    requires Disjoint(chunks) && OnTrack(chunks, results, c) && CanGo(chunks, c, g)
    ensures c.next[g] !in c.done
  {
    OnlyOneChunk(chunks, c.next[g], g);
  }
}
