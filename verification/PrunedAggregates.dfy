/** Aggregation while old heights are pruned: exactly when an aggregator that lags behind the index
    still commits the right sums. */
module PrunedAggregates {
  import opened Wrappers
  import opened Window
  import opened Aggregates

  /** The chain as it is read through an index that forgot the heights up to f. */
  function Forget(chain: Chain, f: int): (r: Chain)
    ensures |r| == |chain|
    ensures forall h :: PayloadAt(r, h) == if h <= f then None else PayloadAt(chain, h)
  {
    seq(|chain|, i requires 0 <= i < |chain| => if i < f then None else chain[i])
  }

  function Min(a: int, b: int): int {
    if a < b then a else b
  }

  lemma {:induction false} SumForget(x: Field, chain: Chain, f: int, lo: int, hi: int)
    ensures FieldSum(x, Forget(chain, f), lo, hi) ==
            if hi <= f then 0.0 else FieldSum(x, chain, if lo > f then lo else f + 1, hi)
    decreases hi - lo
  {
    if lo <= hi {
      SumForget(x, chain, f, lo, hi - 1);
    }
  }

  lemma EmptySum(x: Field, chain: Chain, lo: int, hi: int)
    ensures hi < lo ==> FieldSum(x, chain, lo, hi) == 0.0
  {
  }

  /** What adding the front and subtracting the back gives when both are read through the pruned index: the
      new window's sum, and on top of it whatever the old window had at forgotten heights. */
  lemma ForgottenSlide(x: Field, chain: Chain, f: int, tail: int, head: int, tail': int, head': int)
    requires tail <= head <= head' && tail <= tail' <= head' && f < tail'
    ensures FieldSum(x, chain, tail, head) - FieldSum(x, Forget(chain, f), tail, tail' - 1)
            + FieldSum(x, Forget(chain, f), head + 1, head') ==
            FieldSum(x, chain, tail', head') + FieldSum(x, chain, tail, Min(f, head))
  {
    hide FieldSum;
    Slide(x, chain, tail, head, tail', head');
    SumForget(x, chain, f, tail, tail' - 1);
    SumForget(x, chain, f, head + 1, head');
    EmptySum(x, chain, f + 1, f);
    EmptySum(x, chain, tail, Min(f, head));
    EmptySum(x, chain, tail, tail' - 1);
    if f >= tail {
      SumSplits(x, chain, tail, f, tail' - 1);
      EmptySum(x, chain, f + 1, tail' - 1);
      if f > head {
        SumSplits(x, chain, head + 1, f, head');
        SumSplits(x, chain, tail, head, f);
      }
    }
  }

  /** The first sum over a window that is partly forgotten. */
  lemma ForgottenSum(x: Field, chain: Chain, f: int, tail: int, head: int)
    requires tail <= head
    ensures FieldSum(x, Forget(chain, f), tail, head) ==
            FieldSum(x, chain, tail, head) - FieldSum(x, chain, tail, Min(f, head))
  {
    hide FieldSum;
    SumForget(x, chain, f, tail, head);
    EmptySum(x, chain, tail, Min(f, head));
    EmptySum(x, chain, head + 1, head);
    if tail <= Min(f, head) {
      SumSplits(x, chain, tail, Min(f, head), head);
    }
  }

  // --- what a commit is off by ----------------------------------------------------------

  /** By how much the stored aggregates differ from the sums over their windows. */
  datatype Drift = Drift(day: Trade, week: Trade)

  const NO_DRIFT := Drift(ZERO, ZERO)

  /** Every field is its sum over the stored window and the drift in this field; the week has no fees. */
  ghost predicate OffBy(c: Cached, chain: Chain, d: Drift) {
    && Ranged(c, chain)
    && (forall f :: Read(f, c.volume24) == FieldSum(f, chain, c.tail24, c.head24) + Read(f, d.day))
    && (forall f :: Read(f, c.volume7) ==
                    if f.Fees? then 0.0 else FieldSum(f, chain, c.tail7, c.head7) + Read(f, d.week))
  }

  /** The stored windows, or for a first commit the new ones, as far as they are forgotten. */
  function LostDay(cache: Option<Cached>, chain: Chain, f: int, p: Pair): Trade {
    match cache
    case Some(c) => Sum(chain, c.tail24, Min(f, c.head24))
    case None => if Present(p.day) then Sum(chain, p.day.tail.value, Min(f, p.day.head.value)) else ZERO
  }

  function LostWeek(cache: Option<Cached>, chain: Chain, f: int, p: Pair): Trade {
    match cache
    case Some(c) => Sum(chain, c.tail7, Min(f, c.head7))
    case None => if Present(p.week) then Sum(chain, p.week.tail.value, Min(f, p.week.head.value)) else ZERO
  }

  /** A first commit misses what is forgotten; a later one fails to subtract it. */
  function DriftAfter(cache: Option<Cached>, chain: Chain, f: int, p: Pair, d: Drift): Drift {
    var day, week := LostDay(cache, chain, f, p), LostWeek(cache, chain, f, p);
    match cache
    case Some(_) => Drift(Plus(d.day, day), Plus(d.week, week))
    case None => Drift(Minus(ZERO, day), Minus(ZERO, week))
  }

  lemma OffByExactly(c: Cached, chain: Chain, d: Drift)
    requires OffBy(c, chain, d)
    ensures Exact(c, chain) <==> d.day == ZERO && WithoutFees(d.week) == ZERO
  {
    hide FieldSum;
    SameFields(d.day, ZERO);
    SameFields(WithoutFees(d.week), ZERO);
    forall x ensures Read(x, ZERO) == 0.0 {
    }
    forall x ensures Read(x, WithoutFees(d.week)) == if x.Fees? then 0.0 else Read(x, d.week) {
      FieldsOf(x, d.week, ZERO);
    }
  }

  lemma ExactIsOffByNothing(c: Cached, chain: Chain)
    ensures Exact(c, chain) <==> OffBy(c, chain, NO_DRIFT)
  {
    hide FieldSum;
    forall x ensures Read(x, ZERO) == 0.0 {
    }
  }

  /** A slide that commits has read the first blocks of both new windows and something new. */
  lemma CommittedSlide(c: Cached, chain: Chain, f: int, p: Pair, liquid: bool)
    ensures Commit(Some(c), Forget(chain, f), p, liquid).Some? ==>
              && Present(p.day) && Present(p.week)
              && f < p.day.tail.value && f < p.week.tail.value
              && c.head24 < p.day.head.value && c.head7 < p.week.head.value
  {
    hide Volume, Plus, Minus, WithoutFees;
    var read := Forget(chain, f);
    if Commit(Some(c), read, p, liquid).Some? {
      NoBlocksInRange(read, p.day.tail.value, p.day.tail.value);
      NoBlocksInRange(read, p.week.tail.value, p.week.tail.value);
      NoBlocksInRange(read, c.head7 + 1, p.week.head.value);
    }
  }

  /** Whatever was forgotten, and whatever the stored aggregates are off by already: exactly what those of a
      commit are off by. */
  lemma CommitDrifts(cache: Option<Cached>, chain: Chain, f: int, p: Pair, liquid: bool, d: Drift)
    requires Sound(p.day, chain) && Sound(p.week, chain)
    requires cache.Some? ==>
               && OffBy(cache.value, chain, d)
               && NotBefore(p.day, cache.value.tail24) && NotBefore(p.week, cache.value.tail7)
    ensures var r := Commit(cache, Forget(chain, f), p, liquid);
            r.Some? ==>
              && OffBy(r.value, chain, DriftAfter(cache, chain, f, p, d))
              && Some(r.value.tail24) == p.day.tail && Some(r.value.head24) == p.day.head
              && Some(r.value.tail7) == p.week.tail && Some(r.value.head7) == p.week.head
  {
    hide Commit, OffBy, LostDay, LostWeek, Plus, Minus;
    if Commit(cache, Forget(chain, f), p, liquid).Some? {
      if cache.None? {
        FirstCommitDrifts(chain, f, p, liquid);
      } else {
        SlideDrifts(cache.value, chain, f, p, liquid, d);
      }
      CommitStores(cache, Forget(chain, f), p, liquid);
    }
  }

  lemma FirstCommitDrifts(chain: Chain, f: int, p: Pair, liquid: bool)
    requires Sound(p.day, chain) && Sound(p.week, chain)
    requires Commit(None, Forget(chain, f), p, liquid).Some?
    ensures OffBy(Commit(None, Forget(chain, f), p, liquid).value, chain, DriftAfter(None, chain, f, p, NO_DRIFT))
  {
    hide Commit, FieldSum, Read, Sum, Plus, Minus;
    var r, d := Commit(None, Forget(chain, f), p, liquid).value, DriftAfter(None, chain, f, p, NO_DRIFT);
    CommitStores(None, Forget(chain, f), p, liquid);
    forall x
      ensures Read(x, r.volume24) == FieldSum(x, chain, r.tail24, r.head24) + Read(x, d.day)
      ensures Read(x, r.volume7) == if x.Fees? then 0.0 else FieldSum(x, chain, r.tail7, r.head7) + Read(x, d.week)
    {
      assert StoredField(x, None, Forget(chain, f), r);
      ForgottenSum(x, chain, f, r.tail24, r.head24);
      ForgottenSum(x, chain, f, r.tail7, r.head7);
      LossByField(x, chain, r.tail24, Min(f, r.head24), ZERO);
      LossByField(x, chain, r.tail7, Min(f, r.head7), ZERO);
    }
  }

  /** One field of a loss, and of what is left when it is taken away or added. */
  lemma LossByField(x: Field, chain: Chain, lo: int, hi: int, t: Trade)
    ensures Read(x, Sum(chain, lo, hi)) == FieldSum(x, chain, lo, hi)
    ensures Read(x, Minus(ZERO, Sum(chain, lo, hi))) == -FieldSum(x, chain, lo, hi)
    ensures Read(x, Plus(t, Sum(chain, lo, hi))) == Read(x, t) + FieldSum(x, chain, lo, hi)
  {
    hide Sum, FieldSum;
    SumByField(x, chain, lo, hi);
  }

  lemma SlideDrifts(c: Cached, chain: Chain, f: int, p: Pair, liquid: bool, d: Drift)
    requires Sound(p.day, chain) && Sound(p.week, chain) && OffBy(c, chain, d)
    requires NotBefore(p.day, c.tail24) && NotBefore(p.week, c.tail7)
    requires Commit(Some(c), Forget(chain, f), p, liquid).Some?
    ensures OffBy(Commit(Some(c), Forget(chain, f), p, liquid).value, chain, DriftAfter(Some(c), chain, f, p, d))
  {
    hide Commit, FieldSum, Read, Sum, Plus, Minus;
    var read := Forget(chain, f);
    var r, d' := Commit(Some(c), read, p, liquid).value, DriftAfter(Some(c), chain, f, p, d);
    CommittedSlide(c, chain, f, p, liquid);
    CommitStores(Some(c), read, p, liquid);
    forall x
      ensures Read(x, r.volume24) == FieldSum(x, chain, r.tail24, r.head24) + Read(x, d'.day)
      ensures Read(x, r.volume7) == if x.Fees? then 0.0 else FieldSum(x, chain, r.tail7, r.head7) + Read(x, d'.week)
    {
      assert StoredField(x, Some(c), read, r);
      ForgottenSlide(x, chain, f, c.tail24, c.head24, r.tail24, r.head24);
      ForgottenSlide(x, chain, f, c.tail7, c.head7, r.tail7, r.head7);
      LossByField(x, chain, c.tail24, Min(f, c.head24), d.day);
      LossByField(x, chain, c.tail7, Min(f, c.head7), d.week);
    }
  }

  /** A commit through the pruned index on top of right aggregates, or of none, is right exactly when the
      forgotten part of the stored windows, or of the new ones, had no volume. */
  lemma PrunedCommitExactly(cache: Option<Cached>, chain: Chain, f: int, p: Pair, liquid: bool)
    requires Sound(p.day, chain) && Sound(p.week, chain)
    requires cache.Some? ==>
               && Exact(cache.value, chain)
               && NotBefore(p.day, cache.value.tail24) && NotBefore(p.week, cache.value.tail7)
    ensures var r := Commit(cache, Forget(chain, f), p, liquid);
            r.Some? ==>
              (Exact(r.value, chain) <==>
               LostDay(cache, chain, f, p) == ZERO && WithoutFees(LostWeek(cache, chain, f, p)) == ZERO)
  {
    hide Commit, Exact, OffBy, LostDay, LostWeek, Plus, Minus, WithoutFees, Sound, NotBefore, Forget;
    var r := Commit(cache, Forget(chain, f), p, liquid);
    if cache.Some? {
      ExactIsOffByNothing(cache.value, chain);
    }
    if r.Some? {
      CommitDrifts(cache, chain, f, p, liquid, NO_DRIFT);
      OffByExactly(r.value, chain, DriftAfter(cache, chain, f, p, NO_DRIFT));
      Vanishes(LostDay(cache, chain, f, p));
      Vanishes(LostWeek(cache, chain, f, p));
    }
  }

  lemma Vanishes(a: Trade)
    ensures Plus(ZERO, a) == ZERO <==> a == ZERO
    ensures Minus(ZERO, a) == ZERO <==> a == ZERO
    ensures WithoutFees(Plus(ZERO, a)) == ZERO <==> WithoutFees(a) == ZERO
    ensures WithoutFees(Minus(ZERO, a)) == ZERO <==> WithoutFees(a) == ZERO
  {
  }

  lemma NoLoss(chain: Chain, lo: int, hi: int)
    ensures hi < lo ==> Sum(chain, lo, hi) == ZERO
  {
  }

  /** Nothing is lost from windows that begin above what was forgotten. */
  lemma NothingForgotten(cache: Option<Cached>, chain: Chain, f: int, p: Pair)
    requires match cache
             case Some(c) => f < c.tail24 && f < c.tail7
             case None => (Present(p.day) ==> f < p.day.tail.value) && (Present(p.week) ==> f < p.week.tail.value)
    ensures DriftAfter(cache, chain, f, p, NO_DRIFT) == NO_DRIFT
  {
    hide Plus, Minus;
    Vanishes(ZERO);
    match cache {
      case Some(c) =>
        NoLoss(chain, c.tail24, Min(f, c.head24));
        NoLoss(chain, c.tail7, Min(f, c.head7));
      case None =>
        if Present(p.day) {
          NoLoss(chain, p.day.tail.value, Min(f, p.day.head.value));
        }
        if Present(p.week) {
          NoLoss(chain, p.week.tail.value, Min(f, p.week.head.value));
        }
    }
  }
}
