/** Tentative heights and source-chain epochs: payload-commit turns an epoch into a height, the
    finalizer turns a missing height back into an epoch. */
module Epochs {
  import opened Numbers
  import F = Finalizer

  /** Go's integer division, which truncates toward zero. */
  function GoDiv(a: int, b: int): int
    requires b != 0
  {
    if a >= 0 then a / b else -((-a) / b)
  }

  /** `AssignTentativeHeight` once the two epoch keys are known; 0 stands for a missing key. */
  function Assign(epochEnd: int, firstEpochEnd: int, epochSize: int): int {
    if epochSize == 0 || firstEpochEnd == 0 then 0
    else GoDiv(epochEnd - firstEpochEnd, epochSize) + 1
  }

  /** First and last source height of the epoch that belongs to DAG height k. */
  function Begin(epochSize: int, firstEpochEnd: int, k: int): int {
    F.EpochEnd(epochSize, firstEpochEnd, k) - epochSize + 1
  }

  function End(epochSize: int, firstEpochEnd: int, k: int): int {
    F.EpochEnd(epochSize, firstEpochEnd, k)
  }

  /** What truncation makes of any distance, written with one non-negative remainder. */
  lemma TruncatedParts(d: int, n: int) returns (q: int, r: int)
    requires n > 0
    ensures q == GoDiv(d, n) && 0 <= r < n && r == (if d >= 0 then d % n else (-d) % n)
    ensures d == q * n + (if d >= 0 then r else -r)
    ensures d >= 0 ==> q >= 0
    ensures d < 0 ==> q <= 0
  {
    q := GoDiv(d, n);
    if d >= 0 {
      r := d % n;
      assert d == (d / n) * n + d % n;
    } else {
      r := (-d) % n;
      var p := (-d) / n;
      assert -d == p * n + r;
      assert q * n == -(p * n);
    }
  }

  /** Healing asks for the epoch whose commit would get this very height. */
  lemma HeightOfEpochOfHeight(epochSize: int, firstEpochEnd: int, k: int)
    requires epochSize > 0 && firstEpochEnd != 0
    ensures Assign(End(epochSize, firstEpochEnd, k), firstEpochEnd, epochSize) == k
  {
    var d := (k - 1) * epochSize;
    assert d == End(epochSize, firstEpochEnd, k) - firstEpochEnd;
    if d >= 0 {
      DivModUnique(epochSize, d, k - 1, 0);
    } else {
      assert -d == (1 - k) * epochSize;
      DivModUnique(epochSize, -d, 1 - k, 0);
    }
  }

  /** A commit's height leads back to its epoch exactly when the epoch is aligned with the first one. */
  lemma EpochOfHeightOfEpoch(epochSize: int, firstEpochEnd: int, epochEnd: int)
    requires epochSize > 0 && firstEpochEnd != 0
    ensures End(epochSize, firstEpochEnd, Assign(epochEnd, firstEpochEnd, epochSize)) == epochEnd
            <==> (epochEnd - firstEpochEnd) % epochSize == 0
  {
    var d := epochEnd - firstEpochEnd;
    var q, r := TruncatedParts(d, epochSize);
    assert End(epochSize, firstEpochEnd, q + 1) == q * epochSize + firstEpochEnd;
    if r == 0 {
      DivModUnique(epochSize, d, q, 0);
    } else if d >= 0 {
    } else {
      assert d == (q - 1) * epochSize + (epochSize - r);
      DivModUnique(epochSize, d, q - 1, epochSize - r);
    }
  }

  /** Height 1 goes to every epoch end less than one epoch away from the first, before or after it:
      truncation makes ends just before the first epoch collide with it. */
  lemma HeightOneExactly(epochSize: int, firstEpochEnd: int, epochEnd: int)
    requires epochSize > 0 && firstEpochEnd != 0
    ensures Assign(epochEnd, firstEpochEnd, epochSize) == 1
            <==> firstEpochEnd - epochSize < epochEnd < firstEpochEnd + epochSize
  {
    var d := epochEnd - firstEpochEnd;
    var q, r := TruncatedParts(d, epochSize);
    if q > 0 {
      MulGap(0, q, epochSize);
    } else if q < 0 {
      MulGap(q, 0, epochSize);
    }
  }

  /** The epochs of heights 1, 2, ... tile the source chain: they adjoin, and every source height from
      the first epoch on lies in the epoch of exactly one DAG height. */
  lemma EpochsTile(epochSize: int, firstEpochEnd: int, x: int) returns (k: int)
    requires epochSize > 0 && x >= Begin(epochSize, firstEpochEnd, 1)
    ensures k >= 1 && Begin(epochSize, firstEpochEnd, k) <= x <= End(epochSize, firstEpochEnd, k)
    ensures forall j | Begin(epochSize, firstEpochEnd, j) <= x <= End(epochSize, firstEpochEnd, j) :: j == k
    ensures Begin(epochSize, firstEpochEnd, k + 1) == End(epochSize, firstEpochEnd, k) + 1
  {
    var d := x - Begin(epochSize, firstEpochEnd, 1);
    k := d / epochSize + 1;
    assert d == (k - 1) * epochSize + d % epochSize;
    assert k * epochSize == (k - 1) * epochSize + epochSize;
    forall j | Begin(epochSize, firstEpochEnd, j) <= x <= End(epochSize, firstEpochEnd, j) ensures j == k {
      DivModUnique(epochSize, d, j - 1, d - (j - 1) * epochSize);
    }
  }

  lemma Adjoining(epochSize: int, firstEpochEnd: int, k: int)
    ensures Begin(epochSize, firstEpochEnd, k + 1) == End(epochSize, firstEpochEnd, k) + 1
  {
    assert k * epochSize == (k - 1) * epochSize + epochSize;
  }

  lemma EpochsPositive(epochSize: int, firstEpochEnd: int, k: int)
    requires epochSize > 0 && firstEpochEnd > 0 && k >= 1
    ensures End(epochSize, firstEpochEnd, k) > 0
  {
    assert (k - 1) * epochSize >= 0;
  }

  /** The two keys that the first ordered commit of a project writes. */
  class EpochKeys {
    var epochSize: int
    var firstEpochEnd: int

    constructor ()
      ensures epochSize == 0 && firstEpochEnd == 0
    {
      epochSize, firstEpochEnd := 0, 0;
    }

    /** `GetFirstEpochDetails`: a missing epoch size makes this commit the first one. Each of the two key
        writes may fail, which gives up on this commit. */
    method FirstEpochDetails(epochStart: int, epochEnd: int, sizeSaved: bool, endSaved: bool)
            returns (first: int, size: int)
      modifies this
      ensures old(epochSize) != 0 ==> epochSize == old(epochSize) && firstEpochEnd == old(firstEpochEnd)
      ensures old(epochSize) == 0 ==>
                && epochSize == (if sizeSaved then epochEnd - epochStart + 1 else 0)
                && firstEpochEnd == (if sizeSaved && endSaved then epochEnd else old(firstEpochEnd))
      ensures if old(epochSize) == 0 && !(sizeSaved && endSaved) then first == 0 && size == 0
              else first == firstEpochEnd && size == epochSize
    {
      size := epochSize;
      if size == 0 {
        size := epochEnd - epochStart + 1;
        if !sizeSaved {
          return 0, 0;
        }
        epochSize := size;
        if !endSaved {
          return 0, 0;
        }
        firstEpochEnd := epochEnd;
      }
      first := firstEpochEnd;
    }

    /** `AssignTentativeHeight`: the first commit gets height 1 and fixes the epochs of all later ones. When it
        saves the epoch size but not the first end, no later commit ever gets a height. */
    method AssignTentativeHeight(epochStart: int, epochEnd: int, sizeSaved: bool, endSaved: bool) returns (height: int)
      modifies this
      ensures old(epochSize) != 0 ==>
                && epochSize == old(epochSize) && firstEpochEnd == old(firstEpochEnd)
                && height == Assign(epochEnd, firstEpochEnd, epochSize)
                && (firstEpochEnd == 0 ==> height == 0)
      ensures old(epochSize) == 0 && epochStart <= epochEnd && epochEnd != 0 && sizeSaved && endSaved ==>
                && height == 1
                && Begin(epochSize, firstEpochEnd, 1) == epochStart && End(epochSize, firstEpochEnd, 1) == epochEnd
      ensures old(epochSize) == 0 && !(sizeSaved && endSaved) ==>
                && height == 0 && firstEpochEnd == old(firstEpochEnd)
                && (epochSize == 0 <==> !sizeSaved || epochEnd - epochStart + 1 == 0)
    {
      var first, size := FirstEpochDetails(epochStart, epochEnd, sizeSaved, endSaved);
      if size == 0 || first == 0 {
        height := 0;
      } else {
        height := GoDiv(epochEnd - first, size) + 1;
      }
    }
  }
}
