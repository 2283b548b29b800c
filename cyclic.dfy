/**
 * Wrap-around indices of the home-page slider and the content-page image
 * gallery. The operands of `%` are never negative here, so JavaScript's
 * truncating remainder agrees with Dafny's.
 */
module Cyclic {

  /** The index after `i` among `n` items, wrapping from the last to the first. */
  function Succ(i: int, n: nat): (r: int)
    requires n > 0 && 0 <= i < n
    ensures 0 <= r < n
    ensures i < n - 1 ==> r == i + 1
    ensures i == n - 1 ==> r == 0
  {
    var r := (i + 1) % n;
    if i < n - 1 then
      assert r == i + 1 by { ModSmall(i + 1, n); }
      r
    else
      assert r == 0 by { ModSelf(n); }
      r
  }

  /** The gallery's backward step: 0 wraps to `n - 1`, any other index is decremented. */
  function PredWrap(i: int, n: nat): (r: int)
    requires n > 0 && 0 <= i < n
    ensures 0 <= r < n
  {
    if i == 0 then n - 1 else i - 1
  }

  /** The slider's backward step: `(i - 1 + n) % n`. */
  function PredMod(i: int, n: nat): (r: int)
    requires n > 0 && 0 <= i < n
    ensures 0 <= r < n
  {
    (i - 1 + n) % n
  }

  lemma ModSmall(x: int, n: int)
    requires 0 <= x < n
    ensures x % n == x
  {
  }

  lemma ModSelf(n: int)
    requires n > 0
    ensures n % n == 0
  {
  }

  lemma ModShift(x: int, n: int)
    requires n > 0 && n <= x < 2 * n
    ensures x % n == x - n
  {
  }

  /** The two backward steps used on the site are the same function. */
  lemma PredWrapIsPredMod(i: int, n: nat)
    requires n > 0 && 0 <= i < n
    ensures PredWrap(i, n) == PredMod(i, n)
  {
    if i == 0 {
      ModSmall(n - 1, n);
    } else {
      ModShift(i - 1 + n, n);
    }
  }

  /** Stepping back undoes stepping forward. */
  lemma PredAfterSucc(i: int, n: nat)
    requires n > 0 && 0 <= i < n
    ensures PredWrap(Succ(i, n), n) == i
    ensures PredMod(Succ(i, n), n) == i
  {
    PredWrapIsPredMod(Succ(i, n), n);
  }

  /** Stepping forward undoes stepping back. */
  lemma SuccAfterPred(i: int, n: nat)
    requires n > 0 && 0 <= i < n
    ensures Succ(PredWrap(i, n), n) == i
    ensures Succ(PredMod(i, n), n) == i
  {
    PredWrapIsPredMod(i, n);
  }
}
