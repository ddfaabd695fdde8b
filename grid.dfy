/**
 * The integer part of the grid computation: rounding an item count up to a
 * perfect square and taking its root as the number of rows.
 */
module Grid {

  function Square(k: nat): nat {
    k * k
  }

  lemma SquareMonotone(a: nat, b: nat)
    requires a <= b
    ensures Square(a) <= Square(b)
  {
    assert a * a <= a * b <= b * b;
  }

  /** The integer square root, rounded down: Math.Sqrt truncated by (int). */
  function FloorSqrt(n: nat): (r: nat)
    ensures Square(r) <= n < Square(r + 1)
    decreases n
  {
    if n == 0 then 0
    else
      var s := FloorSqrt(n - 1);
      assert Square(s + 2) == Square(s + 1) + 2 * s + 3;
      if Square(s + 1) <= n then s + 1 else s
  }

  /** The root of a square is found exactly. */
  lemma FloorSqrtOfSquare(r: nat)
    ensures FloorSqrt(Square(r)) == r
  {
    var s := FloorSqrt(Square(r));
    if s < r {
      SquareMonotone(s + 1, r);
    } else if s > r {
      SquareMonotone(r + 1, s);
    }
  }

  /** The number of rows for `amount` items: the least r with r*r >= amount. */
  function CeilSqrt(amount: nat): (r: nat)
    ensures Square(r) >= amount
    ensures forall k: nat :: Square(k) >= amount ==> r <= k
  {
    var s := FloorSqrt(amount);
    forall k: nat | Square(k) >= amount ensures (if Square(s) == amount then s else s + 1) <= k {
      RoundedRootIsLeast(amount, s, k);
    }
    if Square(s) == amount then s else s + 1
  }

  lemma RoundedRootIsLeast(amount: nat, s: nat, k: nat)
    requires Square(s) <= amount < Square(s + 1)
    requires Square(k) >= amount
    ensures (if Square(s) == amount then s else s + 1) <= k
  {
    if k < s {
      SquareMonotone(k + 1, s);
    }
  }

  /** The examples of the rounding: 1 -> 1, 2 -> 2, 5 -> 3, 10 -> 4. */
  lemma RowExamples()
    ensures CeilSqrt(1) == 1 && CeilSqrt(2) == 2 && CeilSqrt(5) == 3 && CeilSqrt(10) == 4
  {
    assert Square(1) == 1 && Square(2) == 4 && Square(3) == 9 && Square(4) == 16;
  }
}
