/** Rounding to pages with a bit mask. Go's `&` and `^` on `int` act on two's complement. */
module Auxiliary {

  const MAX_INT: int := 0x7FFF_FFFF_FFFF_FFFF

  function Pow2(k: nat): (r: nat)
    ensures r >= 1
  {
    if k == 0 then 1 else 2 * Pow2(k - 1)
  }

  ghost predicate IsPage(page: nat) {
    exists k: nat :: page == Pow2(k)
  }

  /** The distance to the nearer of 0 and -1, the two fixed points of halving. */
  function Magnitude(x: int): nat {
    if x < 0 then -x - 1 else x
  }

  /** Bitwise AND of two's complement integers of any width. */
  function And(x: int, y: int): int
    decreases Magnitude(x) + Magnitude(y)
  {
    if -1 <= x <= 0 && -1 <= y <= 0 then
      if x == -1 && y == -1 then -1 else 0
    else
      2 * And(x / 2, y / 2) + if x % 2 == 1 && y % 2 == 1 then 1 else 0
  }

  /** Bitwise complement of a two's complement integer. */
  function Not(x: int): int {
    -x - 1
  }

  /** `x` as Go stores it in a 64-bit `int` when an addition of two of them overflows upward. */
  function Wrap(x: int): int {
    if x > MAX_INT then x - 2 * (MAX_INT + 1) else x
  }

  function RoundToPageSize(length: int, page: nat): int
  {
    And(length + (page - 1), Not(page - 1))
  }

  /** The same expression evaluated in 64-bit arithmetic. */
  function RoundToPageSize64(length: int, page: nat): int
  {
    And(Wrap(length + (page - 1)), Not(page - 1))
  }

  ghost predicate IsLeastMultiple(r: int, length: int, page: nat)
    requires page >= 1
  {
    && r % page == 0
    && length <= r
    && forall m :: m % page == 0 && length <= m ==> r <= m
  }

  lemma {:induction false} AndAllOnes(x: int)
    ensures And(x, -1) == x
    decreases Magnitude(x)
  {
    if !(-1 <= x <= 0) {
      AndAllOnes(x / 2);
    }
  }

  lemma MulMonotone(a: int, b: int, d: int)
    requires d >= 0
    ensures a <= b ==> a * d <= b * d
  {
  }

  lemma DivModUnique(x: int, d: int, q: int, r: int)
    requires 0 <= r < d && x == q * d + r
    ensures x / d == q && x % d == r
  {
    var t := x / d - q;
    assert t * d == r - x % d by {
      assert x == (x / d) * d + x % d;
      assert t * d == (x / d) * d - q * d;
    }
    assert -d < t * d < d;
    MulMonotone(1, t, d);
    MulMonotone(t, -1, d);
  }

  lemma AndEven(x: int, m: int)
    requires m >= 1
    ensures And(x, -(2 * m)) == 2 * And(x / 2, -m)
  {
    assert (-(2 * m)) / 2 == -m && (-(2 * m)) % 2 == 0;
  }

  lemma RemainderSteps(x: int, m: int)
    requires m >= 1
    ensures x % (2 * m) == 2 * ((x / 2) % m) + x % 2
  {
    var q, r := (x / 2) / m, (x / 2) % m;
    assert x / 2 == q * m + r;
    assert q * (2 * m) == 2 * (q * m);
    DivModUnique(x, 2 * m, q, 2 * r + x % 2);
  }

  /** Clearing the low `k` bits subtracts the remainder modulo 2^k, for negative numbers too. */
  lemma {:induction false} MaskClearsRemainder(x: int, k: nat)
    ensures And(x, Not(Pow2(k) - 1)) == x - x % Pow2(k)
    decreases k
  {
    hide And;
    if k == 0 {
      AndAllOnes(x);
    } else {
      MaskClearsRemainder(x / 2, k - 1);
      AndEven(x, Pow2(k - 1));
      RemainderSteps(x, Pow2(k - 1));
    }
  }

  lemma LeastMultiple(length: int, page: nat, x: int)
    requires page >= 1 && x == length + (page - 1)
    ensures IsLeastMultiple(x - x % page, length, page)
  {
    var q := x / page;
    assert x - x % page == q * page + 0;
    DivModUnique(x - x % page, page, q, 0);
    forall m | m % page == 0 && length <= m
      ensures x - x % page <= m
    {
      var n := m / page;
      assert m == n * page;
      assert (q - 1) * page == q * page - page;
      MulMonotone(n, q - 1, page);
      MulMonotone(q, n, page);
    }
  }

  /** The mask expression is the least page multiple that holds the length. */
  lemma RoundIsLeastMultiple(length: int, page: nat)
    requires IsPage(page)
    ensures IsLeastMultiple(RoundToPageSize(length, page), length, page)
    ensures RoundToPageSize(length, page) - length < page
  {
    hide And, IsLeastMultiple;
    var k: nat :| page == Pow2(k);
    MaskClearsRemainder(length + (page - 1), k);
    LeastMultiple(length, page, length + (page - 1));
  }

  /** In 64-bit arithmetic the rounding is right exactly when the sum does not overflow. */
  lemma Round64IsLeastMultipleIff(length: int, page: nat)
    requires IsPage(page) && page <= MAX_INT
    requires 0 <= length <= MAX_INT
    ensures IsLeastMultiple(RoundToPageSize64(length, page), length, page)
            <==> length <= MAX_INT - (page - 1)
  {
    hide And;
    var k: nat :| page == Pow2(k);
    MaskClearsRemainder(Wrap(length + (page - 1)), k);
    if length <= MAX_INT - (page - 1) {
      RoundIsLeastMultiple(length, page);
    }
  }
}
