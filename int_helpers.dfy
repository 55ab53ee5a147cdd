/**
  The integer helper functions of the calculator: `factorial`, `div` and
  `search`, over C++ 32-bit `int`. Signed overflow is undefined behaviour in
  C++, so every operation is given only the inputs for which the C++ code
  never overflows, and the proofs show that it does not.
*/
module IntHelpers {

  const MinInt32: int := -0x8000_0000
  const MaxInt32: int := 0x7FFF_FFFF
  const MaxUInt32: int := 0xFFFF_FFFF

  /** A C++ `int`. */
  type Int32 = x: int | MinInt32 <= x <= MaxInt32

  /** A C++ `unsigned int`. */
  type UInt32 = x: int | 0 <= x <= MaxUInt32

  function Abs(x: int): nat {
    if x < 0 then -x else x
  }

  // ---------------------------------------------------------------------------
  // factorial
  // ---------------------------------------------------------------------------

  /** The product lo * (lo + 1) * ... * hi, which is 1 when the range is empty. */
  function Product(lo: int, hi: int): (p: int)
    ensures 1 <= lo ==> 1 <= p
    decreases hi - lo
  {
    if lo > hi then 1 else lo * Product(lo + 1, hi)
  }

  /** n! = 1 * 2 * ... * n; the empty product 1 for every n <= 0. */
  function Fact(n: int): (f: int)
    ensures 1 <= f
  {
    Product(1, n)
  }

  /** The factorial helper: the loop counts `i` down from `a` to 1, multiplying
      the accumulator by each `i`. The loop body never runs when a <= 0.
      For a >= 13 the signed multiplication overflows, which is undefined
      behaviour, so the caller must keep `a` at most 12. */
  method Factorial(a: Int32) returns (r: UInt32)
    requires a <= 12
    ensures r == Fact(a)
  {
    var acc: Int32 := 1;
    var i: Int32 := a;
    while i > 0
      invariant i <= a
      invariant a > 0 ==> 0 <= i
      invariant a <= 0 ==> i == a
      invariant acc == Product(i + 1, a)
      invariant 1 <= acc
    {
      ProductAtMostFact12(i, a);
      acc := acc * i;
      i := i - 1;
    }
    r := acc;
  }

  lemma {:induction false} ProductSplitLast(lo: int, hi: int)
    requires lo <= hi
    ensures Product(lo, hi) == Product(lo, hi - 1) * hi
    decreases hi - lo
  {
    if lo < hi {
      ProductSplitLast(lo + 1, hi);
      var p, q := Product(lo + 1, hi - 1), Product(lo + 1, hi);
      assert Product(lo, hi) == lo * q;
      assert Product(lo, hi - 1) == lo * p;
      MulAssociative(lo, p, hi);
    }
  }

  lemma MulAssociative(x: int, y: int, z: int)
    ensures x * (y * z) == (x * y) * z
  {
  }

  /** Dropping factors >= 1 from the low end never makes the product larger. */
  lemma {:induction false} ProductAtMostFact(lo: int, hi: int)
    requires 1 <= lo
    ensures Product(lo, hi) <= Fact(hi)
    decreases lo
  {
    if lo > 1 && lo <= hi {
      ProductAtMostFact(lo - 1, hi);
      var p := Product(lo, hi);
      assert Product(lo - 1, hi) == (lo - 1) * p;
      MulAtLeastSelf(p, lo - 1);
    }
  }

  /** The factorial grows with its argument. */
  lemma {:induction false} FactMonotone(m: int, n: int)
    requires m <= n
    ensures Fact(m) <= Fact(n)
    decreases n - m
  {
    if m < n {
      FactMonotone(m, n - 1);
      if n >= 1 {
        ProductSplitLast(1, n);
      }
    }
  }

  lemma ProductAtMostFact12(lo: int, hi: int)
    requires 1 <= lo && hi <= 12
    ensures Product(lo, hi) <= MaxInt32
  {
    ProductAtMostFact(lo, hi);
    FactMonotone(hi, 12);
    assert Fact(12) == 479001600;
  }

  /** factorial(a) is 1 for every a <= 0: the loop body never runs. */
  lemma FactOfNonPositive(a: int)
    requires a <= 0
    ensures Fact(a) == 1
  {
  }

  /** The recurrence n! = n * (n - 1)! for every n > 0. */
  lemma FactRecurrence(n: int)
    requires n > 0
    ensures Fact(n) == n * Fact(n - 1)
  {
    ProductSplitLast(1, n);
  }

  /** 12 is the largest argument whose factorial fits in a C++ `int`: 13! does not. */
  lemma FactBoundIsTight()
    ensures Fact(12) <= MaxInt32 < Fact(13)
  {
  }

  // ---------------------------------------------------------------------------
  // div
  // ---------------------------------------------------------------------------

  /** C++ `a / b` on `int`: the quotient is truncated toward zero. Division by
      zero, and MinInt32 / -1 (whose quotient does not fit), are undefined. */
  function Div(a: Int32, b: Int32): (q: Int32)
    requires b != 0
    requires !(a == MinInt32 && b == -1)
    ensures Abs(a - q * b) < Abs(b)
    ensures a - q * b == 0 || (a - q * b < 0 <==> a < 0)
  {
    var m: int := Abs(a) / Abs(b);
    DivModNat(Abs(a), Abs(b));
    TruncatedRemainder(a, b, m);
    if (a < 0) == (b < 0) then m else -m
  }

  /** Dafny's `/` and `%` on a natural dividend and a positive divisor. */
  lemma DivModNat(x: nat, y: int)
    requires y > 0
    ensures x == (x / y) * y + x % y
    ensures 0 <= x % y < y
    ensures 0 <= x / y <= x
    ensures y > 1 && x > 0 ==> x / y < x
  {
    var q, r := x / y, x % y;
    assert x == q * y + r;
    MulAtLeastSelf(q, y);
  }

  lemma MulAtLeastSelf(q: nat, y: int)
    requires y >= 1
    ensures q * y >= q
    ensures y >= 2 ==> q * y >= 2 * q
  {
    var z := y - 1;
    assert q * y == q * z + q;
  }

  /** The remainder left by the quotient |a| / |b| with the sign of a / b. */
  lemma TruncatedRemainder(a: int, b: int, m: int)
    requires b != 0 && m == Abs(a) / Abs(b)
    ensures var q := if (a < 0) == (b < 0) then m else -m;
            a - q * b == (if a < 0 then -(Abs(a) % Abs(b)) else Abs(a) % Abs(b))
  {
    DivModNat(Abs(a), Abs(b));
    if a >= 0 && b > 0 {
    } else if a >= 0 {
      assert m * b == -(m * Abs(b));
    } else if b > 0 {
      assert (-m) * b == -(m * Abs(b));
    } else {
      assert m * b == -(m * Abs(b));
    }
  }

  /** The two properties in the contract of Div determine the quotient: any
      q with a remainder smaller than the divisor and of the dividend's sign
      is Div(a, b). */
  lemma DivUnique(a: Int32, b: Int32, q: int)
    requires b != 0
    requires !(a == MinInt32 && b == -1)
    requires Abs(a - q * b) < Abs(b)
    requires a - q * b == 0 || (a - q * b < 0 <==> a < 0)
    ensures q == Div(a, b)
  {
    var d := Div(a, b);
    if q != d {
      var m, m' := a - q * b, a - d * b;
      RemaindersClose(a, m, m', b);
      MulSubDistributes(q, d, b);
      MulAtLeast(q - d, b);
      assert false;
    }
  }

  lemma MulSubDistributes(q: int, d: int, b: int)
    ensures q * b - d * b == (q - d) * b
  {
  }

  /** Two remainders below |b| in size that are each zero or of the
      dividend's sign differ by less than |b|. */
  lemma RemaindersClose(a: int, m: int, m': int, b: int)
    requires Abs(m) < Abs(b) && Abs(m') < Abs(b)
    requires m == 0 || (m < 0 <==> a < 0)
    requires m' == 0 || (m' < 0 <==> a < 0)
    ensures Abs(m' - m) < Abs(b)
  {
  }

  lemma MulAtLeast(k: int, b: int)
    requires k != 0
    ensures Abs(k * b) >= Abs(b)
  {
    if k > 0 {
      if b >= 0 { assert k * b >= b; } else { assert k * b <= b; }
    } else {
      if b >= 0 { assert k * b <= -b; } else { assert k * b >= -b; }
    }
  }

  /** Div differs from Dafny's Euclidean division on a negative dividend. */
  lemma DivTruncatesTowardZero()
    ensures Div(-7, 2) == -3 && -7 / 2 == -4
    ensures Div(7, -2) == -3 && 7 / -2 == -3
  {
  }

  // ---------------------------------------------------------------------------
  // search
  // ---------------------------------------------------------------------------

  /** Linear search of arr[0..n) for x: the first index holding x, or -1 when
      no such index exists (in particular when n <= 0). The source indexes
      only below n; the caller must provide at least n elements. */
  method Search(arr: array<Int32>, n: Int32, x: Int32) returns (i: Int32)
    requires n <= arr.Length
    ensures i == -1 <==> forall k :: 0 <= k < n ==> arr[k] != x
    ensures i != -1 ==> 0 <= i < n && arr[i] == x
    ensures i != -1 ==> forall k :: 0 <= k < i ==> arr[k] != x
  {
    var j: Int32 := 0;
    while j < n
      invariant 0 <= j
      invariant j <= n || j == 0
      invariant forall k :: 0 <= k < j ==> arr[k] != x
    {
      if arr[j] == x {
        return j;
      }
      j := j + 1;
    }
    return -1;
  }

  /** The calls of the search helper on [], [5, 3, 5] and a prefix. */
  method SearchExamples()
  {
    var empty := new Int32[0];
    var i := Search(empty, 0, 5);
    assert i == -1;
    var arr := new Int32[3];
    arr[0], arr[1], arr[2] := 5, 3, 5;
    assert arr[0] == 5 && arr[1] == 3 && arr[2] == 5;
    i := Search(arr, 3, 5);
    assert arr[0] == 5;
    assert i == 0;
    i := Search(arr, 3, 9);
    assert i == -1;
    i := Search(arr, 3, 3);
    assert arr[0] == 5 && arr[1] == 3;
    assert i == 1;
    i := Search(arr, 1, 3);
    assert i == -1;
  }
}
