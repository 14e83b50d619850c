/** Go's integer division and remainder truncate toward zero; Dafny's are
    Euclidean. The modelled code is written with Go's, so they are spelled out. */
module Arith {
  function GoDiv(a: int, n: int): int
    requires n > 0
  {
    if a >= 0 then a / n else -((-a) / n)
  }

  function GoMod(a: int, n: int): int
    requires n > 0
  {
    if a >= 0 then a % n else -((-a) % n)
  }

  /** The source's ((j % n) + n) % n. */
  function Wrap(j: int, n: int): (w: int)
    requires n > 0
  {
    GoMod(GoMod(j, n) + n, n)
  }

  lemma WrapIsEuclidean(j: int, n: int)
    requires n > 0
    ensures Wrap(j, n) == j % n
    ensures 0 <= Wrap(j, n) < n
  {
    if j >= 0 {
      ModUnique(j % n + n, n, 1, j % n);
    } else {
      var m := (-j) % n;
      ModUnique(j, n, -((-j) / n) - (if m == 0 then 0 else 1), if m == 0 then 0 else n - m);
      if m == 0 {
        ModUnique(n, n, 1, 0);
      } else {
        ModUnique(n - m, n, 0, n - m);
      }
    }
  }

  lemma MulAtLeast(x: int, n: int)
    requires n > 0
    ensures x >= 1 ==> x * n >= n
    ensures x <= -1 ==> x * n <= -n
  {
    if x >= 1 {
      assert (x - 1) * n >= 0;
    } else if x <= -1 {
      assert (-x - 1) * n >= 0;
    }
  }

  lemma ModUnique(a: int, n: int, q: int, r: int)
    requires n > 0 && a == q * n + r && 0 <= r < n
    ensures a % n == r && a / n == q
  {
    var k := a / n - q;
    MulAtLeast(k, n);
    assert k * n == (a / n) * n - q * n;
    assert k * n == r - a % n;
  }

  /** Indexes that differ by a multiple of n are the same bin. */
  lemma ModShift(a: int, n: int, m: int)
    requires n > 0
    ensures (a + m * n) % n == a % n
  {
    assert (a / n + m) * n == (a / n) * n + m * n;
    ModUnique(a + m * n, n, a / n + m, a % n);
  }

  lemma ModCongruent(a: int, b: int, d: int, n: int)
    requires n > 0 && a % n == b % n
    ensures (a + d) % n == (b + d) % n
    ensures (d - a) % n == (d - b) % n
  {
    var m := a / n - b / n;
    MulSub(a / n, b / n, n);
    assert a == b + m * n;
    ModShift(b + d, n, m);
    ModShift(d - a, n, m);
  }

  lemma MulSub(x: int, y: int, n: int)
    ensures (x - y) * n == x * n - y * n
  {
  }

  lemma DivFacts(a: int, n: int)
    requires n > 0
    ensures (a / n) * n <= a < (a / n) * n + n
  {
  }

  lemma ModAdd(a: int, b: int, n: int)
    requires n > 0
    ensures (a % n + b) % n == (a + b) % n
    ensures (b - a % n) % n == (b - a) % n
  {
    ModUnique(a % n, n, 0, a % n);
    ModCongruent(a % n, a, b, n);
  }

  lemma ModDiff(x: int, y: int, n: int)
    requires n > 0
    ensures (x % n - y % n) % n == (x - y) % n
  {
    MulSub(y / n, x / n, n);
    ModShift(x - y, n, y / n - x / n);
  }

  lemma ModSmall(x: int, n: int)
    requires 0 <= x < n
    ensures x % n == x
  {
    ModUnique(x, n, 0, x);
  }
}
