/** Facts about floor division that the fold arithmetic of `k_fold_split` needs. */
module Arith {

  /** The only multiple of `n` strictly between `-n` and `n` is zero. */
  lemma SmallMultiple(d: int, n: int)
    requires n > 0 && -n < d * n < n
    ensures d == 0
  {
  }

  /** Euclidean division is determined by quotient and remainder. */
  lemma ModUnique(a: int, n: int, q: int, r: int)
    requires n > 0 && 0 <= r < n && a == q * n + r
    ensures a % n == r && a / n == q
  {
    var q0 := a / n;
    assert a == q0 * n + a % n;
    assert (q - q0) * n == a % n - r;
    SmallMultiple(q - q0, n);
  }

  /** `q * k <= x` implies `q <= x // k`. */
  lemma DivLowerBound(x: nat, k: nat, q: nat)
    requires k > 0 && q * k <= x
    ensures q <= x / k
  {
    var d := x / k;
    assert x == d * k + x % k;
    assert (q - d) * k < k;
    BelowOneMultiple(q - d, k);
  }

  lemma BelowOneMultiple(m: int, k: int)
    requires k > 0 && m * k < k
    ensures m <= 0
  {
  }

  lemma DivMonotone(x: nat, y: nat, k: nat)
    requires k > 0 && x <= y
    ensures x / k <= y / k
  {
    assert (x / k) * k <= x by {
      assert x == (x / k) * k + x % k;
    }
    DivLowerBound(y, k, x / k);
  }

  /** `a // k + b // k <= (a + b) // k`. */
  lemma FloorAddBound(a: nat, b: nat, k: nat)
    requires k > 0
    ensures a / k + b / k <= (a + b) / k
  {
    var qa := a / k;
    var qb := b / k;
    assert qa * k <= a by {
      assert a == qa * k + a % k;
    }
    assert qb * k <= b by {
      assert b == qb * k + b % k;
    }
    assert (qa + qb) * k == qa * k + qb * k;
    DivLowerBound(a + b, k, qa + qb);
  }

  lemma DivAtMost(a: nat, k: nat)
    requires k > 0
    ensures a / k <= a
  {
    DivMonotone(a, a * k, k);
    ModUnique(a * k, k, a, 0);
  }

  /** Multiplying by the same natural keeps the order. */
  lemma {:induction false} MulLe(a: nat, b: nat, n: nat)
    requires a <= b
    ensures a * n <= b * n
    decreases b - a
  {
    if a < b {
      MulLe(a, b - 1, n);
      assert b * n == (b - 1) * n + n;
    }
  }

  /** The rotation of fold `f` plus the test size never passes `n`:
      `f * n // k + n // k <= (f + 1) * n // k <= n` for `f < k`. */
  lemma FoldShiftBound(n: nat, k: nat, f: nat)
    requires f < k
    ensures f * n / k + n / k <= (f + 1) * n / k <= n
  {
    assert (f + 1) * n == f * n + n;
    FloorAddBound(f * n, n, k);
    MulLe(f + 1, k, n);
    DivMonotone((f + 1) * n, k * n, k);
    ModUnique(k * n, k, n, 0);
  }

  /** Later folds rotate further: `f1 < f2` gives `f1 * n // k + n // k <= f2 * n // k`. */
  lemma FoldShiftsApart(n: nat, k: nat, f1: nat, f2: nat)
    requires f1 < f2 < k
    ensures f1 * n / k + n / k <= f2 * n / k
  {
    FoldShiftBound(n, k, f1);
    MulLe(f1 + 1, f2, n);
    DivMonotone((f1 + 1) * n, f2 * n, k);
  }

  /** Adding `m` multiples of `k` keeps the remainder and adds `m` to the quotient. */
  lemma ModShift(a: int, m: int, k: int)
    requires k > 0
    ensures (a + m * k) % k == a % k
    ensures (a + m * k) / k == a / k + m
  {
    var q := a / k;
    assert a == q * k + a % k;
    assert a + m * k == (q + m) * k + a % k;
    ModUnique(a + m * k, k, q + m, a % k);
  }

  /** With at least two folds and at least `k` items, the test part is neither
      empty nor everything: `1 <= n // k < n`. */
  lemma FoldSizeBetween(n: nat, k: nat)
    requires 2 <= k <= n
    ensures 1 <= n / k < n
  {
    DivLowerBound(n, k, 1);
    var q := n / k;
    assert n == q * k + n % k;
    assert q * k >= q * 2;
  }

  /** Python's `a // b`: the quotient rounded towards minus infinity, which
      for a negative divisor differs from Dafny's Euclidean `/`. */
  function FloorDiv(a: int, b: int): (q: int)
    requires b != 0
    ensures b > 0 ==> q * b <= a < q * b + b
    ensures b < 0 ==> q * b + b < a <= q * b
  {
    if b > 0 then a / b else (-a) / (-b)
  }

  /** A product of positive numbers is positive. */
  lemma PositiveProduct(a: int, b: int)
    requires a > 0 && b > 0
    ensures a * b > 0
  {
  }

  /** A positive factor cancels from both sides of an equation. */
  lemma CancelFactor(x: int, y: int, c: int)
    requires c > 0 && x * c == y * c
    ensures x == y
  {
    assert (x - y) * c == 0;
    if x != y {
      if x > y {
        PositiveProduct(x - y, c);
      } else {
        PositiveProduct(y - x, c);
      }
    }
  }

  /** Two cross-multiplied equations add up: if `a / b == (c / d) / t` and
      `e / f == (g / h) / t`, then `a / b + e / f == (c / d + g / h) / t`. */
  lemma CrossSum(a: int, b: int, e: int, f: int, c: int, d: int, g: int, h: int, tn: int, td: int)
    requires a * tn * d == c * td * b
    requires e * tn * h == g * td * f
    ensures (a * f + e * b) * tn * (d * h) == (c * h + g * d) * td * (b * f)
  {
    Regroup(a, f, tn, d, h);
    Regroup(e, b, tn, h, d);
    Regroup(c, h, td, b, f);
    Regroup(g, d, td, f, b);
    assert (a * f + e * b) * tn * (d * h) == (a * f) * tn * (d * h) + (e * b) * tn * (d * h);
    assert (c * h + g * d) * td * (b * f) == (c * h) * td * (b * f) + (g * d) * td * (b * f);
  }

  /** Reordering the factors of a product of five. */
  lemma Regroup(x: int, y: int, z: int, u: int, v: int)
    ensures (x * y) * z * (u * v) == (x * z * u) * (y * v)
  {
  }

  /** `x * a * b == a * b * y` with positive `a` and `b` forces `x == y`. */
  lemma CancelCross(x: int, y: int, a: int, b: int)
    requires a > 0 && b > 0 && x * a * b == a * b * y
    ensures x == y
  {
    PositiveProduct(a, b);
    assert x * (a * b) == y * (a * b);
    CancelFactor(x, y, a * b);
  }
}
