/** Powers of two, and the few division facts the models rest on. */
module Arith {

  function Pow2(k: nat): (p: nat)
    ensures p >= 1
  {
    if k == 0 then 1 else 2 * Pow2(k - 1)
  }

  lemma {:induction false} Pow2Splits(k: nat, n: nat)
    requires k <= n
    ensures Pow2(n) == Pow2(k) * Pow2(n - k)
  {
    if k > 0 { Pow2Splits(k - 1, n - 1); }
  }

  lemma {:induction false} Pow2Monotone(k: nat, n: nat)
    requires k <= n
    ensures Pow2(k) <= Pow2(n)
  {
    if k < n { Pow2Monotone(k, n - 1); }
  }

  lemma Pow2Word(n: nat)
    requires n == 32
    ensures Pow2(n) == 0x1_0000_0000
  {
    assert Pow2(8) == 256;
    Pow2Splits(8, n - 16);
    Pow2Splits(16, n);
  }

  lemma {:induction false} Pow2ExceedsWord(k: nat)
    requires k > 32
    ensures Pow2(k) > 0x1_0000_0000
  {
    if k == 33 { Pow2Word(k - 1); } else { Pow2ExceedsWord(k - 1); }
  }

  lemma Pow2DividesWord(k: nat, n: nat)
    requires n == 32 && Pow2(k) <= 0x1_0000_0000
    ensures k <= n && Pow2(k) * Pow2(n - k) == 0x1_0000_0000
  {
    if k > n {
      Pow2ExceedsWord(k);
    } else {
      Pow2Word(n);
      Pow2Splits(k, n);
    }
  }

  lemma MulAtLeast(z: int, d: nat)
    requires z >= 1
    ensures z * d >= d
  {}

  lemma NoMultipleBetween(z: int, d: nat)
    requires 0 - d < z * d < d
    ensures z == 0
  {
    if z >= 1 { MulAtLeast(z, d); } else if z <= -1 { MulAtLeast(-z, d); }
  }

  lemma DivModUnique(x: int, q: int, r: int, d: nat)
    requires 0 <= r < d && x == q * d + r
    ensures x / d == q && x % d == r
  {
    assert x == (x / d) * d + x % d;
    assert (x / d - q) * d == r - x % d;
    NoMultipleBetween(x / d - q, d);
  }

  lemma ModAddMultiple(n: int, q: int, d: nat)
    requires d > 0
    ensures (n + q * d) % d == n % d
    ensures (n + q * d) / d == n / d + q
  {
    assert n == (n / d) * d + n % d;
    assert n + q * d == (n / d + q) * d + n % d;
    DivModUnique(n + q * d, n / d + q, n % d, d);
  }

  /** Reducing modulo a multiple of `d` first changes nothing. */
  lemma ModOfMod(n: int, w: nat, c: int, d: nat)
    requires d > 0 && w > 0 && w == c * d
    ensures (n % w) % d == n % d
  {
    var q := n / w;
    assert n == q * w + n % w;
    assert q * w == (q * c) * d;
    ModAddMultiple(n % w, q * c, d);
  }

  lemma ModsDiffer(j: int, k: int, d: nat)
    requires j < k < j + d
    ensures j % d != k % d
  {
    if j % d == k % d {
      assert k - j == (k / d - j / d) * d by {
        assert j == (j / d) * d + j % d;
        assert k == (k / d) * d + k % d;
      }
      NoMultipleBetween(k / d - j / d, d);
    }
  }

  /** The remainder by a product, as a low and a high digit. */
  lemma ModSplit(v: nat, a: nat, b: nat)
    requires a > 0 && b > 0
    ensures a * b > 0 && v % (a * b) == v % a + a * (v / a % b)
    ensures v / (a * b) == v / a / b
  {
    var q := v / a;
    var lo := v % a + a * (q % b);
    assert v == q * a + v % a;
    assert q == (q / b) * b + q % b;
    assert q * a == (q / b) * (a * b) + a * (q % b) by {
      assert ((q / b) * b + q % b) * a == (q / b) * b * a + (q % b) * a;
    }
    assert lo < a * b by {
      MulLe(q % b, b - 1, a);
    }
    DivModUnique(v, q / b, lo, a * b);
  }

  lemma MulLe(x: nat, y: nat, a: nat)
    requires x <= y
    ensures a * x <= a * y
  {}

  /** Right shift. */
  function Shr(x: nat, k: nat): nat
    decreases k
  {
    if k == 0 then x else Shr(x / 2, k - 1)
  }

  lemma {:induction false} ShrTwice(x: nat, j: nat, k: nat)
    ensures Shr(x, j + k) == Shr(Shr(x, j), k)
    decreases j
  {
    if j > 0 { ShrTwice(x / 2, j - 1, k); }
  }

  lemma {:induction false} ShrIsDiv(x: nat, k: nat)
    ensures Shr(x, k) == x / Pow2(k)
    decreases k
  {
    if k > 0 {
      ShrIsDiv(x / 2, k - 1);
      ModSplit(x, 2, Pow2(k - 1));
    }
  }
}
