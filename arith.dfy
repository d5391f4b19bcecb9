/** Facts about Euclidean division and powers of ten used by the digit
    decompositions and by the wrap-around arithmetic of the random generator. */
module Arith {

  /** 10^k */
  function Pow10(k: nat): (r: nat)
    ensures r >= 1
  {
    if k == 0 then 1 else 10 * Pow10(k - 1)
  }

  /** Dividing by a and then by b is dividing by a * b. */
  lemma DivDiv(n: nat, a: nat, b: nat)
    requires a > 0 && b > 0
    ensures n / a / b == n / (a * b)
  {
    var q := n / a / b;
    var r1 := n % a;
    var r2 := (n / a) % b;
    assert n == a * (n / a) + r1;
    assert n / a == b * q + r2;
    assert n == (a * b) * q + (a * r2 + r1) by {
      assert n == a * (b * q + r2) + r1;
    }
    assert 0 <= a * r2 + r1 < a * b by {
      assert r2 <= b - 1;
      assert a * r2 <= a * (b - 1);
    }
    DivModUnique(n, a * b, q, a * r2 + r1);
  }

  /** The residue modulo a * b splits into the residue modulo a and the next digit in base a. */
  lemma ModSplit(n: nat, a: nat, b: nat)
    requires a > 0 && b > 0
    ensures n % (a * b) == n % a + a * ((n / a) % b)
  {
    var q := n / a / b;
    var r1 := n % a;
    var r2 := (n / a) % b;
    assert n == a * (n / a) + r1;
    assert n / a == b * q + r2;
    assert n == (a * b) * q + (a * r2 + r1) by {
      assert n == a * (b * q + r2) + r1;
    }
    assert 0 <= a * r2 + r1 < a * b by {
      assert r2 <= b - 1;
      assert a * r2 <= a * (b - 1);
    }
    DivModUnique(n, a * b, q, a * r2 + r1);
  }

  /** Quotient and remainder are the only pair with n == d * q + r and 0 <= r < d. */
  lemma DivModUnique(n: int, d: int, q: int, r: int)
    requires d > 0 && n == d * q + r && 0 <= r < d
    ensures n / d == q && n % d == r
  {
    var q', r' := n / d, n % d;
    assert d * q' + r' == d * q + r;
    if q' < q {
      var t := q - q';
      assert d * q == d * q' + d * t;
      MulAtLeast(d, t);
    } else if q < q' {
      var t := q' - q;
      assert d * q' == d * q + d * t;
      MulAtLeast(d, t);
    }
  }

  /** A positive multiple of d is at least d. */
  lemma MulAtLeast(d: int, t: int)
    requires d > 0 && t >= 1
    ensures d * t >= d
  {
  }

  /** Reducing modulo a multiple of m first does not change the residue modulo m. */
  lemma ModMod(n: nat, m: nat, k: nat)
    requires m > 0 && k > 0
    ensures n % (m * k) % m == n % m
  {
    ModSplit(n, m, k);
    var t := (n / m) % k;
    DivModUnique(n % m + m * t, m, t, n % m);
  }

  /** Adding a multiple of m does not change the residue modulo m. */
  lemma ModWrap(x: int, m: int, k: int)
    requires m > 0
    ensures (x + m * k) % m == x % m
  {
    assert x + m * k == m * (x / m + k) + x % m;
    DivModUnique(x + m * k, m, x / m + k, x % m);
  }
}
