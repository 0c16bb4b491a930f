/**
 Powers and residues: what the BN_mod_* functions compute, and the laws of
 exponents that the SRP exchange rests on. The modulus need not be prime.
 */
module Modular {
  import opened Numerals

  /** BN_mod_exp for a modulus above 1. */
  function ModExp(b: int, e: nat, n: nat): (r: nat)
    requires n > 1
    ensures r < n
  {
    Pow(b, e) % n
  }

  lemma DivisionIsUnique(x: int, n: nat, q: int, r: nat)
    requires n > 0 && r < n && x == q * n + r
    ensures x % n == r
  {
    var d := q - x / n;
    assert x == (x / n) * n + x % n;
    assert d * n == x % n - r by { assert d * n == q * n - (x / n) * n; }
    assert d >= 1 ==> d * n >= n;
    assert d <= -1 ==> d * n + n <= 0;
  }

  lemma AddMultiple(x: int, k: int, n: nat)
    requires n > 0
    ensures (x + k * n) % n == x % n
  {
    var q := x / n;
    assert x == q * n + x % n;
    assert x + k * n == (q + k) * n + x % n;
    DivisionIsUnique(x + k * n, n, q + k, x % n);
  }

  lemma CongruentFactors(a: int, b: int, c: int, d: int, n: nat)
    requires n > 0 && a % n == b % n && c % n == d % n
    ensures (a * c) % n == (b * d) % n
  {
    var k, l := a / n - b / n, c / n - d / n;
    assert a == (a / n) * n + a % n && b == (b / n) * n + b % n;
    assert c == (c / n) * n + c % n && d == (d / n) * n + d % n;
    assert a - b == k * n by { assert k * n == (a / n) * n - (b / n) * n; }
    assert c - d == l * n by { assert l * n == (c / n) * n - (d / n) * n; }
    var m := k * c + b * l;
    calc {
      a * c;
      b * c + (a - b) * c;
      b * d + b * (c - d) + (a - b) * c;
      b * d + b * (l * n) + (k * n) * c;
      { assert b * (l * n) == (b * l) * n && (k * n) * c == (k * c) * n; }
      b * d + (b * l) * n + (k * c) * n;
      { assert m * n == (k * c) * n + (b * l) * n; }
      b * d + m * n;
    }
    AddMultiple(b * d, m, n);
  }

  lemma ResidueTwice(x: int, n: nat)
    requires n > 0
    ensures (x % n) % n == x % n
  {}

  lemma CongruentDifference(a: int, b: int, c: int, n: nat)
    requires n > 0 && a % n == (b + c) % n
    ensures (a - b % n) % n == c % n
  {
    var k := a / n - (b + c) / n;
    assert a == (a / n) * n + a % n && b + c == ((b + c) / n) * n + (b + c) % n;
    assert a == b + c + k * n by { assert k * n == (a / n) * n - ((b + c) / n) * n; }
    var j := b / n;
    assert b == j * n + b % n;
    assert a - b % n == c + (k + j) * n by { assert (k + j) * n == k * n + j * n; }
    AddMultiple(c, k + j, n);
  }

  lemma {:induction false} CongruentPowers(a: int, b: int, e: nat, n: nat)
    requires n > 0 && a % n == b % n
    ensures Pow(a, e) % n == Pow(b, e) % n
  {
    if e > 0 {
      CongruentPowers(a, b, e - 1, n);
      CongruentFactors(a, b, Pow(a, e - 1), Pow(b, e - 1), n);
    }
  }

  lemma {:induction false} PowerOfSum(b: int, d: nat, e: nat)
    ensures Pow(b, d + e) == Pow(b, d) * Pow(b, e)
  {
    if d > 0 {
      PowerOfSum(b, d - 1, e);
      assert b * (Pow(b, d - 1) * Pow(b, e)) == (b * Pow(b, d - 1)) * Pow(b, e);
    }
  }

  lemma {:induction false} PowerOfPower(b: int, d: nat, e: nat)
    ensures Pow(Pow(b, d), e) == Pow(b, d * e)
  {
    if e > 0 {
      PowerOfPower(b, d, e - 1);
      assert d * e == d + d * (e - 1);
      PowerOfSum(b, d, d * (e - 1));
    }
  }

  /** An odd modulus above 1 divides no power of two. */
  lemma {:induction false} PowerOfTwoNotZero(a: nat, n: nat)
    requires n > 1 && n % 2 == 1
    ensures ModExp(2, a, n) != 0
  {
    if a == 0 {
      DivisionIsUnique(1, n, 0, 1);
    } else if ModExp(2, a, n) == 0 {
      var half := Pow(2, a - 1);
      var q := Pow(2, a) / n;
      assert 2 * half == q * n by { assert Pow(2, a) == q * n + Pow(2, a) % n; }
      OddFactor(q, n);
      DivisionIsUnique(half, n, q / 2, 0);
      PowerOfTwoNotZero(a - 1, n);
      assert false;
    }
  }

  lemma OddFactor(q: int, n: nat)
    requires n % 2 == 1 && q * n % 2 == 0
    ensures q % 2 == 0 && 2 * ((q / 2) * n) == q * n
  {
    var h, j := n / 2, q / 2;
    assert n == 2 * h + 1;
    assert q * n == 2 * (q * h) + q;
    assert q % 2 == 0;
    assert q == 2 * j;
    assert q * n == 2 * (j * n);
  }
}
