/** cel_math.c: the primality test and the search for the next prime. */
module CelMath {

  ghost predicate Divides(d: nat, n: nat)
    requires d > 0
  {
    n % d == 0
  }

  ghost predicate Prime(p: nat) { p >= 2 && forall d :: 2 <= d < p ==> !Divides(d, p) }

  /** What cel_is_prime lets pass: its scan stops before the square root, not at it. */
  ghost predicate Accepted(n: nat) {
    n == 2 || (n > 1 && n % 2 == 1 && forall d :: 2 <= d && d * d < n ==> !Divides(d, n))
  }

  /** cel_is_prime, for positive numbers */
  method IsPrime(n: nat) returns (r: bool)
    requires n >= 1
    ensures r <==> Accepted(n)
  {
    if n == 2 || n == 3 {
      assert forall d :: 2 <= d && d * d < 3 ==> false by {
        forall d | 2 <= d ensures d * d >= 4 {
          Squares(2, d);
        }
      }
      return true;
    }
    if n == 1 || n % 2 == 0 {
      return false;
    }
    var j := 3;
    assert !Divides(2, n);
    while j * j < n
      invariant j >= 3 && forall d :: 2 <= d < j ==> !Divides(d, n)
      decreases n - j
    {
      Squares(1, j);
      if n % j == 0 {
        assert Divides(j, n);
        return false;
      }
      j := j + 1;
    }
    forall d | 2 <= d && d * d < n ensures !Divides(d, n) {
      if d >= j {
        Squares(j, d);
      }
    }
    return true;
  }

  lemma Squares(a: nat, b: nat)
    requires a <= b
    ensures a * a <= b * b && (1 <= a ==> b <= b * b)
  {
    assert a * a <= a * b <= b * b;
  }

  // ---------- what passes ----------

  lemma DividesTimes(d: nat, q: nat)
    requires d > 0
    ensures Divides(d, d * q)
  {
    Remainder(d * q, d, q, 0);
  }

  lemma Remainder(x: nat, n: nat, q: nat, r: nat)
    requires n > 0 && r < n && x == n * q + r
    ensures x % n == r
  {
    var k: int := x / n - q;
    assert n * k == r - x % n;
    Once(n, k);
  }

  lemma Once(n: int, k: int)
    requires n >= 0
    ensures k >= 1 ==> n * k >= n
    ensures k <= -1 ==> n * k <= -n
  {
  }

  /** A divisor of a divisor is a divisor. */
  lemma DividesThrough(c: nat, d: nat, n: nat)
    requires c > 0 && d > 0 && Divides(c, d) && Divides(d, n)
    ensures Divides(c, n)
  {
    var q, r := d / c, n / d;
    assert n == c * q * r == c * (q * r);
    DividesTimes(c, q * r);
  }

  /** The cofactor of a divisor. */
  lemma Cofactor(d: nat, n: nat) returns (e: nat)
    requires 2 <= d < n && Divides(d, n)
    ensures n == d * e && 2 <= e < n && Divides(e, n)
  {
    e := n / d;
    assert n == d * e;
    assert e >= 2 by {
      assert e <= 1 ==> d * e <= d;
    }
    assert d * e >= 2 * e;
    assert n == e * d;
    DividesTimes(e, d);
  }

  /** The test is right but for the squares of odd primes, which it takes for primes. */
  lemma AcceptedIs(n: nat)
    requires n >= 1
    ensures Accepted(n) <==> Prime(n) || (exists p: nat :: Prime(p) && p % 2 == 1 && n == p * p)
  {
    if Accepted(n) && n != 2 && !Prime(n) {
      var d: nat :| 2 <= d < n && Divides(d, n);
      var e := Cofactor(d, n);
      SquareOfPrime(n, if d <= e then d else e, if d <= e then e else d);
    }
    if Prime(n) {
      PrimeAccepted(n);
    }
    if p: nat :| Prime(p) && p % 2 == 1 && n == p * p {
      SquareAccepted(p);
    }
  }

  /** The first number it is wrong about. */
  lemma NineIsAccepted()
    ensures Accepted(9) && !Prime(9)
  {
    assert Divides(3, 9);
    forall d | 2 <= d && d * d < 9 ensures !Divides(d, 9) {
      if d >= 3 {
        Squares(3, d);
      }
    }
  }

  lemma SquareOfPrime(n: nat, d: nat, e: nat)
    requires Accepted(n) && n % 2 == 1 && 2 <= d <= e && n == d * e && Divides(d, n)
    ensures Prime(d) && d % 2 == 1 && n == d * d
  {
    assert d * d <= d * e;
    assert n == d * d;
    if d % 2 == 0 {
      DividesThrough(2, d, n);
    }
    forall c | 2 <= c < d ensures !Divides(c, d) {
      SmallerSquare(c, d);
      if Divides(c, d) {
        DividesThrough(c, d, n);
      }
    }
  }

  lemma SmallerSquare(c: nat, d: nat)
    requires c < d
    ensures c * c < d * d
  {
    assert c * c <= c * d < d * d;
  }

  lemma PrimeAccepted(n: nat)
    requires Prime(n)
    ensures Accepted(n)
  {
    if n > 2 {
      assert !Divides(2, n);
      forall d | 2 <= d && d * d < n ensures !Divides(d, n) {
        Squares(1, d);
      }
    }
  }

  lemma DividesDifference(c: nat, x: nat, y: nat)
    requires c > 0 && y <= x && Divides(c, x) && Divides(c, y)
    ensures Divides(c, x - y)
  {
    var k: int := x / c - y / c;
    assert x - y == c * k;
    Once(c, k);
    DividesTimes(c, k);
  }

  lemma TooSmall(c: nat, r: nat)
    requires 0 < r < c
    ensures !Divides(c, r)
  {
  }

  /** One step of the algorithm of Euclid: a prime that divides a * b divides a * (c mod b). */
  lemma EuclidStep(c: nat, a: nat, b: nat) returns (r: nat)
    requires Prime(c) && 2 <= b < c && Divides(c, a * b)
    ensures 0 < r < b && Divides(c, a * r)
  {
    var q, m := c / b, a * b / c;
    r := c % b;
    assert !Divides(b, c);
    assert c == b * q + r && a * b == c * m;
    Distribute(a, b, c, q, r, m);
    hide Divides, Prime;
    DividesTimes(c, a);
    DividesTimes(c, q * m);
    DividesDifference(c, c * a, c * (q * m));
  }

  lemma Distribute(a: nat, b: nat, c: nat, q: nat, r: nat, m: nat)
    requires c == b * q + r && a * b == c * m
    ensures c * a - c * (q * m) == a * r && c * (q * m) <= c * a
  {
    calc {
      c * a;
      (b * q + r) * a;
      (a * b) * q + a * r;
      (c * m) * q + a * r;
      c * (q * m) + a * r;
    }
  }

  /** A prime that divides a product divides one of its factors. */
  lemma {:induction false} EuclidsLemma(c: nat, a: nat, b: nat)
    requires Prime(c) && Divides(c, a * b) && !Divides(c, a)
    ensures Divides(c, b)
    decreases b
  {
    if b >= c {
      MinusOnce(c, a, b);
      EuclidsLemma(c, a, b - c);
      PlusOnce(c, b - c);
    } else if b > 1 {
      var r := EuclidStep(c, a, b);
      EuclidsLemma(c, a, r);
      TooSmall(c, r);
    } else {
      assert b == 1 ==> a * b == a;
    }
  }

  lemma MinusOnce(c: nat, a: nat, b: nat)
    requires 0 < c <= b && Divides(c, a * b)
    ensures Divides(c, a * (b - c))
  {
    hide Divides;
    DividesTimes(c, a);
    assert a * b - c * a == a * (b - c) && c * a <= a * b;
    DividesDifference(c, a * b, c * a);
  }

  lemma PlusOnce(c: nat, b: nat)
    requires c > 0 && Divides(c, b)
    ensures Divides(c, b + c)
  {
    var q := b / c;
    assert b + c == c * (q + 1);
    DividesTimes(c, q + 1);
  }

  /** The least divisor from 2 on, which is a prime. */
  lemma {:induction false} LeastDivisor(n: nat, from: nat) returns (p: nat)
    requires n >= 2 && 2 <= from <= n && forall d :: 2 <= d < from ==> !Divides(d, n)
    ensures Prime(p) && Divides(p, n) && from <= p <= n
    decreases n - from
  {
    if Divides(from, n) {
      p := from;
      forall d | 2 <= d < p ensures !Divides(d, p) {
        if Divides(d, p) {
          DividesThrough(d, p, n);
        }
      }
    } else {
      assert from < n by { Itself(n); }
      p := LeastDivisor(n, from + 1);
    }
  }

  lemma Itself(n: nat)
    requires n > 0
    ensures Divides(n, n)
  {
  }

  lemma SquareAccepted(p: nat)
    requires Prime(p) && p % 2 == 1
    ensures Accepted(p * p)
  {
    var n := p * p;
    assert n % 2 == 1 by {
      var h := p / 2;
      assert p == 2 * h + 1 && n == 2 * (2 * h * h + 2 * h) + 1;
    }
    assert n > 1 by { Squares(2, p); }
    forall d | 2 <= d && d * d < n ensures !Divides(d, n) {
      if d >= p {
        Squares(p, d);
      } else {
        NoDivisorOfSquare(d, p);
      }
    }
  }

  lemma NoDivisorOfSquare(d: nat, p: nat)
    requires Prime(p) && 2 <= d < p
    ensures !Divides(d, p * p)
  {
    if Divides(d, p * p) {
      var c := LeastDivisor(d, 2);
      DividesThrough(c, d, p * p);
      assert !Divides(c, p);
      EuclidsLemma(c, p, p);
    }
  }

  // ---------- the next prime ----------

  function Factorial(n: nat): (f: nat)
    ensures f >= 1
  {
    if n == 0 then 1 else n * Factorial(n - 1)
  }

  lemma {:induction false} FactorialDivides(d: nat, n: nat)
    requires 1 <= d <= n
    ensures Divides(d, Factorial(n))
  {
    if d == n {
      DividesTimes(d, Factorial(n - 1));
    } else {
      FactorialDivides(d, n - 1);
      var q := Factorial(n - 1) / d;
      assert Factorial(n - 1) == d * q;
      assert Factorial(n) == d * (n * q);
      DividesTimes(d, n * q);
    }
  }

  /** There are infinitely many primes: one above every number. */
  lemma PrimeAbove(n: nat) returns (p: nat)
    requires n >= 2
    ensures Prime(p) && p > n && p % 2 == 1
  {
    var m := Factorial(n) + 1;
    p := LeastDivisor(m, 2);
    if p <= n {
      FactorialDivides(p, n);
      DividesDifference(p, m, m - 1);
      TooSmall(p, 1);
    }
    assert !Divides(2, p);
  }

  /** An odd prime or the square of one. */
  ghost predicate OddOrSquare(m: nat) {
    m > 1 && m % 2 == 1 && (Prime(m) || exists p: nat :: Prime(p) && p % 2 == 1 && m == p * p)
  }

  /**
   * cel_next_prime, for positive numbers: it ends, with the least odd number from `n` on that is a
   * prime or the square of one.
   */
  method NextPrime(n: nat) returns (m: nat)
    requires n >= 1
    ensures m >= n && OddOrSquare(m) && forall k :: n <= k < m ==> !OddOrSquare(k)
  {
    m := if n % 2 == 0 then n + 1 else n;
    ghost var top := PrimeAbove(m + 2);
    PrimeAccepted(top);
    while true
      invariant n <= m <= top && m % 2 == 1
      invariant forall k :: n <= k < m && k % 2 == 1 ==> !Accepted(k)
      decreases top - m
    {
      var r := IsPrime(m);
      if r {
        break;
      }
      m := m + 2;
    }
    AcceptedIs(m);
    forall k | n <= k < m ensures !OddOrSquare(k) {
      AcceptedIs(k);
    }
  }
}
