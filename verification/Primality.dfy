/**
 Certificates of primality (Pocklington's criterion), with powers computed eight bits of the exponent
 at a time.
 */
module Primality {
  import opened Modular

  /******* Powers *******/

  /** `x` is congruent to a^e. */
  ghost predicate Power(n: int, a: int, e: int, x: int) {
    n > 0 && e >= 0 && Congruent(Pow(a, e), x, n)
  }

  lemma {:induction false} PowSum(a: int, e: nat, f: nat)
    ensures Pow(a, e + f) == Pow(a, e) * Pow(a, f)
  {
    if e > 0 {
      PowSum(a, e - 1, f);
      ProductRegroups(a, Pow(a, e - 1), Pow(a, f));
    }
  }

  lemma {:induction false} PowProduct(a: int, e: nat, f: nat)
    ensures e * f >= 0 && Pow(a, e * f) == Pow(Pow(a, e), f)
  {
    if f > 0 {
      PowProduct(a, e, f - 1);
      assert e * f == e + e * (f - 1);
      PowSum(a, e, e * (f - 1));
    }
  }

  lemma PowersMultiply(n: int, a: int, e: int, f: int, x: int, y: int)
    requires Power(n, a, e, x) && Power(n, a, f, y)
    ensures Power(n, a, e + f, x * y)
  {
    hide Pow, Congruent;
    PowSum(a, e, f);
    CongruentProduct(Pow(a, e), x, Pow(a, f), y, n);
  }

  lemma PowersCompose(n: int, a: int, e: int, x: int, f: int, y: int)
    requires Power(n, a, e, x) && Power(n, x, f, y)
    ensures Power(n, a, e * f, y)
  {
    hide Pow, Congruent;
    PowProduct(a, e, f);
    CongruentPower(Pow(a, e), x, f, n);
    CongruentTransitive(Pow(a, e * f), Pow(x, f), y, n);
  }

  /** `z` is the square of `x` modulo `n`, times `a` when the bit is set. */
  predicate Doubles(n: int, a: int, x: int, bit: int, z: int) {
    n > 0 && 0 <= bit <= 1 && x * x * (if bit == 1 then a else 1) % n == z
  }

  /** One bit of the exponent. */
  lemma Doubling(n: int, a: int, e: int, x: int, bit: int, z: int)
    requires Power(n, a, e, x) && Doubles(n, a, x, bit, z)
    ensures Power(n, a, 2 * e + bit, z)
  {
    PowersMultiply(n, a, e, e, x, x);
    if bit == 1 {
      assert Power(n, a, 1, a) by { PowOf1(a); Reflexive(a, n); }
      hide Power;
      PowersMultiply(n, a, 2 * e, 1, x * x, a);
    }
    PowerRemainder(n, a, 2 * e + bit, x * x * (if bit == 1 then a else 1));
  }

  lemma PowerRemainder(n: int, a: int, e: int, x: int)
    requires Power(n, a, e, x)
    ensures Power(n, a, e, x % n)
  {
    hide Pow, Congruent;
    CongruentRemainder(x, n);
    CongruentSymmetric(x % n, x, n);
    CongruentTransitive(Pow(a, e), x, x % n, n);
  }

  /** Four bits of the exponent, with the value after each. */
  lemma Window(
      n: int, a: int, e: int, x: int, b3: int, b2: int, b1: int, b0: int, z3: int, z2: int, z1: int, z0: int)
    returns (f: int, z: int)
    requires Power(n, a, e, x)
    requires Doubles(n, a, x, b3, z3) && Doubles(n, a, z3, b2, z2) && Doubles(n, a, z2, b1, z1)
             && Doubles(n, a, z1, b0, z0)
    ensures f == 16 * e + 8 * b3 + 4 * b2 + 2 * b1 + b0 && z == z0 && Power(n, a, f, z)
  {
    hide Power, Doubles;
    var e3 := 2 * e + b3;
    var e2 := 2 * e3 + b2;
    var e1 := 2 * e2 + b1;
    Doubling(n, a, e, x, b3, z3);
    Doubling(n, a, e3, z3, b2, z2);
    Doubling(n, a, e2, z2, b1, z1);
    Doubling(n, a, e1, z1, b0, z0);
    f, z := 2 * e1 + b0, z0;
  }

  /******* Least divisors *******/

  /** A number that is not prime has a prime divisor no larger than its square root. */
  lemma SmallFactor(n: int) returns (r: int)
    requires n >= 2 && !IsPrime(n)
    ensures IsPrime(r) && Divides(r, n) && r * r <= n
  {
    var d :| 1 < d < n && Divides(d, n);
    r := LeastFactor(n, 2, d);
    var s := n / r;
    assert n == r * s;
    if s < r {
      FactorAbove(n, r, s);
      MultipleHasNoRemainder(s, r);
      Swapped(r, s);
      assert Divides(s, n);
      assert false;
    }
    SquareBelow(r, s);
  }

  lemma SquareBelow(r: int, s: int)
    requires 0 < r <= s
    ensures r * r <= r * s
  {
  }

  lemma NonPositive(r: int, s: int)
    requires r > 0 && s <= 0
    ensures r * s <= 0
  {
  }

  lemma FactorAbove(n: int, r: int, s: int)
    requires 0 < r < n && n == r * s
    ensures s > 1
  {
    if s <= 0 {
      NonPositive(r, s);
    }
  }

  /** The least divisor from `k` up is prime when nothing below `k` divides. */
  lemma LeastFactor(n: int, k: int, d: int) returns (r: int)
    requires n >= 2 && 2 <= k <= d < n && Divides(d, n) && forall i :: 1 < i < k ==> !Divides(i, n)
    ensures 1 < r < n && IsPrime(r) && Divides(r, n) && forall i :: 1 < i < r ==> !Divides(i, n)
    decreases d - k
  {
    if Divides(k, n) {
      r := k;
      forall i | 1 < i < k
        ensures !Divides(i, k)
      {
        if Divides(i, k) {
          DividesThrough(i, k, n);
          assert false;
        }
      }
    } else {
      r := LeastFactor(n, k + 1, d);
    }
  }

  lemma DividesThrough(i: int, k: int, n: int)
    requires 0 < i && 0 < k && Divides(i, k) && Divides(k, n)
    ensures Divides(i, n)
  {
    DividesProduct(i, k, n / k);
  }

  lemma Squares(k: int, r: int)
    requires 0 < k <= r
    ensures k * k <= r * r
  {
  }

  /** Trial division up to the square root. */
  lemma ByTrial(n: int, k: int)
    requires n >= 2 && k > 0 && k * k > n && forall d :: 1 < d < k ==> !Divides(d, n)
    ensures IsPrime(n)
  {
    if !IsPrime(n) {
      var r := SmallFactor(n);
      if r >= k {
        Squares(k, r);
      }
    }
  }

  /******* Pocklington's criterion *******/

  /** a^(n-1) is 1 and a^((n-1)/p) - 1 is invertible modulo `n`, for a divisor `p` of n - 1. */
  ghost predicate Certifies(n: int, p: int, a: int) {
    n > 1 && p > 0 && Divides(p, n - 1) && Power(n, a, n - 1, 1) && Unrelated(n, Pow(a, (n - 1) / p) - 1)
  }

  ghost predicate Unrelated(n: int, x: int)
    requires n > 0
  {
    exists v :: Congruent(x * v, 1, n)
  }

  lemma CertifiedBy(n: int, p: int, a: int, f: int, x: int, v: int)
    requires n > 1 && p > 0 && f >= 0 && p * f == n - 1 && Power(n, a, f, x) && Power(n, a, n - 1, 1)
    requires (x - 1) * v % n == 1
    ensures Certifies(n, p, a)
  {
    DivisionUnique(n - 1, p, f, 0);
    hide Pow;
    var b := Pow(a, f);
    assert Congruent((b - 1) * v, 1, n) by {
      Reflexive(1, n);
      Reflexive(v, n);
      CongruentSum(b, x, 1, 1, n);
      CongruentProduct(b - 1, x - 1, v, v, n);
      DivisionUnique(1, n, 0, 1);
      SameRemainder((x - 1) * v, 1, n);
      CongruentTransitive((b - 1) * v, (x - 1) * v, 1, n);
    }
  }

  /** What is congruent modulo `n` is congruent modulo each divisor of `n`. */
  lemma CongruentBelow(n: int, r: int, a: int, b: int)
    requires n > 0 && r > 0 && Divides(r, n) && Congruent(a, b, n)
    ensures Congruent(a, b, r)
  {
    DividesThrough(r, n, a - b);
  }

  /** An element with b^p = 1 is 1 unless `p` divides r - 1. */
  lemma OrderDivides(p: int, r: int, b: nat)
    requires IsPrime(p) && IsPrime(r) && !Divides(r, b) && Congruent(Pow(b, p), 1, r) && !Divides(p, r - 1)
    ensures Congruent(b, 1, r)
  {
    var s := Inverse(r - 1, p);
    var t := ((r - 1) * s - 1) / p;
    assert s >= 0 && t >= 0 && (r - 1) * s == 1 + p * t by { InverseExponent(p, r - 1); }
    Fermat(r, b);
    hide IsPrime, Pow, Inverse, Congruent;
    PowProduct(b, r - 1, s);
    PowProduct(b, p, t);
    PowSum(b, 1, p * t);
    CongruentPower(Pow(b, r - 1), 1, s, r);
    CongruentPower(Pow(b, p), 1, t, r);
    PowerOfOne(s);
    PowerOfOne(t);
    PowOf1(b);
    var whole := Pow(b, (r - 1) * s);
    assert Congruent(b, b, r) by { Reflexive(b, r); }
    CongruentProduct(b, b, Pow(b, p * t), 1, r);
    assert whole == b * Pow(b, p * t);
    CongruentSymmetric(whole, b * 1, r);
    CongruentTransitive(b, whole, 1, r);
  }

  lemma PowOf1(b: int)
    ensures Pow(b, 1) == b
  {
    assert Pow(b, 0) == 1;
  }

  lemma InverseExponent(p: int, m: int)
    requires IsPrime(p) && m > 0 && !Divides(p, m)
    ensures var s := Inverse(m, p);
            var t := (m * s - 1) / p;
            s >= 0 && t >= 0 && m * s == 1 + p * t
  {
    InverseInverts(m, p);
    hide IsPrime;
    var s := Inverse(m, p);
    var t := CongruenceQuotient(m * s, 1, p);
    DivisionUnique(m * s - 1, p, t, 0);
    assert m * s >= 0;
    if t < 0 {
      NegativeMultiple(p, t);
    }
  }

  lemma NegativeMultiple(p: int, t: int)
    requires p >= 2 && t < 0
    ensures p * t <= -2
  {
  }

  /** Every prime divisor of a certified number is 1 modulo `p`. */
  lemma FactorsAreOne(n: int, p: int, a: nat, r: int)
    requires Certifies(n, p, a) && IsPrime(p) && IsPrime(r) && Divides(r, n)
    ensures Divides(p, r - 1)
  {
    if !Divides(p, r - 1) {
      var f := (n - 1) / p;
      var b := Pow(a, f);
      PowNonNegative(a, f);
      assert f >= 0 && f * p == n - 1;
      PowProduct(a, f, p);
      CongruentBelow(n, r, Pow(b, p), 1);
      if Divides(r, b) {
        ZeroPower(r, b, p);
        assert false;
      }
      OrderDivides(p, r, b);
      var v :| Congruent((b - 1) * v, 1, n);
      CongruentBelow(n, r, (b - 1) * v, 1);
      NotBothOne(r, b, v);
    }
  }

  lemma {:induction false} PowNonNegative(a: nat, f: nat)
    ensures Pow(a, f) >= 0
  {
    if f > 0 {
      PowNonNegative(a, f - 1);
    }
  }

  lemma ZeroPower(r: int, b: int, p: int)
    requires r > 1 && p > 0 && Divides(r, b)
    ensures !Congruent(Pow(b, p), 1, r)
  {
    DividesProduct(r, b, Pow(b, p - 1));
    if Congruent(Pow(b, p), 1, r) {
      DividesDifference(r, Pow(b, p), Pow(b, p) - 1);
      DivisionUnique(1, r, 0, 1);
    }
  }

  lemma NotBothOne(r: int, b: int, v: int)
    requires r > 1 && Congruent(b, 1, r)
    ensures !Congruent((b - 1) * v, 1, r)
  {
    DividesProduct(r, b - 1, v);
    if Congruent((b - 1) * v, 1, r) {
      DividesDifference(r, (b - 1) * v, (b - 1) * v - 1);
      DivisionUnique(1, r, 0, 1);
    }
  }

  /** A certificate for one prime of at least the square root. */
  lemma Pocklington(n: int, p: int, a: nat)
    requires Certifies(n, p, a) && IsPrime(p) && p * p > n
    ensures IsPrime(n)
  {
    if !IsPrime(n) {
      var r := SmallFactor(n);
      FactorsAreOne(n, p, a, r);
      AtLeast(p, r - 1);
      LargerSquare(p, r);
    }
  }

  /** Certificates for two primes whose product is at least the square root. */
  lemma PocklingtonTwo(n: int, p: int, s: int, a: nat)
    requires Certifies(n, p, a) && Certifies(n, s, a) && IsPrime(p) && IsPrime(s) && p != s && (p * s) * (p * s) > n
    ensures IsPrime(n)
  {
    if !IsPrime(n) {
      var r := SmallFactor(n);
      FactorsAreOne(n, p, a, r);
      FactorsAreOne(n, s, a, r);
      ProductDivides(p, s, r - 1);
      AtLeast(p * s, r - 1);
      LargerSquare(p * s, r);
    }
  }

  lemma AtLeast(p: int, m: int)
    requires p > 0 && m > 0 && Divides(p, m)
    ensures m >= p
  {
    if m < p {
      DivisionUnique(m, p, 0, m);
    }
  }

  lemma LargerSquare(p: int, r: int)
    requires 0 < p && r - 1 >= p
    ensures r * r > p * p
  {
  }

  /** Two different primes that divide a number divide it together. */
  lemma ProductDivides(p: int, s: int, m: int)
    requires IsPrime(p) && IsPrime(s) && p != s && Divides(p, m) && Divides(s, m)
    ensures p * s > 0 && Divides(p * s, m)
  {
    var f := m / p;
    assert m == p * f;
    if Divides(s, p) {
      AtLeast(s, p);
      assert false;
    }
    Euclid(s, p, f);
    var g := f / s;
    assert f == s * g;
    ProductRegroups(p, s, g);
    assert p * s > 0;
    MultipleHasNoRemainder(p * s, g);
  }

  /******* Certificates *******/

  lemma Start(n: int, a: int) returns (e: int, x: int)
    requires n > 0
    ensures e == 0 && x == 1 && Power(n, a, 0, 1)
  {
    e, x := 0, 1;
    assert Pow(a, 0) == 1;
    Reflexive(1, n);
  }

  lemma OnePrime(n: int, p: int, a: nat, e: int, u: int, v: int)
    requires n > 1 && IsPrime(p) && p * p > n && p * e == n - 1
    requires Power(n, a, e, u) && Power(n, u, p, 1) && (u - 1) * v % n == 1
    ensures IsPrime(n)
  {
    hide IsPrime;
    PowersCompose(n, a, e, u, p, 1);
    Swapped(e, p);
    CertifiedBy(n, p, a, e, u, v);
    Pocklington(n, p, a);
  }

  lemma TwoPrimes(n: int, p: int, s: int, a: nat, e: int, y: int, u: int, v: int, i: int, j: int)
    requires n > 1 && IsPrime(p) && IsPrime(s) && p != s && (p * s) * (p * s) > n && (e * p) * s == n - 1
    requires Power(n, a, e, y) && Power(n, y, s, u) && Power(n, y, p, v) && Power(n, v, s, 1)
    requires (u - 1) * i % n == 1 && (v - 1) * j % n == 1
    ensures IsPrime(n)
  {
    hide IsPrime;
    PowersCompose(n, a, e, y, s, u);
    PowersCompose(n, a, e, y, p, v);
    PowersCompose(n, a, e * p, v, s, 1);
    assert p * (e * s) == n - 1 && s * (e * p) == n - 1 by { CrossOrder3(e, p, s); }
    CertifiedBy(n, p, a, e * s, u, i);
    CertifiedBy(n, s, a, e * p, v, j);
    PocklingtonTwo(n, p, s, a);
  }

  lemma CrossOrder3(e: int, p: int, s: int)
    ensures p * (e * s) == (e * p) * s && s * (e * p) == (e * p) * s
  {
  }
}
