/**
 Modular exponentiation and inversion of `crypto.ts`, and Fermat's little theorem, which makes the
 inversion correct for prime moduli.
 */
module Modular {

  /******* Remainders *******/

  /** JavaScript's `%` on big integers: the remainder takes the sign of the dividend. */
  function Remainder(value: int, modulus: int): int
    requires modulus > 0
  {
    if value >= 0 then value % modulus else -((-value) % modulus)
  }

  /** `mod` */
  function Mod(value: int, modulus: int): int
    requires modulus > 0
  {
    var r := Remainder(value, modulus);
    if r < 0 then r + modulus else r
  }

  /** `a` and `b` differ by a multiple of `m`. */
  predicate Congruent(a: int, b: int, m: int)
    requires m > 0
  {
    (a - b) % m == 0
  }

  lemma SmallMultiple(m: int, d: int)
    requires m > 0 && -m < m * d < m
    ensures d == 0
  {
  }

  /** Quotient and remainder are unique. */
  lemma DivisionUnique(a: int, m: int, q: int, r: int)
    requires m > 0 && a == m * q + r && 0 <= r < m
    ensures a % m == r && a / m == q
  {
    var d := q - a / m;
    assert m * d == m * q - m * (a / m);
    SmallMultiple(m, d);
  }

  lemma MultipleHasNoRemainder(m: int, q: int)
    requires m > 0
    ensures (m * q) % m == 0
  {
    DivisionUnique(m * q, m, q, 0);
  }

  lemma ModIsRemainder(value: int, modulus: int)
    requires modulus > 0
    ensures Mod(value, modulus) == value % modulus
  {
    if value < 0 {
      var q, r := (-value) / modulus, (-value) % modulus;
      assert -value == modulus * q + r;
      if r == 0 {
        assert value == modulus * (-q) + 0;
        DivisionUnique(value, modulus, -q, 0);
      } else {
        assert modulus * (-q - 1) == -(modulus * q) - modulus;
        DivisionUnique(value, modulus, -q - 1, modulus - r);
      }
    }
  }

  /******* Congruence *******/

  lemma CongruentBy(a: int, b: int, m: int, q: int)
    requires m > 0 && a - b == m * q
    ensures Congruent(a, b, m)
  {
    MultipleHasNoRemainder(m, q);
  }

  lemma CongruenceQuotient(a: int, b: int, m: int) returns (q: int)
    requires m > 0 && Congruent(a, b, m)
    ensures a - b == m * q
  {
    q := (a - b) / m;
  }

  lemma CongruentSymmetric(a: int, b: int, m: int)
    requires m > 0 && Congruent(a, b, m)
    ensures Congruent(b, a, m)
  {
    var q := CongruenceQuotient(a, b, m);
    assert m * (-q) == -(m * q);
    CongruentBy(b, a, m, -q);
  }

  lemma CongruentTransitive(a: int, b: int, c: int, m: int)
    requires m > 0 && Congruent(a, b, m) && Congruent(b, c, m)
    ensures Congruent(a, c, m)
  {
    var q := CongruenceQuotient(a, b, m);
    var r := CongruenceQuotient(b, c, m);
    assert m * (q + r) == m * q + m * r;
    CongruentBy(a, c, m, q + r);
  }

  lemma Reflexive(a: int, m: int)
    requires m > 0
    ensures Congruent(a, a, m)
  {
    assert a - a == 0;
  }

  lemma CongruentSum(a: int, b: int, c: int, d: int, m: int)
    requires m > 0 && Congruent(a, b, m) && Congruent(c, d, m)
    ensures Congruent(a + c, b + d, m) && Congruent(a - c, b - d, m)
  {
    var q := CongruenceQuotient(a, b, m);
    var r := CongruenceQuotient(c, d, m);
    assert m * (q + r) == m * q + m * r && m * (q - r) == m * q - m * r;
    CongruentBy(a + c, b + d, m, q + r);
    CongruentBy(a - c, b - d, m, q - r);
  }

  lemma DifferenceOfProducts(a: int, b: int, c: int, d: int)
    ensures a * c - b * d == (a - b) * c + b * (c - d)
  {
  }

  lemma ScaledQuotients(m: int, q: int, r: int, b: int, c: int)
    ensures (m * q) * c + b * (m * r) == m * (q * c + b * r)
  {
    assert (m * q) * c == m * (q * c);
    assert b * (m * r) == m * (b * r);
  }

  lemma CongruentProduct(a: int, b: int, c: int, d: int, m: int)
    requires m > 0 && Congruent(a, b, m) && Congruent(c, d, m)
    ensures Congruent(a * c, b * d, m)
  {
    var q := CongruenceQuotient(a, b, m);
    var r := CongruenceQuotient(c, d, m);
    DifferenceOfProducts(a, b, c, d);
    ScaledQuotients(m, q, r, b, c);
    CongruentBy(a * c, b * d, m, q * c + b * r);
  }

  lemma CongruentRemainder(a: int, m: int)
    requires m > 0
    ensures Congruent(a % m, a, m)
  {
    assert a % m - a == m * (-(a / m)) by { assert m * (-(a / m)) == -(m * (a / m)); }
    CongruentBy(a % m, a, m, -(a / m));
  }

  /** Congruent numbers have the same remainder. */
  lemma SameRemainder(a: int, b: int, m: int)
    requires m > 0
    ensures Congruent(a, b, m) <==> a % m == b % m
  {
    if Congruent(a, b, m) {
      var q := CongruenceQuotient(a, b, m);
      assert m * (b / m + q) == m * (b / m) + m * q;
      DivisionUnique(a, m, b / m + q, b % m);
    }
    if a % m == b % m {
      assert m * (a / m - b / m) == m * (a / m) - m * (b / m);
      CongruentBy(a, b, m, a / m - b / m);
    }
  }

  /******* Powers *******/

  function Pow(b: int, e: nat): int {
    if e == 0 then 1 else b * Pow(b, e - 1)
  }

  lemma Swapped(a: int, b: int)
    ensures a * b == b * a
  {
  }

  lemma ProductRegroups(a: int, b: int, c: int)
    ensures a * (b * c) == (a * b) * c
  {
  }

  lemma {:induction false} PowerOfOne(e: nat)
    ensures Pow(1, e) == 1
  {
    if e > 0 {
      PowerOfOne(e - 1);
    }
  }

  lemma {:induction false} PowOfSquare(b: int, e: nat)
    ensures Pow(b * b, e) == Pow(b, 2 * e)
  {
    if e > 0 {
      PowOfSquare(b, e - 1);
      assert Pow(b, 2 * e) == b * Pow(b, 2 * e - 1) == b * (b * Pow(b, 2 * e - 2));
      ProductRegroups(b, b, Pow(b, 2 * e - 2));
    }
  }

  lemma {:induction false} CongruentPower(a: int, b: int, e: nat, m: int)
    requires m > 0 && Congruent(a, b, m)
    ensures Congruent(Pow(a, e), Pow(b, e), m)
  {
    if e > 0 {
      CongruentPower(a, b, e - 1, m);
      CongruentProduct(a, b, Pow(a, e - 1), Pow(b, e - 1), m);
    }
  }

  /** One round of square-and-multiply keeps `result * factor^power`. */
  lemma RoundKeepsProduct(result: int, factor: int, power: nat, m: int)
    requires m > 0 && power > 0
    ensures var result' := if power % 2 == 1 then result * factor % m else result;
            Congruent(result' * Pow(factor * factor % m, power / 2), result * Pow(factor, power), m)
  {
    var half := power / 2;
    var result' := if power % 2 == 1 then result * factor % m else result;
    var exact := if power % 2 == 1 then result * factor else result;
    CongruentRemainder(factor * factor, m);
    CongruentPower(factor * factor % m, factor * factor, half, m);
    PowOfSquare(factor, half);
    assert Congruent(result', exact, m) by { CongruentRemainder(result * factor, m); }
    CongruentProduct(result', exact, Pow(factor * factor % m, half), Pow(factor, 2 * half), m);
    if power % 2 == 1 {
      assert Pow(factor, power) == factor * Pow(factor, 2 * half);
      ProductRegroups(result, factor, Pow(factor, 2 * half));
    }
  }

  /** `modPow`: square-and-multiply with the halving exponent as termination measure. */
  method ModPow(base: int, exponent: int, modulus: int) returns (result: int)
    requires modulus >= 2
    ensures exponent >= 0 ==> result == Pow(base, exponent) % modulus
    ensures exponent < 0 ==> result == 1
  {
    result := 1;
    var factor := Mod(base, modulus);
    var power := exponent;
    ModIsRemainder(base, modulus);
    ghost var target := if exponent >= 0 then Pow(base, exponent) else 1;
    if exponent >= 0 {
      CongruentRemainder(base, modulus);
      CongruentPower(factor, base, exponent, modulus);
    }
    while power > 0
      invariant exponent >= 0 ==> power >= 0
      invariant exponent < 0 ==> power < 0 && result == 1
      invariant 0 <= result < modulus && 0 <= factor < modulus
      invariant power >= 0 ==> Congruent(result * Pow(factor, power), target, modulus)
      decreases power
    {
      CongruentTransitiveStep(result, factor, power, target, modulus);
      if power % 2 == 1 {
        result := result * factor % modulus;
      }
      factor := factor * factor % modulus;
      power := power / 2;
    }
    if exponent >= 0 {
      SameRemainder(result, target, modulus);
      DivisionUnique(result, modulus, 0, result);
    }
  }

  lemma CongruentTransitiveStep(result: int, factor: int, power: nat, target: int, m: int)
    requires m > 0 && power > 0 && Congruent(result * Pow(factor, power), target, m)
    ensures var result' := if power % 2 == 1 then result * factor % m else result;
            Congruent(result' * Pow(factor * factor % m, power / 2), target, m)
  {
    hide Congruent, Pow;
    RoundKeepsProduct(result, factor, power, m);
    var result' := if power % 2 == 1 then result * factor % m else result;
    CongruentTransitive(result' * Pow(factor * factor % m, power / 2), result * Pow(factor, power), target, m);
  }

  /******* Primes *******/

  predicate Divides(d: int, n: int)
    requires d > 0
  {
    n % d == 0
  }

  predicate IsPrime(p: int) {
    p >= 2 && forall d :: 1 < d < p ==> !Divides(d, p)
  }

  lemma DividesProduct(d: int, a: int, b: int)
    requires d > 0 && Divides(d, a)
    ensures Divides(d, a * b)
  {
    assert a == d * (a / d);
    ProductRegroups(d, a / d, b);
    MultipleHasNoRemainder(d, (a / d) * b);
  }

  lemma DividesDifference(d: int, a: int, b: int)
    requires d > 0 && Divides(d, a) && Divides(d, b)
    ensures Divides(d, a - b)
  {
    CongruentSum(a, 0, b, 0, d);
  }

  /** Euclid's lemma for a factor below the prime, by descent on remainders. */
  lemma {:induction false} EuclidBelow(p: int, x: int, y: int)
    requires IsPrime(p) && 0 < x < p && Divides(p, x * y)
    ensures Divides(p, y)
    decreases x
  {
    if x > 1 {
      var r, q := p % x, p / x;
      assert !Divides(x, p);
      MultipleHasNoRemainder(p, y);
      DividesProduct(p, x * y, q);
      RemainderTimes(p, x, y, q, r);
      DividesDifference(p, p * y, (x * y) * q);
      EuclidBelow(p, r, y);
    }
  }

  lemma RemainderTimes(p: int, x: int, y: int, q: int, r: int)
    requires p == x * q + r
    ensures r * y == p * y - (x * y) * q
  {
    assert r == p - x * q;
    assert (p - x * q) * y == p * y - (x * q) * y;
    assert (x * q) * y == (x * y) * q;
  }

  /** A prime that divides a product divides one of the factors. */
  lemma Euclid(p: int, x: int, y: int)
    requires IsPrime(p) && Divides(p, x * y) && !Divides(p, x)
    ensures Divides(p, y)
  {
    CongruentRemainder(x, p);
    Reflexive(y, p);
    CongruentProduct(x % p, x, y, y, p);
    SameRemainder((x % p) * y, x * y, p);
    EuclidBelow(p, x % p, y);
  }

  /******* Binomial coefficients *******/

  function Choose(n: nat, k: nat): nat {
    if k == 0 then 1 else if n == 0 then 0 else Choose(n - 1, k - 1) + Choose(n - 1, k)
  }

  lemma {:induction false} ChooseBeyond(n: nat, k: nat)
    requires k > n
    ensures Choose(n, k) == 0
  {
    if n > 0 {
      ChooseBeyond(n - 1, k - 1);
      ChooseBeyond(n - 1, k);
    }
  }

  lemma {:induction false} ChooseAll(n: nat)
    ensures Choose(n, n) == 1
  {
    if n > 0 {
      ChooseAll(n - 1);
      ChooseBeyond(n - 1, n);
    }
  }

  /** k C(n, k) = n C(n-1, k-1) */
  lemma {:induction false} Absorption(n: nat, k: nat)
    requires n >= 1 && k >= 1
    ensures k * Choose(n, k) == n * Choose(n - 1, k - 1)
    decreases n
  {
    if n == 1 {
      if k > 1 {
        ChooseBeyond(1, k);
        ChooseBeyond(0, k - 1);
      }
    } else {
      Absorption(n - 1, k);
      if k > 1 {
        Absorption(n - 1, k - 1);
        AbsorptionStep(n, k, Choose(n - 1, k - 1), Choose(n - 1, k), Choose(n - 2, k - 2), Choose(n - 2, k - 1));
      } else {
        assert Choose(n - 1, 0) == 1 && Choose(n - 2, 0) == 1;
      }
    }
  }

  lemma AbsorptionStep(n: int, k: int, a: int, b: int, c: int, d: int)
    requires a == c + d && k * b == (n - 1) * d && (k - 1) * a == (n - 1) * c
    ensures k * (a + b) == n * a
  {
    assert k * a == (k - 1) * a + a;
    assert (n - 1) * c + (n - 1) * d == (n - 1) * (c + d);
    assert n * a == (n - 1) * a + a;
  }

  /** The first `k + 1` terms of the expansion of (1 + a)^n. */
  function Expansion(a: int, n: nat, k: nat): int {
    (if k == 0 then 0 else Expansion(a, n, k - 1)) + Choose(n, k) * Pow(a, k)
  }

  lemma {:induction false} ExpansionStep(a: int, n: nat, k: nat)
    ensures Expansion(a, n + 1, k + 1) == Expansion(a, n, k + 1) + a * Expansion(a, n, k)
  {
    var c, d, p := Choose(n, k), Choose(n, k + 1), Pow(a, k);
    var before := if k == 0 then 0 else Expansion(a, n, k - 1);
    if k > 0 {
      ExpansionStep(a, n, k - 1);
    }
    assert Expansion(a, n + 1, k) == Expansion(a, n, k) + a * before;
    assert Expansion(a, n + 1, k + 1) == Expansion(a, n + 1, k) + (c + d) * (a * p);
    assert Expansion(a, n, k + 1) == Expansion(a, n, k) + d * (a * p);
    assert Expansion(a, n, k) == before + c * p;
    hide Expansion, Choose, Pow;
    PascalStep(Expansion(a, n + 1, k + 1), Expansion(a, n + 1, k), Expansion(a, n, k + 1), Expansion(a, n, k), before,
               a, c, d, p);
  }

  /** The arithmetic of Pascal's rule on partial sums. */
  lemma PascalStep(x: int, y: int, z: int, w: int, u: int, a: int, c: int, d: int, p: int)
    requires y == w + a * u && x == y + (c + d) * (a * p) && z == w + d * (a * p) && w == u + c * p
    ensures x == z + a * w
  {
    assert (c + d) * (a * p) == c * (a * p) + d * (a * p);
    assert c * (a * p) == a * (c * p);
    assert a * w == a * u + a * (c * p);
  }

  /** The binomial theorem. */
  lemma {:induction false} Binomial(a: int, n: nat)
    ensures Expansion(a, n, n) == Pow(1 + a, n)
  {
    if n > 0 {
      Binomial(a, n - 1);
      ExpansionStep(a, n - 1, n - 1);
      ChooseBeyond(n - 1, n);
      assert Expansion(a, n - 1, n) == Expansion(a, n - 1, n - 1) + 0 * Pow(a, n);
      hide Expansion, Choose;
      OnePlus(a, Pow(1 + a, n - 1));
    }
  }

  lemma OnePlus(a: int, e: int)
    ensures (1 + a) * e == e + a * e
  {
  }

  /** A prime divides its inner binomial coefficients. */
  lemma InnerCoefficient(p: int, k: int)
    requires IsPrime(p) && 0 < k < p
    ensures Divides(p, Choose(p, k))
  {
    Absorption(p, k);
    MultipleHasNoRemainder(p, Choose(p - 1, k - 1));
    EuclidBelow(p, k, Choose(p, k));
  }

  lemma {:induction false} InnerTermsVanish(p: int, a: int, k: nat)
    requires IsPrime(p) && k < p
    ensures Congruent(Expansion(a, p, k), 1, p)
  {
    if k == 0 {
      assert Expansion(a, p, 0) == 1;
    } else {
      InnerTermsVanish(p, a, k - 1);
      InnerCoefficient(p, k);
      DividesProduct(p, Choose(p, k), Pow(a, k));
      CongruentSum(Expansion(a, p, k - 1), 1, Choose(p, k) * Pow(a, k), 0, p);
    }
  }

  /******* Fermat *******/

  /** a^p is congruent to a for every prime p. */
  lemma {:induction false} FermatPower(p: int, a: nat)
    requires IsPrime(p)
    ensures Congruent(Pow(a, p), a, p)
  {
    if a == 0 {
      assert Pow(0, p) == 0;
    } else {
      var b := a - 1;
      FermatPower(p, b);
      Binomial(b, p);
      InnerTermsVanish(p, b, p - 1);
      ChooseAll(p);
      assert Pow(a, p) == Expansion(b, p, p - 1) + Pow(b, p);
      CongruentSum(Expansion(b, p, p - 1), 1, Pow(b, p), b, p);
    }
  }

  /** a^(p-1) is congruent to 1 for every prime p that does not divide a. */
  lemma Fermat(p: int, a: nat)
    requires IsPrime(p) && !Divides(p, a)
    ensures Congruent(Pow(a, p - 1), 1, p)
  {
    FermatPower(p, a);
    var e := Pow(a, p - 1);
    assert Pow(a, p) - a == a * (e - 1) by { assert Pow(a, p) == a * e; }
    Euclid(p, a, e - 1);
  }

  /******* Inversion *******/

  /** The value `inverse` computes: v^(m-2) mod m. */
  function Inverse(value: int, modulus: int): int
    requires modulus >= 2
  {
    Pow(value % modulus, modulus - 2) % modulus
  }

  /** `inverse` */
  method ComputeInverse(value: int, modulus: int) returns (result: int)
    requires modulus >= 2
    ensures result == Inverse(value, modulus)
  {
    ModIsRemainder(value, modulus);
    result := ModPow(Mod(value, modulus), modulus - 2, modulus);
  }

  /** For a prime modulus, `inverse` inverts every value the modulus does not divide. */
  lemma InverseInverts(value: int, p: int)
    requires IsPrime(p) && value % p != 0
    ensures Congruent(value * Inverse(value, p), 1, p)
  {
    var v := value % p;
    DivisionUnique(v, p, 0, v);
    Fermat(p, v);
    assert Pow(v, p - 1) == v * Pow(v, p - 2);
    CongruentRemainder(Pow(v, p - 2), p);
    CongruentRemainder(value, p);
    CongruentSymmetric(v, value, p);
    CongruentProduct(value, v, Inverse(value, p), Pow(v, p - 2), p);
    CongruentTransitive(value * Inverse(value, p), Pow(v, p - 1), 1, p);
  }
}
