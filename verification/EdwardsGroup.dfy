/**
 The points of the curve form a commutative group under the affine addition, so that double-and-add
 computes multiples.

 Associativity in x: with denominators cleared, the difference of the two triple sums is a multiple
 of an expression that vanishes once every d x^2 y^2 is replaced by y^2 - x^2 - 1. Associativity in y
 follows by adding a point of order four, which exchanges the coordinates.
 */
module EdwardsGroup {
  import opened Modular
  import opened Edwards

  /******* Triple sums with denominators cleared *******/

  /** xy */
  function Area(p: Affine): int {
    p.x * p.y
  }

  /** x^2 + y^2 */
  function Norm(p: Affine): int {
    p.x * p.x + p.y * p.y
  }

  /** y^2 - x^2 */
  function Form(p: Affine): int {
    p.y * p.y - p.x * p.x
  }

  /** The part of the x-numerator of a triple sum that does not depend on the order. */
  function Mixed(a: Affine, b: Affine, e: Affine): int {
    NumX(a, b) * e.y + NumY(a, b) * e.x
  }

  function Skewed(a: Affine, b: Affine, e: Affine): int {
    NumX(a, b) * e.y - NumY(a, b) * e.x
  }

  /** The x-numerator of (a + b) + e. */
  function TripleNum(c: Curve, a: Affine, b: Affine, e: Affine): int {
    var k := Cross(c, a, b);
    (NumX(a, b) * (1 - k)) * e.y + (NumY(a, b) * (1 + k)) * e.x
  }

  /** Its denominator. */
  function TripleDen(c: Curve, a: Affine, b: Affine, e: Affine): int {
    var k := Cross(c, a, b);
    (1 + k) * (1 - k) + c.d * ((NumX(a, b) * NumY(a, b)) * Area(e))
  }

  /** Multiplying out the inner denominators from the numerator. */
  lemma ClearNumerator(q: int, px: int, py: int, u: int, v: int, nx: int, ny: int, x: int, y: int)
    requires q > 0 && Congruent(px * u, nx, q) && Congruent(py * v, ny, q)
    ensures Congruent((px * y + py * x) * (u * v), (nx * v) * y + (ny * u) * x, q)
  {
    hide Congruent;
    Multiplied(q, px * u, nx, v * y);
    Multiplied(q, py * v, ny, u * x);
    CongruentSum((px * u) * (v * y), nx * (v * y), (py * v) * (u * x), ny * (u * x), q);
    ClearedNumerator(px, py, u, v, x, y);
    ProductRegroups(nx, v, y);
    ProductRegroups(ny, u, x);
  }

  lemma ClearedNumerator(px: int, py: int, u: int, v: int, x: int, y: int)
    ensures (px * y + py * x) * (u * v) == (px * u) * (v * y) + (py * v) * (u * x)
  {
    assert (px * y) * (u * v) == (px * u) * (v * y);
    assert (py * x) * (u * v) == (py * v) * (u * x);
    assert (px * y + py * x) * (u * v) == (px * y) * (u * v) + (py * x) * (u * v);
  }

  /** Multiplying out the inner denominators from the denominator. */
  lemma ClearDenominator(q: int, d: int, px: int, py: int, u: int, v: int, nx: int, ny: int, x: int, y: int)
    requires q > 0 && Congruent(px * u, nx, q) && Congruent(py * v, ny, q)
    ensures Congruent((1 + d * ((px * x) * (py * y))) * (u * v), u * v + d * ((nx * ny) * (x * y)), q)
  {
    hide Congruent;
    CongruentProduct(px * u, nx, py * v, ny, q);
    Multiplied(q, (px * u) * (py * v), nx * ny, x * y);
    Multiplied(q, ((px * u) * (py * v)) * (x * y), (nx * ny) * (x * y), d);
    Reflexive(u * v, q);
    CongruentSum(u * v, u * v, d * (((px * u) * (py * v)) * (x * y)), d * ((nx * ny) * (x * y)), q);
    ClearedDenominator(d, px, py, u, v, x, y);
  }

  lemma ClearedDenominator(d: int, px: int, py: int, u: int, v: int, x: int, y: int)
    ensures (1 + d * ((px * x) * (py * y))) * (u * v) == u * v + d * (((px * u) * (py * v)) * (x * y))
  {
    var w, z, s := px * py, x * y, u * v;
    assert (px * x) * (py * y) == w * z by { CrossOrder(px, x, py, y); }
    assert (px * u) * (py * v) == w * s by { CrossOrder(px, u, py, v); }
    assert (d * (w * z)) * s == d * ((w * s) * z);
    assert (1 + d * (w * z)) * s == s + (d * (w * z)) * s;
  }

  /** The x-coordinate of (a + b) + e is the cleared numerator over the cleared denominator. */
  lemma TripleSolves(c: Curve, a: Affine, b: Affine, e: Affine)
    requires IsCurve(c) && OnCurve(c, a) && OnCurve(c, b) && OnCurve(c, e)
    ensures Congruent(AddAffine(c, AddAffine(c, a, b), e).x * TripleDen(c, a, b, e), TripleNum(c, a, b, e), c.q)
    ensures TripleDen(c, a, b, e) % c.q != 0
  {
    var q, k, p := c.q, Cross(c, a, b), AddAffine(c, a, b);
    var s := AddAffine(c, p, e);
    Closed(c, a, b);
    Complete(c, a, b);
    Complete(c, p, e);
    AffineSolves(c, a, b);
    AffineSolves(c, p, e);
    hide IsPrime, Congruent, OnCurve, AddAffine, IsCurve;
    var u, v, n, w := 1 + k, 1 - k, NumX(p, e), 1 + Cross(c, p, e);
    var num, den := TripleNum(c, a, b, e), TripleDen(c, a, b, e);
    assert Congruent(n * (u * v), num, q) by {
      ClearNumerator(q, p.x, p.y, u, v, NumX(a, b), NumY(a, b), e.x, e.y);
    }
    assert Congruent(w * (u * v), den, q) by {
      ClearDenominator(q, c.d, p.x, p.y, u, v, NumX(a, b), NumY(a, b), e.x, e.y);
    }
    hide TripleNum, TripleDen, Cross, NumX, NumY;
    TripleQuotient(q, s.x, w, n, u * v, num, den);
    assert IsPrime(q) by { CurvePrime(c); }
    NonzeroProduct(q, u, v);
    NonzeroProduct(q, w, u * v);
    SameRemainder(w * (u * v), den, q);
  }

  lemma CurvePrime(c: Curve)
    requires IsCurve(c)
    ensures IsPrime(c.q) && c.q > 2
  {
  }

  lemma TripleQuotient(q: int, x: int, w: int, n: int, f: int, num: int, den: int)
    requires q > 0 && Congruent(x * w, n, q) && Congruent(n * f, num, q) && Congruent(w * f, den, q)
    ensures Congruent(x * den, num, q)
  {
    hide Congruent;
    CongruentSymmetric(w * f, den, q);
    Multiplied(q, den, w * f, x);
    ProductRegroups(x, w, f);
    Multiplied(q, x * w, n, f);
    CongruentTransitive(x * den, (x * w) * f, n * f, q);
    CongruentTransitive(x * den, n * f, num, q);
  }

  /******* The cleared difference vanishes *******/

  /** The cleared difference without its factor d x2 y2; `r1`, `r2`, `r3` stand for the d x^2 y^2. */
  function Defect(k0: int, k: int, p1: int, p3: int, a1: int, a3: int, r1: int, r2: int, r3: int): int {
    k0 + k * (r1 - r3) - (p1 - p3) + r2 * (r3 * p1 - r1 * p3) - r1 * a3 + r3 * a1
  }

  /** It is zero when each `r` is t - 1. */
  lemma DefectVanishes(k0: int, k: int, p1: int, p3: int, a1: int, a3: int, t1: int, t2: int, t3: int)
    requires k0 == t3 * p1 - t1 * p3 && t2 * p1 + a1 == t1 * k && t2 * p3 + a3 == t3 * k
    ensures Defect(k0, k, p1, p3, a1, a3, t1 - 1, t2 - 1, t3 - 1) == 0
  {
    DefectTerm(t1, t2, t3, p1, k, a1);
    DefectTerm(t3, t2, t1, p3, k, a3);
    assert k * ((t1 - 1) - (t3 - 1)) == t1 * k - t3 * k;
    assert (t2 - 1) * ((t3 - 1) * p1 - (t1 - 1) * p3) == (t2 - 1) * ((t3 - 1) * p1) - (t2 - 1) * ((t1 - 1) * p3);
    Swapped3(t1, t3, k);
  }

  lemma Swapped3(a: int, b: int, k: int)
    ensures a * (b * k) == b * (a * k)
  {
  }

  lemma DefectTerm(t1: int, t2: int, t3: int, p1: int, k: int, a1: int)
    requires t2 * p1 + a1 == t1 * k
    ensures (t2 - 1) * ((t3 - 1) * p1) + (t3 - 1) * a1 == t3 * (t1 * k) - t1 * k - t3 * p1 + p1
  {
    var u := t3 - 1;
    assert (t2 - 1) * (u * p1) == u * (t2 * p1) - u * p1;
    assert u * (t2 * p1) + u * a1 == u * (t1 * k);
    assert u * (t1 * k) == t3 * (t1 * k) - t1 * k;
    assert u * p1 == t3 * p1 - p1;
  }

  lemma DefectCongruent(
      q: int, k0: int, k: int, p1: int, p3: int, a1: int, a3: int, r1: int, r2: int, r3: int, s1: int, s2: int, s3: int)
    requires q > 0 && Congruent(r1, s1, q) && Congruent(r2, s2, q) && Congruent(r3, s3, q)
    ensures Congruent(Defect(k0, k, p1, p3, a1, a3, r1, r2, r3), Defect(k0, k, p1, p3, a1, a3, s1, s2, s3), q)
  {
    hide Congruent;
    CongruentSum(r1, s1, r3, s3, q);
    Multiplied(q, r1 - r3, s1 - s3, k);
    Multiplied(q, r3, s3, p1);
    Multiplied(q, r1, s1, p3);
    CongruentSum(r3 * p1, s3 * p1, r1 * p3, s1 * p3, q);
    CongruentProduct(r2, s2, r3 * p1 - r1 * p3, s3 * p1 - s1 * p3, q);
    Multiplied(q, r1, s1, a3);
    Multiplied(q, r3, s3, a1);
    Reflexive(k0, q);
    Reflexive(p1 - p3, q);
    CongruentSum(k0, k0, k * (r1 - r3), k * (s1 - s3), q);
    var x, y := k0 + k * (r1 - r3), k0 + k * (s1 - s3);
    CongruentSum(x, y, p1 - p3, p1 - p3, q);
    var u, v := r2 * (r3 * p1 - r1 * p3), s2 * (s3 * p1 - s1 * p3);
    CongruentSum(x - (p1 - p3), y - (p1 - p3), u, v, q);
    CongruentSum(x - (p1 - p3) + u, y - (p1 - p3) + v, r1 * a3, s1 * a3, q);
    CongruentSum(x - (p1 - p3) + u - r1 * a3, y - (p1 - p3) + v - s1 * a3, r3 * a1, s3 * a1, q);
  }

  /** The difference of the cross products, as a multiple of the defect. */
  lemma CrossDifference(d: int, m1: int, m2: int, m3: int, s1: int, s2: int, s3: int, s: int, u1: int, u3: int)
    ensures var k1, k3 := (d * m2) * m1, (d * m2) * m3;
            var j := d * (m1 * m3);
            (s - k1 * u3) * (1 - k3 * k3 + j * s2 + k1 * s3) - (s - k3 * u1) * (1 - k1 * k1 + j * s2 + k3 * s1) ==
            (d * m2) * Defect(s * (m1 * s3 - m3 * s1), m2 * s, m1 * u3, m3 * u1,
                              (m2 * s1 + m1 * s2) * u1, (m2 * s3 + m3 * s2) * u3,
                              d * (m1 * m1), d * (m2 * m2), d * (m3 * m3))
  {
    var g := d * m2;
    var k1, k3, j := g * m1, g * m3, d * (m1 * m3);
    var r1, r2, r3 := d * (m1 * m1), d * (m2 * m2), d * (m3 * m3);
    var p1, p3 := m1 * u3, m3 * u1;
    var a1, a3 := (m2 * s1 + m1 * s2) * u1, (m2 * s3 + m3 * s2) * u3;
    SplitDifference(s, k1, k3, u1, u3, j * s2, s1, s3);
    assert s * (k1 * k1 - k3 * k3 + k1 * s3 - k3 * s1) == g * (s * (m1 * s3 - m3 * s1) + (m2 * s) * (r1 - r3)) by {
      MiddleTerm(d, m1, m2, m3, s1, s3, s);
    }
    assert (k1 * u3) * (1 - k3 * k3 + j * s2 + k1 * s3) == g * (p1 - r2 * (r3 * p1) + r1 * a3) by {
      SideTerm(d, m1, m2, m3, s2, s3, u3);
    }
    assert (k3 * u1) * (1 - k1 * k1 + j * s2 + k3 * s1) == g * (p3 - r2 * (r1 * p3) + r3 * a1) by {
      SideTerm(d, m3, m2, m1, s2, s1, u1);
      Swapped(m1, m3);
    }
    hide Defect;
    CollectDefect(g, s * (m1 * s3 - m3 * s1), (m2 * s) * (r1 - r3), p1, p3, r2 * (r3 * p1), r2 * (r1 * p3), r1 * a3,
                  r3 * a1);
    assert r2 * (r3 * p1 - r1 * p3) == r2 * (r3 * p1) - r2 * (r1 * p3);
    DefectIs(s * (m1 * s3 - m3 * s1), m2 * s, p1, p3, a1, a3, r1, r2, r3);
  }

  lemma DefectIs(k0: int, k: int, p1: int, p3: int, a1: int, a3: int, r1: int, r2: int, r3: int)
    ensures Defect(k0, k, p1, p3, a1, a3, r1, r2, r3) ==
            k0 + k * (r1 - r3) - (p1 - p3) + r2 * (r3 * p1 - r1 * p3) - r1 * a3 + r3 * a1
  {
  }

  lemma CollectDefect(g: int, k0: int, k: int, p1: int, p3: int, b1: int, b3: int, c1: int, c3: int)
    ensures g * (k0 + k) - g * (p1 - b1 + c1) + g * (p3 - b3 + c3) ==
            g * (k0 + k - (p1 - p3) + (b1 - b3) - c1 + c3)
  {
  }

  lemma SplitDifference(s: int, k1: int, k3: int, u1: int, u3: int, h: int, s1: int, s3: int)
    ensures (s - k1 * u3) * (1 - k3 * k3 + h + k1 * s3) - (s - k3 * u1) * (1 - k1 * k1 + h + k3 * s1) ==
            s * (k1 * k1 - k3 * k3 + k1 * s3 - k3 * s1)
            - (k1 * u3) * (1 - k3 * k3 + h + k1 * s3) + (k3 * u1) * (1 - k1 * k1 + h + k3 * s1)
  {
    var x, y := 1 - k3 * k3 + h + k1 * s3, 1 - k1 * k1 + h + k3 * s1;
    assert (s - k1 * u3) * x == s * x - (k1 * u3) * x;
    assert (s - k3 * u1) * y == s * y - (k3 * u1) * y;
    assert s * x - s * y == s * (x - y);
    assert x - y == k1 * k1 - k3 * k3 + k1 * s3 - k3 * s1;
  }

  lemma SquareOfK(d: int, m: int, n: int)
    ensures ((d * m) * n) * ((d * m) * n) == (d * m) * (m * (d * (n * n)))
  {
    var g := d * m;
    assert (g * n) * (g * n) == g * ((g * n) * n);
    assert (g * n) * n == m * (d * (n * n));
  }

  lemma MiddleTerm(d: int, m1: int, m2: int, m3: int, s1: int, s3: int, s: int)
    ensures var k1, k3 := (d * m2) * m1, (d * m2) * m3;
            s * (k1 * k1 - k3 * k3 + k1 * s3 - k3 * s1) ==
            (d * m2) * (s * (m1 * s3 - m3 * s1) + (m2 * s) * (d * (m1 * m1) - d * (m3 * m3)))
  {
    var g, r1, r3 := d * m2, d * (m1 * m1), d * (m3 * m3);
    SquareOfK(d, m2, m1);
    SquareOfK(d, m2, m3);
    var k1, k3 := g * m1, g * m3;
    assert k1 * s3 == g * (m1 * s3) && k3 * s1 == g * (m3 * s1);
    MiddleCollect(g, m2 * r1, m2 * r3, m1 * s3, m3 * s1, s);
    assert s * (m2 * r1 - m2 * r3) == (m2 * s) * (r1 - r3);
  }

  lemma MiddleCollect(g: int, a: int, b: int, x: int, y: int, s: int)
    ensures s * (g * a - g * b + g * x - g * y) == g * (s * (x - y) + s * (a - b))
  {
    assert g * a - g * b + g * x - g * y == g * ((x - y) + (a - b));
    assert s * (g * ((x - y) + (a - b))) == g * (s * ((x - y) + (a - b)));
  }

  lemma SideTerm(d: int, m1: int, m2: int, m3: int, s2: int, s3: int, u: int)
    ensures var k1, k3, j := (d * m2) * m1, (d * m2) * m3, d * (m1 * m3);
            var r1, r2, r3 := d * (m1 * m1), d * (m2 * m2), d * (m3 * m3);
            (k1 * u) * (1 - k3 * k3 + j * s2 + k1 * s3) ==
            (d * m2) * (m1 * u - r2 * (r3 * (m1 * u)) + r1 * ((m2 * s3 + m3 * s2) * u))
  {
    var k1, k3, j := (d * m2) * m1, (d * m2) * m3, d * (m1 * m3);
    KSquare(d, m2, m3);
    SideFirst(d, m1, m3, s2, u);
    SideFirst(d, m1, m2, s3, u);
    SideSum(d * m2, m1, u, k3 * k3, j * s2, k1 * s3, d * (m1 * m1), d * (m2 * m2), d * (m3 * m3), m3 * s2, m2 * s3);
  }

  lemma KSquare(d: int, m: int, n: int)
    ensures ((d * m) * n) * ((d * m) * n) == (d * (m * m)) * (d * (n * n))
  {
    SquareOfK(d, m, n);
    ProductRegroups(d * m, m, d * (n * n));
    ProductRegroups(d, m, m);
  }

  lemma SideSum(g: int, m: int, u: int, kk: int, js: int, ks: int, r1: int, r2: int, r3: int, x: int, y: int)
    requires kk == r2 * r3 && (m * u) * js == r1 * (x * u) && (m * u) * ks == r1 * (y * u)
    ensures ((g * m) * u) * (1 - kk + js + ks) == g * (m * u - r2 * (r3 * (m * u)) + r1 * ((y + x) * u))
  {
    var p := m * u;
    ProductRegroups(g, m, u);
    SideCollect(g, p, kk, js, ks);
    assert p * (r2 * r3) == r2 * (r3 * p);
    assert (y + x) * u == y * u + x * u;
    assert r1 * (y * u + x * u) == r1 * (y * u) + r1 * (x * u);
  }

  lemma SideFirst(d: int, m1: int, m3: int, s2: int, u: int)
    ensures (m1 * u) * ((d * (m1 * m3)) * s2) == (d * (m1 * m1)) * ((m3 * s2) * u)
    ensures (m1 * u) * (((d * m3) * m1) * s2) == (d * (m1 * m1)) * ((m3 * s2) * u)
  {
    var h := m3 * s2;
    assert (d * (m1 * m3)) * s2 == (d * m1) * h;
    assert ((d * m3) * m1) * s2 == (d * m1) * h;
    assert (m1 * u) * ((d * m1) * h) == ((d * m1) * m1) * (h * u);
  }

  lemma SideCollect(g: int, p: int, a: int, b: int, c: int)
    ensures (g * p) * (1 - a + b + c) == g * (p - p * a + p * b + p * c)
  {
    assert (g * p) * (1 - a + b + c) == g * (p * (1 - a + b + c));
  }

  /******* Associativity *******/

  /** y1 y2 + x1 x2 times y1 x2 - x1 y2, and the same with the other signs. */
  lemma SkewProducts(a: Affine, b: Affine)
    ensures NumY(a, b) * (a.y * b.x - a.x * b.y) == Form(a) * Area(b) - Form(b) * Area(a)
    ensures NumX(a, b) * (a.y * b.y - a.x * b.x) == Form(a) * Area(b) + Form(b) * Area(a)
    ensures NumX(a, b) * NumY(a, b) == Area(b) * Norm(a) + Area(a) * Norm(b)
  {
    SkewProduct(a.x, a.y, b.x, b.y);
  }

  lemma SkewProduct(x: int, y: int, u: int, v: int)
    ensures (y * v + x * u) * (y * u - x * v) == (y * y - x * x) * (u * v) - (v * v - u * u) * (x * y)
    ensures (x * v + y * u) * (y * v - x * u) == (y * y - x * x) * (u * v) + (v * v - u * u) * (x * y)
    ensures (x * v + y * u) * (y * v + x * u) == (u * v) * (x * x + y * y) + (x * y) * (u * u + v * v)
  {
    InnerTerms(x, y, u, v);
    FourProducts(y * v, x * u, y * u, -(x * v));
    FourProducts(x * v, y * u, y * v, -(x * u));
    FourProducts(x * v, y * u, y * v, x * u);
    Distributes(u * v, y * y, x * x);
    Distributes(x * y, v * v, u * u);
  }

  lemma Distributes(k: int, a: int, b: int)
    ensures (a - b) * k == a * k - b * k && k * (a + b) == a * k + b * k && k * (b + a) == a * k + b * k
  {
  }

  lemma InnerTerms(x: int, y: int, u: int, v: int)
    ensures (y * v) * (y * u) == (y * y) * (u * v) && (x * u) * (x * v) == (x * x) * (u * v)
    ensures (y * v) * (x * v) == (v * v) * (x * y) && (x * u) * (y * u) == (u * u) * (x * y)
  {
    CrossOrder(y, v, y, u);
    CrossOrder(x, u, x, v);
    CrossOrder(y, v, x, v);
    CrossOrder(x, u, y, u);
    Swapped(v, u);
    Swapped(y, x);
    Swapped(x * y, v * v);
    Swapped(x * y, u * u);
  }

  lemma SkewedOtherwise(x1: int, y1: int, x2: int, y2: int, x3: int, y3: int)
    ensures (x3 * y2 + y3 * x2) * y1 - (y3 * y2 + x3 * x2) * x1 == (y1 * x2 - x1 * y2) * y3 + (y1 * y2 - x1 * x2) * x3
  {
    assert (x3 * y2 + y3 * x2) * y1 == (y1 * y2) * x3 + (y1 * x2) * y3;
    assert (y3 * y2 + x3 * x2) * x1 == (x1 * y2) * y3 + (x1 * x2) * x3;
  }

  lemma MixedOtherwise(x1: int, y1: int, x2: int, y2: int, x3: int, y3: int)
    ensures (x1 * y2 + y1 * x2) * y3 + (y1 * y2 + x1 * x2) * x3 == (x3 * y2 + y3 * x2) * y1 + (y3 * y2 + x3 * x2) * x1
    ensures (x1 * y2 + y1 * x2) * x3 + (y1 * y2 + x1 * x2) * y3 == (x3 * y2 + y3 * x2) * x1 + (y3 * y2 + x3 * x2) * y1
  {
    assert (x3 * y2 + y3 * x2) * y1 == (y1 * y2) * x3 + (y1 * x2) * y3;
    assert (y3 * y2 + x3 * x2) * x1 == (x1 * y2) * y3 + (x1 * x2) * x3;
    assert (x3 * y2 + y3 * x2) * x1 == (x1 * y2) * x3 + (x1 * x2) * y3;
    assert (y3 * y2 + x3 * x2) * y1 == (y1 * y2) * y3 + (y1 * x2) * x3;
  }

  /** The y-numerator of a triple sum that does not depend on the order. */
  function Level(a: Affine, b: Affine, e: Affine): int {
    NumX(a, b) * e.x + NumY(a, b) * e.y
  }

  lemma MixedSymmetric(a: Affine, b: Affine, e: Affine)
    ensures Mixed(a, b, e) == Mixed(e, b, a) && Level(a, b, e) == Level(e, b, a)
  {
    MixedOtherwise(a.x, a.y, b.x, b.y, e.x, e.y);
  }

  lemma SkewCombines(x: int, y: int, v: int, w: int, g: int, h: int, ex: int, ey: int)
    requires y * v == g - h && x * w == g + h
    ensures h * (x * ey - y * ex) + (x * y) * (v * ey + w * ex) == g * (x * ey + y * ex)
  {
    var p, r := x * ey, y * ex;
    assert (x * y) * (v * ey) == (y * v) * p;
    assert (x * y) * (w * ex) == (x * w) * r;
    assert (x * y) * (v * ey + w * ex) == (x * y) * (v * ey) + (x * y) * (w * ex);
    assert (g - h) * p == g * p - h * p && (g + h) * r == g * r + h * r;
    assert h * (p - r) == h * p - h * r && g * (p + r) == g * p + g * r;
  }

  lemma SkewIdentity(a: Affine, b: Affine, e: Affine)
    ensures (Form(b) * Area(a)) * Skewed(a, b, e) + (Area(b) * Norm(a) + Area(a) * Norm(b)) * Skewed(e, b, a) ==
            (Form(a) * Area(b)) * Mixed(a, b, e)
  {
    var v, w := a.y * b.x - a.x * b.y, a.y * b.y - a.x * b.x;
    assert Skewed(e, b, a) == v * e.y + w * e.x by { SkewedOtherwise(a.x, a.y, b.x, b.y, e.x, e.y); }
    SkewProducts(a, b);
    hide NumX, NumY, Form, Area, Norm;
    SkewCombines(NumX(a, b), NumY(a, b), v, w, Form(a) * Area(b), Form(b) * Area(a), e.x, e.y);
  }

  lemma NormIdentity(a: Affine, b: Affine, e: Affine)
    ensures Norm(e) * Mixed(a, b, e) - Form(e) * Skewed(a, b, e) == 2 * (Area(e) * Level(a, b, e))
  {
    NormTerms(NumX(a, b), NumY(a, b), e.x, e.y);
  }

  lemma NormTerms(p: int, r: int, x: int, y: int)
    ensures (x * x + y * y) * (p * y + r * x) - (y * y - x * x) * (p * y - r * x) == 2 * ((x * y) * (p * x + r * y))
  {
    var u, v, s, t := p * y, r * x, x * x, y * y;
    FourProducts(s, t, u, v);
    FourProducts(t, -s, u, -v);
    assert s * u == (x * y) * (p * x);
    assert t * v == (x * y) * (r * y);
    assert (x * y) * (p * x + r * y) == (x * y) * (p * x) + (x * y) * (r * y);
  }

  lemma NormCombines(m1: int, m3: int, s1: int, s3: int, t1: int, t3: int, s: int, u1: int, u3: int, l: int)
    requires s3 * s - t3 * u3 == 2 * (m3 * l) && s1 * s - t1 * u1 == 2 * (m1 * l)
    ensures s * (m1 * s3 - m3 * s1) == t3 * (m1 * u3) - t1 * (m3 * u1)
  {
    assert s * (m1 * s3 - m3 * s1) == m1 * (s3 * s) - m3 * (s1 * s);
    assert m1 * (t3 * u3) == t3 * (m1 * u3) && m3 * (t1 * u1) == t1 * (m3 * u1);
    assert m1 * (2 * (m3 * l)) == m3 * (2 * (m1 * l));
    assert m1 * (s3 * s) == m1 * (t3 * u3) + m1 * (2 * (m3 * l));
    assert m3 * (s1 * s) == m3 * (t1 * u1) + m3 * (2 * (m1 * l));
  }

  /** The defect of three points. */
  function PointDefect(a: Affine, b: Affine, e: Affine, r1: int, r2: int, r3: int): int {
    var m1, m2, m3, s := Area(a), Area(b), Area(e), Mixed(a, b, e);
    Defect(s * (m1 * Norm(e) - m3 * Norm(a)), m2 * s, m1 * Skewed(a, b, e), m3 * Skewed(e, b, a),
           (m2 * Norm(a) + m1 * Norm(b)) * Skewed(e, b, a), (m2 * Norm(e) + m3 * Norm(b)) * Skewed(a, b, e), r1, r2, r3)
  }

  lemma PointDefectVanishes(a: Affine, b: Affine, e: Affine)
    ensures PointDefect(a, b, e, Form(a) - 1, Form(b) - 1, Form(e) - 1) == 0
  {
    var m1, m2, m3, s := Area(a), Area(b), Area(e), Mixed(a, b, e);
    var u1, u3 := Skewed(e, b, a), Skewed(a, b, e);
    MixedSymmetric(a, b, e);
    SkewIdentity(a, b, e);
    SkewIdentity(e, b, a);
    NormIdentity(a, b, e);
    NormIdentity(e, b, a);
    hide Area, Norm, Form, Mixed, Skewed, Level, Defect;
    NormCombines(m1, m3, Norm(a), Norm(e), Form(a), Form(e), s, u1, u3, Level(a, b, e));
    ProductRegroups(Form(b), m1, u3);
    ProductRegroups(Form(b), m3, u1);
    ProductRegroups(Form(a), m2, s);
    ProductRegroups(Form(e), m2, s);
    DefectVanishes(s * (m1 * Norm(e) - m3 * Norm(a)), m2 * s, m1 * u3, m3 * u1,
                   (m2 * Norm(a) + m1 * Norm(b)) * u1, (m2 * Norm(e) + m3 * Norm(b)) * u3, Form(a), Form(b), Form(e));
  }

  /** On the curve d x^2 y^2 is congruent to y^2 - x^2 - 1. */
  lemma CurveForm(c: Curve, p: Affine)
    requires c.q > 2 && OnCurve(c, p)
    ensures Congruent(c.d * (Area(p) * Area(p)), Form(p) - 1, c.q)
  {
    var r := Residue(c.d, p);
    DividesDifference(c.q, 0, r);
    assert c.d * (Area(p) * Area(p)) - (Form(p) - 1) == 0 - r;
  }

  lemma DefectOnCurve(c: Curve, a: Affine, b: Affine, e: Affine)
    requires c.q > 2 && OnCurve(c, a) && OnCurve(c, b) && OnCurve(c, e)
    ensures Divides(c.q, PointDefect(a, b, e, c.d * (Area(a) * Area(a)), c.d * (Area(b) * Area(b)),
                                     c.d * (Area(e) * Area(e))))
  {
    CurveForm(c, a);
    CurveForm(c, b);
    CurveForm(c, e);
    PointDefectVanishes(a, b, e);
    hide OnCurve, Area, Norm, Form, Mixed, Skewed, Defect;
    var m1, m2, m3, s := Area(a), Area(b), Area(e), Mixed(a, b, e);
    DefectCongruent(c.q, s * (m1 * Norm(e) - m3 * Norm(a)), m2 * s, m1 * Skewed(a, b, e), m3 * Skewed(e, b, a),
                    (m2 * Norm(a) + m1 * Norm(b)) * Skewed(e, b, a), (m2 * Norm(e) + m3 * Norm(b)) * Skewed(a, b, e),
                    c.d * (m1 * m1), c.d * (m2 * m2), c.d * (m3 * m3), Form(a) - 1, Form(b) - 1, Form(e) - 1);
  }

  /** The cleared numerator and denominator in terms of the order-free parts. */
  lemma TripleParts(c: Curve, a: Affine, b: Affine, e: Affine)
    ensures var k := (c.d * Area(b)) * Area(a);
            && TripleNum(c, a, b, e) == Mixed(a, b, e) - k * Skewed(a, b, e)
            && TripleDen(c, a, b, e) ==
               1 - k * k + (c.d * (Area(a) * Area(e))) * Norm(b) + ((c.d * Area(b)) * Area(e)) * Norm(a)
  {
    var k := (c.d * Area(b)) * Area(a);
    assert Cross(c, a, b) == k by {
      CrossOrder(a.x, b.x, a.y, b.y);
      Swapped(Area(a), Area(b));
      ProductRegroups(c.d, Area(b), Area(a));
    }
    SkewProducts(a, b);
    hide Cross, NumX, NumY, Area, Norm;
    NumParts(NumX(a, b), NumY(a, b), k, e.x, e.y);
    DenParts(c.d, Area(a), Area(b), Area(e), Norm(a), Norm(b), k);
  }

  lemma NumParts(x: int, y: int, k: int, ex: int, ey: int)
    ensures (x * (1 - k)) * ey + (y * (1 + k)) * ex == (x * ey + y * ex) - k * (x * ey - y * ex)
  {
    assert (x * (1 - k)) * ey == x * ey - k * (x * ey);
    assert (y * (1 + k)) * ex == y * ex + k * (y * ex);
  }

  lemma DenParts(d: int, m1: int, m2: int, m3: int, s1: int, s2: int, k: int)
    ensures (1 + k) * (1 - k) + d * ((m2 * s1 + m1 * s2) * m3) ==
            1 - k * k + (d * (m1 * m3)) * s2 + ((d * m2) * m3) * s1
  {
    assert (1 + k) * (1 - k) == 1 - k * k;
    assert (m2 * s1 + m1 * s2) * m3 == (m2 * m3) * s1 + (m1 * m3) * s2;
    assert d * ((m2 * m3) * s1) == ((d * m2) * m3) * s1;
    assert d * ((m1 * m3) * s2) == (d * (m1 * m3)) * s2;
  }

  /** Cross-multiplied, the two triple sums agree in x. */
  lemma TripleCross(c: Curve, a: Affine, b: Affine, e: Affine)
    requires c.q > 2 && OnCurve(c, a) && OnCurve(c, b) && OnCurve(c, e)
    ensures Congruent(TripleNum(c, a, b, e) * TripleDen(c, e, b, a), TripleNum(c, e, b, a) * TripleDen(c, a, b, e), c.q)
  {
    TripleParts(c, a, b, e);
    TripleParts(c, e, b, a);
    MixedSymmetric(a, b, e);
    DefectOnCurve(c, a, b, e);
    Swapped(Area(a), Area(e));
    hide OnCurve, Area, Norm, Form, Mixed, Skewed, Defect, TripleNum, TripleDen;
    CrossDifference(c.d, Area(a), Area(b), Area(e), Norm(a), Norm(b), Norm(e), Mixed(a, b, e), Skewed(e, b, a),
                    Skewed(a, b, e));
    var defect := PointDefect(a, b, e, c.d * (Area(a) * Area(a)), c.d * (Area(b) * Area(b)), c.d * (Area(e) * Area(e)));
    DividesProduct(c.q, defect, c.d * Area(b));
    Swapped(defect, c.d * Area(b));
  }

  /** Addition commutes, on all points. */
  lemma AddCommutes(c: Curve, a: Affine, b: Affine)
    requires c.q > 2
    ensures AddAffine(c, a, b) == AddAffine(c, b, a)
  {
    assert Cross(c, a, b) == Cross(c, b, a);
    assert NumX(a, b) == NumX(b, a) && NumY(a, b) == NumY(b, a);
  }

  lemma EqualQuotients(q: int, x: int, n: int, d: int, x': int, n': int, d': int)
    requires IsPrime(q) && Congruent(x * d, n, q) && Congruent(x' * d', n', q) && d % q != 0 && d' % q != 0
    requires Congruent(n * d', n' * d, q)
    ensures Congruent(x, x', q)
  {
    hide IsPrime, Congruent;
    IsPrimeAbove(q);
    Multiplied(q, x * d, n, d');
    Multiplied(q, x' * d', n', d);
    CongruentSymmetric((x' * d') * d, n' * d, q);
    CongruentTransitive((x * d) * d', n * d', n' * d, q);
    CongruentTransitive((x * d) * d', n' * d, (x' * d') * d, q);
    ProductRegroups(x, d, d');
    ProductRegroups(x', d', d);
    Swapped(d', d);
    NonzeroProduct(q, d, d');
    Cancel(q, x, x', d * d');
  }

  lemma AssociatesInX(c: Curve, a: Affine, b: Affine, e: Affine)
    requires IsCurve(c) && OnCurve(c, a) && OnCurve(c, b) && OnCurve(c, e)
    ensures AddAffine(c, AddAffine(c, a, b), e).x == AddAffine(c, a, AddAffine(c, b, e)).x
  {
    var l, r := AddAffine(c, AddAffine(c, a, b), e), AddAffine(c, AddAffine(c, e, b), a);
    CurvePrime(c);
    TripleSolves(c, a, b, e);
    TripleSolves(c, e, b, a);
    TripleCross(c, a, b, e);
    AddCommutes(c, b, e);
    AddCommutes(c, a, AddAffine(c, b, e));
    SumIsReduced(c, AddAffine(c, a, b), e);
    SumIsReduced(c, AddAffine(c, e, b), a);
    hide IsPrime, Congruent, OnCurve, AddAffine, IsCurve, TripleNum, TripleDen;
    EqualQuotients(c.q, l.x, TripleNum(c, a, b, e), TripleDen(c, a, b, e), r.x, TripleNum(c, e, b, a),
                   TripleDen(c, e, b, a));
    ReducedCongruent(c.q, l.x, r.x);
  }

  /******* The point of order four *******/

  /** The sum with the point (i, 0): it exchanges the coordinates. */
  function Turn(c: Curve, p: Affine): Affine {
    Affine(c.i * p.y, c.i * p.x)
  }

  /** i a times i b is congruent to - a b. */
  lemma TurnProduct(c: Curve, a: int, b: int)
    requires c.q > 2 && Congruent(c.i * c.i, -1, c.q)
    ensures Congruent((c.i * a) * (c.i * b), -(a * b), c.q)
  {
    hide Congruent;
    Multiplied(c.q, c.i * c.i, -1, a * b);
    CrossOrder(c.i, a, c.i, b);
    assert -1 * (a * b) == -(a * b);
  }

  lemma TurnOnCurve(c: Curve, p: Affine)
    requires IsCurve(c) && OnCurve(c, p)
    ensures OnCurve(c, Turn(c, p))
  {
    var q, t, m := c.q, Turn(c, p), p.x * p.y;
    TurnProduct(c, p.x, p.x);
    TurnProduct(c, p.y, p.y);
    TurnProduct(c, p.y, p.x);
    Swapped(p.y, p.x);
    hide IsPrime;
    assert Congruent(Residue(c.d, t), Residue(c.d, p), q) by {
      hide Congruent;
      CongruentProduct(t.x * t.y, -m, t.x * t.y, -m, q);
      assert -m * -m == m * m;
      Multiplied(q, (t.x * t.y) * (t.x * t.y), m * m, c.d);
      Reflexive(1, q);
      CongruentSum(t.y * t.y, -(p.x * p.x), t.x * t.x, -(p.y * p.y), q);
      CongruentSum(t.y * t.y - t.x * t.x, p.y * p.y - p.x * p.x, 1, 1, q);
      CongruentSum(t.y * t.y - t.x * t.x - 1, p.y * p.y - p.x * p.x - 1,
                   c.d * ((t.x * t.y) * (t.x * t.y)), c.d * (m * m), q);
    }
    CongruentDivides(q, Residue(c.d, t), Residue(c.d, p));
  }

  /** Congruent coordinates. */
  predicate SamePoint(c: Curve, a: Affine, b: Affine)
    requires c.q > 0
  {
    Congruent(a.x, b.x, c.q) && Congruent(a.y, b.y, c.q)
  }

  lemma QuotientCongruent(q: int, n: int, n': int, v: int, v': int)
    requires q >= 2 && Congruent(n, n', q) && v % q == v' % q
    ensures Mod(n * Inverse(v, q), q) == Mod(n' * Inverse(v', q), q)
  {
    assert Inverse(v, q) == Inverse(v', q);
    hide Congruent, Inverse;
    Multiplied(q, n, n', Inverse(v, q));
    SameRemainder(n * Inverse(v, q), n' * Inverse(v, q), q);
    ModIsRemainder(n * Inverse(v, q), q);
    ModIsRemainder(n' * Inverse(v, q), q);
  }

  /** Sums depend on the summands only modulo `q`. */
  lemma AddCongruent(c: Curve, a: Affine, b: Affine, b': Affine)
    requires c.q > 2 && SamePoint(c, b, b')
    ensures AddAffine(c, a, b) == AddAffine(c, a, b')
  {
    hide Congruent, Inverse;
    var q := c.q;
    Multiplied(q, b.x, b'.x, a.x);
    Multiplied(q, b.y, b'.y, a.y);
    Multiplied(q, b.x, b'.x, a.y);
    Multiplied(q, b.y, b'.y, a.x);
    CongruentSum(a.x * b.y, a.x * b'.y, a.y * b.x, a.y * b'.x, q);
    CongruentSum(a.y * b.y, a.y * b'.y, a.x * b.x, a.x * b'.x, q);
    CongruentProduct(a.x * b.x, a.x * b'.x, a.y * b.y, a.y * b'.y, q);
    Multiplied(q, (a.x * b.x) * (a.y * b.y), (a.x * b'.x) * (a.y * b'.y), c.d);
    SameRemainder(Cross(c, a, b), Cross(c, a, b'), q);
    ModIsRemainder(Cross(c, a, b), q);
    ModIsRemainder(Cross(c, a, b'), q);
    var f := Mod(Cross(c, a, b), q);
    hide Mod;
    QuotientCongruent(q, NumX(a, b), NumX(a, b'), 1 + f, 1 + f);
    QuotientCongruent(q, NumY(a, b), NumY(a, b'), 1 - f, 1 - f);
  }

  /** The numerators and the cross term of a sum with a turned point. */
  lemma TurnedParts(c: Curve, a: Affine, b: Affine)
    requires c.q > 2 && Congruent(c.i * c.i, -1, c.q)
    ensures var t := Turn(c, b);
            && NumX(a, t) == c.i * NumY(a, b) && NumY(a, t) == c.i * NumX(a, b)
            && Congruent(Cross(c, a, t), -Cross(c, a, b), c.q)
  {
    var t := Turn(c, b);
    TurnedNumerators(c.i, a.x, a.y, b.x, b.y);
    TurnProduct(c, b.y, b.x);
    hide Congruent;
    Multiplied(c.q, t.x * t.y, -(b.y * b.x), a.x * a.y);
    Multiplied(c.q, (a.x * a.y) * (t.x * t.y), (a.x * a.y) * -(b.y * b.x), c.d);
    CrossOrder(a.x, a.y, t.x, t.y);
    CrossOrder(a.x, a.y, b.x, b.y);
    Swapped(b.y, b.x);
    assert (a.x * a.y) * -(b.x * b.y) == -((a.x * b.x) * (a.y * b.y));
    assert c.d * -((a.x * b.x) * (a.y * b.y)) == -(c.d * ((a.x * b.x) * (a.y * b.y)));
  }

  lemma TurnedNumerators(i: int, x: int, y: int, u: int, v: int)
    ensures x * (i * u) + y * (i * v) == i * (y * v + x * u)
    ensures y * (i * u) + x * (i * v) == i * (x * v + y * u)
  {
  }

  /** Turning a summand turns the sum. */
  lemma TurnAdds(c: Curve, a: Affine, b: Affine)
    requires IsCurve(c) && OnCurve(c, a) && OnCurve(c, b)
    ensures SamePoint(c, AddAffine(c, a, Turn(c, b)), Turn(c, AddAffine(c, a, b)))
  {
    var q, s, t, k := c.q, AddAffine(c, a, b), AddAffine(c, a, Turn(c, b)), Cross(c, a, b);
    var k' := Cross(c, a, Turn(c, b));
    CurvePrime(c);
    TurnOnCurve(c, b);
    Complete(c, a, b);
    Complete(c, a, Turn(c, b));
    AffineSolves(c, a, b);
    AffineSolves(c, a, Turn(c, b));
    TurnedParts(c, a, b);
    hide IsPrime, Congruent, OnCurve, AddAffine, IsCurve, Cross, NumX, NumY;
    Reflexive(1, q);
    CongruentSum(1, 1, k', -k, q);
    TurnedQuotient(q, t.x, 1 + k', s.y, 1 - k, c.i, NumY(a, b));
    TurnedQuotient(q, t.y, 1 - k', s.x, 1 + k, c.i, NumX(a, b));
  }

  lemma TurnedQuotient(q: int, x: int, d: int, y: int, e: int, i: int, n: int)
    requires IsPrime(q) && Congruent(x * d, i * n, q) && Congruent(y * e, n, q) && Congruent(d, e, q) && d % q != 0
    ensures Congruent(x, i * y, q)
  {
    hide IsPrime, Congruent;
    IsPrimeAbove(q);
    Multiplied(q, d, e, y);
    CongruentTransitive(y * d, y * e, n, q);
    Multiplied(q, y * d, n, i);
    CongruentSymmetric(i * (y * d), i * n, q);
    CongruentTransitive(x * d, i * n, i * (y * d), q);
    ProductRegroups(i, y, d);
    Cancel(q, x, i * y, d);
  }

  lemma RootNonzero(c: Curve)
    requires IsCurve(c)
    ensures c.i % c.q != 0
  {
    if c.i % c.q == 0 {
      hide IsPrime;
      DividesProduct(c.q, c.i, c.i);
      DividesDifference(c.q, c.i * c.i, c.i * c.i + 1);
      assert c.i * c.i - (c.i * c.i + 1) == -1;
      DivisionUnique(-1, c.q, -1, c.q - 1);
    }
  }

  lemma AssociatesInY(c: Curve, a: Affine, b: Affine, e: Affine)
    requires IsCurve(c) && OnCurve(c, a) && OnCurve(c, b) && OnCurve(c, e)
    ensures AddAffine(c, AddAffine(c, a, b), e).y == AddAffine(c, a, AddAffine(c, b, e)).y
  {
    var q, t := c.q, Turn(c, e);
    var ab, be := AddAffine(c, a, b), AddAffine(c, b, e);
    var l, r := AddAffine(c, ab, e), AddAffine(c, a, be);
    CurvePrime(c);
    Closed(c, a, b);
    Closed(c, b, e);
    TurnOnCurve(c, e);
    TurnAdds(c, ab, e);
    TurnAdds(c, b, e);
    TurnAdds(c, a, be);
    AssociatesInX(c, a, b, t);
    AddCongruent(c, a, AddAffine(c, b, t), Turn(c, be));
    SumIsReduced(c, ab, e);
    SumIsReduced(c, a, be);
    RootNonzero(c);
    var x := AddAffine(c, ab, t).x;
    assert x == AddAffine(c, a, Turn(c, be)).x;
    hide IsPrime, Congruent, OnCurve, AddAffine, IsCurve;
    assert Congruent(x, c.i * l.y, q) && Congruent(x, c.i * r.y, q);
    CongruentSymmetric(x, c.i * l.y, q);
    CongruentTransitive(c.i * l.y, x, c.i * r.y, q);
    Swapped(c.i, l.y);
    Swapped(c.i, r.y);
    Cancel(q, l.y, r.y, c.i);
    ReducedCongruent(q, l.y, r.y);
  }

  /** Addition of curve points associates. */
  lemma Associates(c: Curve, a: Affine, b: Affine, e: Affine)
    requires IsCurve(c) && OnCurve(c, a) && OnCurve(c, b) && OnCurve(c, e)
    ensures AddAffine(c, AddAffine(c, a, b), e) == AddAffine(c, a, AddAffine(c, b, e))
  {
    hide IsCurve, OnCurve, AddAffine;
    assert c.q > 2 by { CurvePrime(c); }
    AssociatesInX(c, a, b, e);
    AssociatesInY(c, a, b, e);
  }

  /******* Neutral point and inverses *******/

  lemma NeutralOnCurve(c: Curve)
    requires c.q > 2
    ensures OnCurve(c, NEUTRAL) && Reduced(c, NEUTRAL)
  {
    NeutralEncodes(c);
    hide OnCurve;
  }

  lemma NeutralOnTheRight(c: Curve, p: Affine)
    requires c.q > 2 && Reduced(c, p)
    ensures AddAffine(c, p, NEUTRAL) == p
  {
    NeutralAdds(c, p);
    AddCommutes(c, p, NEUTRAL);
  }

  function Negated(p: Affine): Affine {
    Affine(-p.x, p.y)
  }

  lemma NegatedParts(c: Curve, p: Affine)
    ensures NumX(p, Negated(p)) == 0 && NumY(p, Negated(p)) == Form(p)
    ensures Cross(c, p, Negated(p)) == -(c.d * (Area(p) * Area(p))) && Residue(c.d, Negated(p)) == Residue(c.d, p)
  {
    var m := p.x * p.y;
    assert (p.x * -p.x) * (p.y * p.y) == -(m * m)
           by { CrossOrder(p.x, p.x, p.y, p.y); assert p.x * -p.x == -(p.x * p.x); }
    assert c.d * -(m * m) == -(c.d * (m * m));
    assert -p.x * p.y == -m && -m * -m == m * m;
  }

  /** Every curve point has an inverse. */
  lemma NegatedInverts(c: Curve, p: Affine)
    requires IsCurve(c) && OnCurve(c, p)
    ensures OnCurve(c, Negated(p)) && AddAffine(c, p, Negated(p)) == NEUTRAL
  {
    var q, n := c.q, Negated(p);
    NegatedParts(c, p);
    var k, s := Cross(c, p, n), AddAffine(c, p, n);
    CurvePrime(c);
    Complete(c, p, n);
    AffineSolves(c, p, n);
    CurveForm(c, p);
    SumIsReduced(c, p, n);
    hide IsPrime, Congruent, OnCurve, AddAffine, IsCurve, Cross, NumX, NumY, Form, Area;
    var r := c.d * (Area(p) * Area(p));
    CongruentSymmetric(r, Form(p) - 1, q);
    Reflexive(1, q);
    CongruentSum(Form(p) - 1, r, 1, 1, q);
    CongruentTransitive(s.y * (1 - k), Form(p), 1 - k, q);
    assert 0 == 0 * (1 + k) && 1 - k == 1 * (1 - k);
    Cancel(q, s.x, 0, 1 + k);
    Cancel(q, s.y, 1, 1 - k);
    ReducedCongruent(q, s.x, 0);
    ReducedCongruent(q, s.y, 1);
  }

  /******* Multiples *******/

  /** The sum of `n` copies of `p`. */
  function Multiple(c: Curve, p: Affine, n: nat): Affine
    requires c.q > 2
  {
    if n == 0 then NEUTRAL else AddAffine(c, Multiple(c, p, n - 1), p)
  }

  lemma {:induction false} MultipleOnCurve(c: Curve, p: Affine, n: nat)
    requires IsCurve(c) && OnCurve(c, p)
    ensures OnCurve(c, Multiple(c, p, n)) && Reduced(c, Multiple(c, p, n))
  {
    hide IsPrime, OnCurve, AddAffine, Reduced;
    if n == 0 {
      NeutralOnCurve(c);
    } else {
      MultipleOnCurve(c, p, n - 1);
      Closed(c, Multiple(c, p, n - 1), p);
      SumIsReduced(c, Multiple(c, p, n - 1), p);
    }
  }

  /** Multiples add. */
  lemma {:induction false} MultipleSum(c: Curve, p: Affine, m: nat, n: nat)
    requires IsCurve(c) && OnCurve(c, p)
    ensures Multiple(c, p, m + n) == AddAffine(c, Multiple(c, p, m), Multiple(c, p, n))
    decreases n
  {
    hide IsPrime, OnCurve, AddAffine, Reduced;
    MultipleOnCurve(c, p, m);
    if n == 0 {
      NeutralOnTheRight(c, Multiple(c, p, m));
    } else {
      MultipleSum(c, p, m, n - 1);
      MultipleOnCurve(c, p, n - 1);
      Associates(c, Multiple(c, p, m), Multiple(c, p, n - 1), p);
    }
  }

  lemma {:induction false} MultipleOfDouble(c: Curve, p: Affine, n: nat)
    requires IsCurve(c) && OnCurve(c, p)
    ensures Multiple(c, AddAffine(c, p, p), n) == Multiple(c, p, 2 * n)
  {
    hide IsPrime, OnCurve, AddAffine, Reduced;
    if n > 0 {
      var before := Multiple(c, p, 2 * n - 2);
      MultipleOfDouble(c, p, n - 1);
      MultipleOnCurve(c, p, 2 * n - 2);
      Associates(c, before, p, p);
      assert Multiple(c, p, 2 * n - 1) == AddAffine(c, before, p);
    }
  }

  /** Double-and-add adds the multiple to the running sum. */
  lemma {:induction false} TimesIsMultiple(c: Curve, s: Affine, p: Affine, n: nat)
    requires IsCurve(c) && OnCurve(c, s) && Reduced(c, s) && OnCurve(c, p)
    ensures Times(c, s, p, n) == AddAffine(c, s, Multiple(c, p, n))
    decreases n
  {
    hide IsPrime, OnCurve, AddAffine, Reduced;
    if n == 0 {
      NeutralOnTheRight(c, s);
    } else {
      var p2 := AddAffine(c, p, p);
      Closed(c, p, p);
      MultipleOfDouble(c, p, n / 2);
      if n % 2 == 0 {
        TimesIsMultiple(c, s, p2, n / 2);
      } else {
        Closed(c, s, p);
        SumIsReduced(c, s, p);
        TimesIsMultiple(c, AddAffine(c, s, p), p2, n / 2);
        MultipleOnCurve(c, p, n - 1);
        Associates(c, s, p, Multiple(c, p, n - 1));
        AddCommutes(c, p, Multiple(c, p, n - 1));
      }
    }
  }

  /** Double-and-add from the neutral point computes the n-fold sum. */
  lemma ScalarIsMultiple(c: Curve, p: Affine, n: nat)
    requires IsCurve(c) && OnCurve(c, p)
    ensures Times(c, NEUTRAL, p, n) == Multiple(c, p, n)
  {
    hide IsPrime, OnCurve, AddAffine, Reduced;
    NeutralOnCurve(c);
    TimesIsMultiple(c, NEUTRAL, p, n);
    MultipleOnCurve(c, p, n);
    NeutralAdds(c, Multiple(c, p, n));
  }

  /** `_scalar` on any representation of a curve point represents its n-fold sum. */
  lemma ScalarEncodes(c: Curve, e: Extended, p: Affine, n: nat)
    requires IsCurve(c) && Encodes(c, e, p)
    ensures Encodes(c, TimesExtended(c, NEUTRAL_EXTENDED, e, n), Multiple(c, p, n))
  {
    hide Represents, OnCurve, TimesExtended, Times, Multiple;
    NeutralEncodes(c);
    TimesEncodes(c, NEUTRAL_EXTENDED, NEUTRAL, e, p, n);
    ScalarIsMultiple(c, p, n);
  }

  /** Scalars add: the sum of two scalar products is the product with the sum. */
  lemma ScalarSum(c: Curve, p: Affine, m: nat, n: nat)
    requires IsCurve(c) && OnCurve(c, p)
    ensures Times(c, NEUTRAL, p, m + n) == AddAffine(c, Times(c, NEUTRAL, p, m), Times(c, NEUTRAL, p, n))
  {
    hide IsPrime, OnCurve, AddAffine, Times, Multiple;
    assert c.q > 2 by { CurvePrime(c); }
    ScalarIsMultiple(c, p, m);
    ScalarIsMultiple(c, p, n);
    ScalarIsMultiple(c, p, m + n);
    MultipleSum(c, p, m, n);
  }

  /** The equation `_ed25519_verify` tests holds exactly when s B = R + h A for the n-fold sums. */
  lemma EquationOfMultiples(
      c: Curve, base: Extended, g: Affine, r: Extended, u: Affine, key: Extended, a: Affine, s: nat, h: nat)
    requires IsCurve(c) && Encodes(c, base, g) && Encodes(c, r, u) && Encodes(c, key, a)
    ensures EqualExtended(c, TimesExtended(c, NEUTRAL_EXTENDED, base, s),
                          AddExtended(c, r, TimesExtended(c, NEUTRAL_EXTENDED, key, h))) <==>
            Multiple(c, g, s) == AddAffine(c, u, Multiple(c, a, h))
  {
    hide IsPrime, OnCurve, Represents, AddAffine, AddExtended, Times, TimesExtended, Multiple, EqualExtended;
    EquationIsAffine(c, base, g, r, u, key, a, s, h);
    ScalarIsMultiple(c, g, s);
    ScalarIsMultiple(c, a, h);
  }

  /** Both small-order checks reject a point exactly when its eightfold sum is neutral. */
  lemma SmallOrderMeaning(c: Curve, e: Extended, p: Affine)
    requires IsCurve(c) && Encodes(c, e, p)
    ensures Octuple(c, p) == Multiple(c, p, 8)
    ensures EqualExtended(c, TimesExtended(c, NEUTRAL_EXTENDED, e, 8), NEUTRAL_EXTENDED) <==>
            Multiple(c, p, 8) == NEUTRAL
  {
    hide IsPrime, OnCurve, Represents, AddAffine, Times, TimesExtended, Multiple, EqualExtended, Octuple;
    SmallOrderAgrees(c, e, p);
    TimesEight(c, p);
    ScalarIsMultiple(c, p, 8);
  }
}
