/**
 Twisted Edwards addition (section 5.1.4 of RFC 8032) in the affine form of the TypeScript SDK and
 the extended form of the Python SDK, over any curve whose parameters satisfy `IsCurve`.
 */
module Edwards {
  import opened Modular

  /******* Curves and points *******/

  /** The curve -x^2 + y^2 = 1 + d x^2 y^2 modulo `q`, with `i` a square root of -1. */
  datatype Curve = Curve(q: int, d: int, i: int)

  predicate IsRoot(w: int, d: int, q: int)
    requires q > 0
  {
    Congruent(w * w, d, q)
  }

  /** `q` is an odd prime, -1 is a square and `d` is not. */
  ghost predicate IsCurve(c: Curve) {
    && c.q > 2 && IsPrime(c.q)
    && Congruent(c.i * c.i, -1, c.q)
    && forall w :: !IsRoot(w, c.d, c.q)
  }

  datatype Affine = Affine(x: int, y: int)

  datatype Extended = Extended(x: int, y: int, z: int, t: int)

  /** d x1 x2 y1 y2 */
  function Cross(c: Curve, p: Affine, r: Affine): int {
    c.d * ((p.x * r.x) * (p.y * r.y))
  }

  function NumX(p: Affine, r: Affine): int {
    p.x * r.y + p.y * r.x
  }

  function NumY(p: Affine, r: Affine): int {
    p.y * r.y + p.x * r.x
  }

  /** `addEdwards` */
  function AddAffine(c: Curve, p: Affine, r: Affine): Affine
    requires c.q > 2
  {
    var factor := Mod(Cross(c, p, r), c.q);
    Affine(Mod(NumX(p, r) * Inverse(1 + factor, c.q), c.q), Mod(NumY(p, r) * Inverse(1 - factor, c.q), c.q))
  }

  /** `_add` */
  function AddExtended(c: Curve, p: Extended, r: Extended): Extended
    requires c.q > 2
  {
    var a := (p.y - p.x) * (r.y - r.x) % c.q;
    var b := (p.y + p.x) * (r.y + r.x) % c.q;
    var k := 2 * c.d * p.t * r.t % c.q;
    var d := 2 * p.z * r.z % c.q;
    var e, f, g, h := b - a, d - k, d + k, b + a;
    Extended(e * f % c.q, g * h % c.q, f * g % c.q, e * h % c.q)
  }

  /** X = xZ, Y = yZ, T = xyZ modulo `q`. */
  ghost predicate Scales(c: Curve, e: Extended, a: Affine)
    requires c.q > 0
  {
    && Congruent(e.x, a.x * e.z, c.q)
    && Congruent(e.y, a.y * e.z, c.q)
    && Congruent(e.t, (a.x * a.y) * e.z, c.q)
  }

  /** The extended point stands for the affine point. */
  ghost predicate Represents(c: Curve, e: Extended, a: Affine)
    requires c.q > 0
  {
    Scales(c, e, a) && e.z % c.q != 0
  }

  /******* Extended addition refines affine addition *******/

  lemma CrossSums(x: int, y: int, u: int, v: int)
    ensures (y + x) * (v + u) - (y - x) * (v - u) == 2 * (x * v + y * u)
    ensures (y + x) * (v + u) + (y - x) * (v - u) == 2 * (y * v + x * u)
  {
  }

  /** A product of scaled coordinates is the scaled product. */
  lemma ScaledProduct(q: int, a: int, x: int, z: int, b: int, y: int, w: int)
    requires q > 0 && Congruent(a, x * z, q) && Congruent(b, y * w, q)
    ensures Congruent(a * b, (x * y) * (z * w), q)
  {
    CongruentProduct(a, x * z, b, y * w, q);
    assert (x * z) * (y * w) == (x * y) * (z * w);
  }

  lemma Doubled(q: int, a: int, b: int, w: int, x: int, y: int)
    requires q > 0 && Congruent(a, x * w, q) && Congruent(b, y * w, q)
    ensures Congruent(2 * (a + b), (2 * w) * (x + y), q)
  {
    CongruentSum(a, x * w, b, y * w, q);
    Reflexive(2, q);
    CongruentProduct(2, 2, a + b, x * w + y * w, q);
    assert 2 * (x * w + y * w) == (2 * w) * (x + y);
  }

  /** The four intermediate values of `_add`, as multiples of twice the product of the scales. */
  lemma Intermediates(c: Curve, p: Extended, a: Affine, r: Extended, b: Affine)
    requires c.q > 2 && Scales(c, p, a) && Scales(c, r, b)
    ensures var q, w, k := c.q, 2 * (p.z * r.z), Cross(c, a, b);
            var s, t := (p.y - p.x) * (r.y - r.x) % q, (p.y + p.x) * (r.y + r.x) % q;
            && Congruent(t - s, w * NumX(a, b), q)
            && Congruent(t + s, w * NumY(a, b), q)
            && Congruent(2 * c.d * p.t * r.t % q, w * k, q)
            && Congruent(2 * p.z * r.z % q, w, q)
  {
    var q, z := c.q, p.z * r.z;
    var s, t := (p.y - p.x) * (r.y - r.x), (p.y + p.x) * (r.y + r.x);
    CongruentRemainder(s, q);
    CongruentRemainder(t, q);
    CongruentSum(t % q, t, s % q, s, q);
    CrossSums(p.x, p.y, r.x, r.y);
    ScaledProduct(q, p.x, a.x, p.z, r.y, b.y, r.z);
    ScaledProduct(q, p.y, a.y, p.z, r.x, b.x, r.z);
    ScaledProduct(q, p.y, a.y, p.z, r.y, b.y, r.z);
    ScaledProduct(q, p.x, a.x, p.z, r.x, b.x, r.z);
    Doubled(q, p.x * r.y, p.y * r.x, z, a.x * b.y, a.y * b.x);
    Doubled(q, p.y * r.y, p.x * r.x, z, a.y * b.y, a.x * b.x);
    CongruentTransitive(t % q - s % q, t - s, (2 * z) * NumX(a, b), q);
    CongruentTransitive(t % q + s % q, t + s, (2 * z) * NumY(a, b), q);
    CrossTerm(c, p, a, r, b);
    CongruentRemainder(2 * p.z * r.z, q);
    assert 2 * p.z * r.z == 2 * z;
  }

  lemma CrossTerm(c: Curve, p: Extended, a: Affine, r: Extended, b: Affine)
    requires c.q > 2 && Scales(c, p, a) && Scales(c, r, b)
    ensures Congruent(2 * c.d * p.t * r.t % c.q, (2 * (p.z * r.z)) * Cross(c, a, b), c.q)
  {
    var q, z := c.q, p.z * r.z;
    ScaledProduct(q, p.t, a.x * a.y, p.z, r.t, b.x * b.y, r.z);
    Reflexive(2 * c.d, q);
    CongruentProduct(2 * c.d, 2 * c.d, p.t * r.t, ((a.x * a.y) * (b.x * b.y)) * z, q);
    CrossRegroups(c.d, a.x, a.y, b.x, b.y, z);
    ThreeFactors(2 * c.d, p.t, r.t);
    CongruentRemainder(2 * c.d * p.t * r.t, q);
    CongruentTransitive(2 * c.d * p.t * r.t % q, 2 * c.d * p.t * r.t, (2 * z) * Cross(c, a, b), q);
  }

  lemma ThreeFactors(a: int, b: int, c: int)
    ensures a * b * c == a * (b * c)
  {
  }

  lemma CrossRegroups(d: int, x: int, y: int, u: int, v: int, z: int)
    ensures 2 * d * (((x * y) * (u * v)) * z) == (2 * z) * (d * ((x * u) * (y * v)))
  {
    assert (x * y) * (u * v) == (x * u) * (y * v);
    var m := (x * u) * (y * v);
    assert 2 * d * (m * z) == (2 * z) * (d * m);
  }

  lemma ProductRemainder(q: int, a: int, x: int, b: int, y: int)
    requires q > 0 && Congruent(a, x, q) && Congruent(b, y, q)
    ensures Congruent(a * b % q, x * y, q)
  {
    hide Congruent;
    CongruentProduct(a, x, b, y, q);
    CongruentRemainder(a * b, q);
    CongruentTransitive(a * b % q, a * b, x * y, q);
  }

  lemma Multiplied(q: int, a: int, b: int, s: int)
    requires q > 0 && Congruent(a, b, q)
    ensures Congruent(a * s, b * s, q) && Congruent(s * a, s * b, q)
  {
    hide Congruent;
    Reflexive(s, q);
    CongruentProduct(a, b, s, s, q);
    CongruentProduct(s, s, a, b, q);
  }

  lemma ScalesRegroup(w: int, n: int, l: int, m: int)
    ensures ((w * n) * (w * l)) * m == n * ((w * l) * (w * m))
  {
    assert ((w * n) * (w * l)) * m == (w * n) * ((w * l) * m);
    assert (w * n) * ((w * l) * m) == n * (w * ((w * l) * m));
    assert w * ((w * l) * m) == (w * l) * (w * m);
  }

  /** Products of scaled values agree once the denominators are multiplied out. */
  lemma Cleared(q: int, e: int, f: int, g: int, w: int, n: int, l: int, m: int)
    requires q > 0 && Congruent(e, w * n, q) && Congruent(f, w * l, q) && Congruent(g, w * m, q)
    ensures Congruent((e * f % q) * m, n * (f * g % q), q)
  {
    hide Congruent;
    var x, z := e * f % q, f * g % q;
    var u, v := (w * n) * (w * l), (w * l) * (w * m);
    ProductRemainder(q, e, w * n, f, w * l);
    ProductRemainder(q, f, w * l, g, w * m);
    Multiplied(q, x, u, m);
    Multiplied(q, z, v, n);
    ScalesRegroup(w, n, l, m);
    CongruentSymmetric(n * z, n * v, q);
    CongruentTransitive(x * m, u * m, n * z, q);
  }

  /** The coordinates of a sum keep T Z = X Y, whatever the inputs. */
  lemma SumIsExtended(c: Curve, p: Extended, r: Extended)
    requires c.q > 2
    ensures var s := AddExtended(c, p, r); Congruent(s.t * s.z, s.x * s.y, c.q)
  {
    var q := c.q;
    var a, b := (p.y - p.x) * (r.y - r.x) % q, (p.y + p.x) * (r.y + r.x) % q;
    var k, d := 2 * c.d * p.t * r.t % q, 2 * p.z * r.z % q;
    PairsRegroup(q, b - a, d - k, d + k, b + a);
  }

  lemma PairsRegroup(q: int, e: int, f: int, g: int, h: int)
    requires q > 0
    ensures Congruent((e * h % q) * (f * g % q), (e * f % q) * (g * h % q), q)
  {
    hide Congruent;
    CongruentRemainder(e * h, q);
    CongruentRemainder(f * g, q);
    CongruentRemainder(e * f, q);
    CongruentRemainder(g * h, q);
    CongruentProduct(e * h % q, e * h, f * g % q, f * g, q);
    CongruentProduct(e * f % q, e * f, g * h % q, g * h, q);
    FourRegroup(e, f, g, h);
    CongruentSymmetric((e * f % q) * (g * h % q), (e * f) * (g * h), q);
    CongruentTransitive((e * h % q) * (f * g % q), (e * h) * (f * g), (e * f % q) * (g * h % q), q);
  }

  lemma FourRegroup(e: int, f: int, g: int, h: int)
    ensures (e * h) * (f * g) == (e * f) * (g * h)
  {
  }

  /** The third coordinate is the product of the two scaled denominators. */
  lemma Denominators(q: int, d: int, k: int, w: int, n: int)
    requires q > 0 && Congruent(d, w, q) && Congruent(k, w * n, q)
    ensures Congruent(d - k, w * (1 - n), q) && Congruent(d + k, w * (1 + n), q)
  {
    hide Congruent;
    CongruentSum(d, w, k, w * n, q);
    assert w * (1 - n) == w - w * n && w * (1 + n) == w + w * n;
  }

  lemma FromIntermediates(q: int, s: int, t: int, u: int, v: int, w: int, nx: int, ny: int, k: int)
    requires q > 0 && Congruent(t - s, w * nx, q) && Congruent(t + s, w * ny, q)
    requires Congruent(u, w * k, q) && Congruent(v, w, q)
    ensures var e, f, g, h := t - s, v - u, v + u, t + s;
            && Congruent((e * f % q) * (1 + k), nx * (f * g % q), q)
            && Congruent((g * h % q) * (1 - k), ny * (f * g % q), q)
            && Congruent(f * g % q, (w * (1 - k)) * (w * (1 + k)), q)
  {
    hide Congruent;
    var e, f, g, h := t - s, v - u, v + u, t + s;
    Denominators(q, v, u, w, k);
    Cleared(q, e, f, g, w, nx, 1 - k, 1 + k);
    Cleared(q, h, g, f, w, ny, 1 + k, 1 - k);
    ProductRemainder(q, f, w * (1 - k), g, w * (1 + k));
    Swapped(h, g);
    Swapped(f, g);
  }

  /** Extended addition agrees with the affine formula after cross-multiplying denominators. */
  lemma CrossMultiplied(c: Curve, p: Extended, a: Affine, r: Extended, b: Affine)
    requires c.q > 2 && Scales(c, p, a) && Scales(c, r, b)
    ensures var s, k, w := AddExtended(c, p, r), Cross(c, a, b), 2 * (p.z * r.z);
            && Congruent(s.x * (1 + k), NumX(a, b) * s.z, c.q)
            && Congruent(s.y * (1 - k), NumY(a, b) * s.z, c.q)
            && Congruent(s.z, (w * (1 - k)) * (w * (1 + k)), c.q)
  {
    hide Scales, Congruent, Cross, NumX, NumY;
    Intermediates(c, p, a, r, b);
    var q := c.q;
    FromIntermediates(q, (p.y - p.x) * (r.y - r.x) % q, (p.y + p.x) * (r.y + r.x) % q, 2 * c.d * p.t * r.t % q,
                      2 * p.z * r.z % q, 2 * (p.z * r.z), NumX(a, b), NumY(a, b), Cross(c, a, b));
  }

  /******* The represented sum *******/

  /** A factor the prime does not divide cancels. */
  lemma Cancel(q: int, a: int, b: int, s: int)
    requires IsPrime(q) && s % q != 0 && Congruent(a * s, b * s, q)
    ensures Congruent(a, b, q)
  {
    assert a * s - b * s == s * (a - b);
    Euclid(q, s, a - b);
  }

  lemma NonzeroProduct(q: int, a: int, b: int)
    requires IsPrime(q) && a % q != 0 && b % q != 0
    ensures (a * b) % q != 0
  {
    if (a * b) % q == 0 {
      Euclid(q, a, b);
    }
  }

  /** Dividing by `den` and multiplying by it again. */
  lemma QuotientTimes(q: int, n: int, den: int)
    requires IsPrime(q) && den % q != 0
    ensures Congruent(Mod(n * Inverse(den, q), q) * den, n, q)
  {
    hide Congruent, Inverse, IsPrime;
    assert q >= 2 by { IsPrimeAbove(q); }
    var v := Inverse(den, q);
    InverseInverts(den, q);
    Multiplied(q, den * v, 1, n);
    ModIsRemainder(n * v, q);
    CongruentRemainder(n * v, q);
    Multiplied(q, n * v % q, n * v, den);
    assert (n * v) * den == n * (den * v) by { QuotientRegroups(n, v, den); }
    CongruentTransitive((n * v % q) * den, n * (den * v), n, q);
  }

  lemma IsPrimeAbove(q: int)
    requires IsPrime(q)
    ensures q >= 2
  {
  }

  lemma QuotientRegroups(n: int, v: int, den: int)
    ensures (n * v) * den == n * (den * v)
  {
  }

  /** The affine sum solves x (1 + k) = NumX and y (1 - k) = NumY. */
  lemma AffineSolves(c: Curve, a: Affine, b: Affine)
    requires c.q > 2 && IsPrime(c.q) && Defined(c, a, b)
    ensures var s, k := AddAffine(c, a, b), Cross(c, a, b);
            && Congruent(s.x * (1 + k), NumX(a, b), c.q)
            && Congruent(s.y * (1 - k), NumY(a, b), c.q)
  {
    hide IsPrime, Congruent, Cross, NumX, NumY, Inverse;
    var q, k := c.q, Cross(c, a, b);
    var f := Mod(k, q);
    var s := AddAffine(c, a, b);
    ModIsRemainder(k, q);
    CongruentRemainder(k, q);
    Reflexive(1, q);
    CongruentSum(1, 1, f, k, q);
    SameRemainder(1 + f, 1 + k, q);
    SameRemainder(1 - f, 1 - k, q);
    QuotientTimes(q, NumX(a, b), 1 + f);
    QuotientTimes(q, NumY(a, b), 1 - f);
    CongruentSymmetric(1 + f, 1 + k, q);
    CongruentSymmetric(1 - f, 1 - k, q);
    Multiplied(q, 1 + k, 1 + f, s.x);
    Multiplied(q, 1 - k, 1 - f, s.y);
    CongruentTransitive(s.x * (1 + k), s.x * (1 + f), NumX(a, b), q);
    CongruentTransitive(s.y * (1 - k), s.y * (1 - f), NumY(a, b), q);
  }

  /** Neither denominator of the affine formula vanishes. */
  predicate Defined(c: Curve, a: Affine, b: Affine)
    requires c.q > 0
  {
    (1 + Cross(c, a, b)) % c.q != 0 && (1 - Cross(c, a, b)) % c.q != 0
  }

  /** A coordinate with the affine denominator cleared is the affine coordinate times the scale. */
  lemma Coordinate(q: int, e: int, x: int, n: int, den: int, z: int)
    requires IsPrime(q) && den % q != 0 && Congruent(e * den, n * z, q) && Congruent(x * den, n, q)
    ensures Congruent(e, x * z, q)
  {
    hide IsPrime, Congruent;
    assert q >= 2 by { IsPrimeAbove(q); }
    Multiplied(q, x * den, n, z);
    assert (x * z) * den == (x * den) * z by { ScaleLast(x, z, den); }
    CongruentSymmetric((x * den) * z, n * z, q);
    CongruentTransitive(e * den, n * z, (x * z) * den, q);
    Cancel(q, e, x * z, den);
  }

  lemma ScaleLast(x: int, z: int, den: int)
    ensures (x * z) * den == (x * den) * z
  {
  }

  /** The scale of a sum is not zero. */
  lemma ScaleNonzero(q: int, z: int, w: int, s: int, l: int, m: int)
    requires IsPrime(q) && q > 2 && z % q != 0 && w % q != 0 && l % q != 0 && m % q != 0
    requires Congruent(s, ((2 * (z * w)) * l) * ((2 * (z * w)) * m), q)
    ensures s % q != 0
  {
    hide IsPrime;
    var v := 2 * (z * w);
    assert 2 % q == 2;
    NonzeroProduct(q, z, w);
    NonzeroProduct(q, 2, z * w);
    NonzeroProduct(q, v, l);
    NonzeroProduct(q, v, m);
    NonzeroProduct(q, v * l, v * m);
    SameRemainder(s, (v * l) * (v * m), q);
  }

  /** The fourth coordinate follows from T Z = X Y. */
  lemma FourthCoordinate(q: int, e: Extended, a: Affine)
    requires IsPrime(q) && e.z % q != 0 && Congruent(e.t * e.z, e.x * e.y, q)
    requires Congruent(e.x, a.x * e.z, q) && Congruent(e.y, a.y * e.z, q)
    ensures Congruent(e.t, (a.x * a.y) * e.z, q)
  {
    hide IsPrime, Congruent;
    assert q >= 2 by { IsPrimeAbove(q); }
    CongruentProduct(e.x, a.x * e.z, e.y, a.y * e.z, q);
    SquareRegroups(a.x, a.y, e.z);
    CongruentTransitive(e.t * e.z, e.x * e.y, ((a.x * a.y) * e.z) * e.z, q);
    Cancel(q, e.t, (a.x * a.y) * e.z, e.z);
  }

  lemma SquareRegroups(x: int, y: int, z: int)
    ensures (x * z) * (y * z) == ((x * y) * z) * z
  {
    assert (x * z) * (y * z) == (x * y) * (z * z);
  }

  /** Where the affine formula is defined, the extended sum represents the affine sum. */
  lemma AddRepresents(c: Curve, p: Extended, a: Affine, r: Extended, b: Affine)
    requires c.q > 2 && IsPrime(c.q) && Represents(c, p, a) && Represents(c, r, b) && Defined(c, a, b)
    ensures Represents(c, AddExtended(c, p, r), AddAffine(c, a, b))
  {
    hide IsPrime, Congruent, Cross, NumX, NumY, AddExtended, AddAffine;
    var q, k := c.q, Cross(c, a, b);
    var e, s := AddExtended(c, p, r), AddAffine(c, a, b);
    CrossMultiplied(c, p, a, r, b);
    AffineSolves(c, a, b);
    SumIsExtended(c, p, r);
    Coordinate(q, e.x, s.x, NumX(a, b), 1 + k, e.z);
    Coordinate(q, e.y, s.y, NumY(a, b), 1 - k, e.z);
    ScaleNonzero(q, p.z, r.z, e.z, 1 - k, 1 + k);
    FourthCoordinate(q, e, s);
  }

  /******* The addition law is complete *******/

  /** y^2 - x^2 - 1 - d x^2 y^2, zero modulo `q` exactly on the curve. */
  function Residue(d: int, a: Affine): int {
    a.y * a.y - a.x * a.x - 1 - d * ((a.x * a.y) * (a.x * a.y))
  }

  predicate OnCurve(c: Curve, a: Affine)
    requires c.q > 0
  {
    Divides(c.q, Residue(c.d, a))
  }

  lemma DividesSum(q: int, a: int, b: int)
    requires q > 0 && Divides(q, a) && Divides(q, b)
    ensures Divides(q, a + b)
  {
    CongruentSum(a, 0, b, 0, q);
  }

  lemma SquareOfSum(j: int, x: int, e: int, y: int)
    ensures (j * x + e * y) * (j * x + e * y) == (j * j) * (x * x) + 2 * ((j * e) * (x * y)) + (e * e) * (y * y)
  {
    var a, b := j * x, e * y;
    assert (a + b) * (a + b) == a * a + 2 * (a * b) + b * b;
    assert a * a == (j * j) * (x * x);
    assert b * b == (e * e) * (y * y);
    assert a * b == (j * e) * (x * y);
  }

  /**
   With m = x1 y1, n = x2 y2 and k = d m n, the difference of a square and `d` times a square is a
   combination of numbers that vanish when both points are on the curve, j^2 = -1 and k = e = +-1.
   */
  lemma SquareDifference(d: int, a: Affine, b: Affine, j: int, e: int)
    requires e == 1 || e == -1
    ensures var m, u, v := a.x * a.y, j * a.x + e * a.y, j * b.x + b.y;
            var k := d * (m * (b.x * b.y));
            u * u - d * ((m * v) * (m * v)) ==
            (j * j + 1) * (a.x * a.x - (d * (m * m)) * (b.x * b.x)) + Residue(d, a) - (d * (m * m)) * Residue(d, b)
            + (e - k) * (e + k + 2 * (j * m))
  {
    var m, n, u, v := a.x * a.y, b.x * b.y, j * a.x + e * a.y, j * b.x + b.y;
    var k, g, i := d * (m * n), d * (m * m), j * j;
    SquareOfSum(j, a.x, e, a.y);
    SquareOfSum(j, b.x, 1, b.y);
    assert e * e == 1;
    assert u * u == i * (a.x * a.x) + 2 * ((j * e) * m) + a.y * a.y;
    assert v * v == i * (b.x * b.x) + 2 * (j * n) + b.y * b.y;
    FactorSquare(d, m, v);
    KTerms(d, m, n, j, e);
    SquareDifferenceSum(a.x * a.x, a.y * a.y, b.x * b.x, b.y * b.y, i, g, j * e, j, m, n, d * (n * n), k, e);
  }

  lemma FactorSquare(d: int, m: int, v: int)
    ensures d * ((m * v) * (m * v)) == (d * (m * m)) * (v * v)
  {
    assert (m * v) * (m * v) == (m * m) * (v * v);
  }

  lemma KTerms(d: int, m: int, n: int, j: int, e: int)
    requires e == 1 || e == -1
    ensures var k, g := d * (m * n), d * (m * m);
            && g * (d * (n * n)) == k * k && g * (j * n) == k * (j * m)
            && (e - k) * (e + k + 2 * (j * m)) == 1 - k * k + 2 * ((j * e) * m) - 2 * (k * (j * m))
  {
    KSquared(d, m, n);
    KTimes(d, m, n, j);
    KDifference(d * (m * n), e, j, m);
  }

  lemma KSquared(d: int, m: int, n: int)
    ensures (d * (m * m)) * (d * (n * n)) == (d * (m * n)) * (d * (m * n))
  {
    assert (d * (m * m)) * (d * (n * n)) == (d * d) * ((m * m) * (n * n));
    assert (d * (m * n)) * (d * (m * n)) == (d * d) * ((m * n) * (m * n));
    assert (m * n) * (m * n) == (m * m) * (n * n);
  }

  lemma KTimes(d: int, m: int, n: int, j: int)
    ensures (d * (m * m)) * (j * n) == (d * (m * n)) * (j * m)
  {
    assert (m * m) * (j * n) == (m * n) * (j * m);
  }

  lemma KDifference(k: int, e: int, j: int, m: int)
    requires e == 1 || e == -1
    ensures (e - k) * (e + k + 2 * (j * m)) == 1 - k * k + 2 * ((j * e) * m) - 2 * (k * (j * m))
  {
    var t := j * m;
    assert e * t == (j * e) * m;
    assert (e - k) * (e + k + 2 * t) == e * e - k * k + 2 * (e * t) - 2 * (k * t);
  }

  lemma SquareDifferenceSum(
      x: int, y: int, z: int, w: int, i: int, g: int, je: int, j: int, m: int, n: int, h: int, k: int, e: int)
    requires g * h == k * k && g * (j * n) == k * (j * m)
    requires (e - k) * (e + k + 2 * (j * m)) == 1 - k * k + 2 * (je * m) - 2 * (k * (j * m))
    ensures i * x + 2 * (je * m) + y - g * (i * z + 2 * (j * n) + w) ==
            (i + 1) * (x - g * z) + (y - x - 1 - g) - g * (w - z - 1 - h) + (e - k) * (e + k + 2 * (j * m))
  {
    assert g * (i * z + 2 * (j * n) + w) == g * (i * z) + 2 * (g * (j * n)) + g * w;
    assert g * (w - z - 1 - h) == g * w - g * z - g - g * h;
    assert (i + 1) * (x - g * z) == i * x - i * (g * z) + x - g * z;
    assert i * (g * z) == g * (i * z);
  }

  /** On the curve, a product k = +-1 would make `d` times a square a square. */
  lemma UnitMakesSquare(c: Curve, a: Affine, b: Affine, j: int, e: int)
    requires c.q > 2 && OnCurve(c, a) && OnCurve(c, b) && Divides(c.q, j * j + 1)
    requires (e == 1 || e == -1) && Divides(c.q, e - c.d * ((a.x * a.y) * (b.x * b.y)))
    ensures var u, t := j * a.x + e * a.y, (a.x * a.y) * (j * b.x + b.y); Divides(c.q, u * u - c.d * (t * t))
  {
    hide Divides, Residue;
    var q, m := c.q, a.x * a.y;
    var g, k := c.d * (m * m), c.d * (m * (b.x * b.y));
    SquareDifference(c.d, a, b, j, e);
    var f1, f2, f3 := a.x * a.x - g * (b.x * b.x), Residue(c.d, b), e + k + 2 * (j * m);
    DividesProduct(q, j * j + 1, f1);
    DividesProduct(q, f2, g);
    Swapped(f2, g);
    DividesProduct(q, e - k, f3);
    DividesSum(q, (j * j + 1) * f1, Residue(c.d, a));
    DividesDifference(q, (j * j + 1) * f1 + Residue(c.d, a), g * f2);
    DividesSum(q, (j * j + 1) * f1 + Residue(c.d, a) - g * f2, (e - k) * f3);
  }

  lemma RootOfQuotient(q: int, d: int, u: int, t: int)
    requires IsPrime(q) && t % q != 0 && Congruent(u * u, d * (t * t), q)
    ensures IsRoot(u * Inverse(t, q), d, q)
  {
    hide Inverse, IsPrime, Congruent;
    IsPrimeAbove(q);
    var r := Inverse(t, q);
    InverseInverts(t, q);
    Multiplied(q, u * u, d * (t * t), r * r);
    CongruentProduct(t * r, 1, t * r, 1, q);
    Multiplied(q, (t * r) * (t * r), 1, d);
    RootRegroups(d, t, r, u);
    CongruentTransitive((u * r) * (u * r), d * ((t * r) * (t * r)), d, q);
  }

  /** `d` times a nonzero square is never a square. */
  lemma NotSquare(c: Curve, u: int, t: int)
    requires IsCurve(c) && t % c.q != 0
    ensures !Divides(c.q, u * u - c.d * (t * t))
  {
    hide IsPrime;
    if Divides(c.q, u * u - c.d * (t * t)) {
      RootOfQuotient(c.q, c.d, u, t);
    }
  }

  lemma RootRegroups(d: int, t: int, r: int, u: int)
    ensures (u * u) * (r * r) == (u * r) * (u * r)
    ensures (d * (t * t)) * (r * r) == d * ((t * r) * (t * r))
  {
    assert (t * t) * (r * r) == (t * r) * (t * r);
  }

  lemma UnitNotDivisible(q: int, e: int, k: int)
    requires q > 2 && (e == 1 || e == -1) && Divides(q, e - k)
    ensures !Divides(q, k)
  {
    if Divides(q, k) {
      DividesSum(q, e - k, k);
      DivisionUnique(-1, q, -1, q - 1);
      assert false;
    }
  }

  /** One of y + ix and y - ix is not zero when y is not. */
  lemma OneRootSurvives(q: int, i: int, x: int, y: int)
    requires IsPrime(q) && q > 2 && y % q != 0
    ensures (i * x + y) % q != 0 || (-i * x + y) % q != 0
  {
    var u, v := i * x + y, -i * x + y;
    if u % q == 0 && v % q == 0 {
      DividesSum(q, u, v);
      assert -i * x == -(i * x);
      assert u + v == 2 * y;
      assert 2 % q == 2;
      Euclid(q, 2, y);
      assert false;
    }
  }

  /** d x1 x2 y1 y2 is never +-1 on the curve. */
  lemma CrossNotUnit(c: Curve, a: Affine, b: Affine, e: int)
    requires IsCurve(c) && OnCurve(c, a) && OnCurve(c, b) && (e == 1 || e == -1)
    ensures !Divides(c.q, e - Cross(c, a, b))
  {
    hide Residue;
    var q, m, n := c.q, a.x * a.y, b.x * b.y;
    var k := c.d * (m * n);
    assert k == Cross(c, a, b) by { CrossOrder(a.x, a.y, b.x, b.y); }
    if Divides(q, e - k) {
      UnitNotDivisible(q, e, k);
      if Divides(q, m) || Divides(q, b.y) {
        FactorDivides(q, c.d, m, b.x, b.y);
        assert false;
      }
      OneRootSurvives(q, c.i, b.x, b.y);
      var j := if (c.i * b.x + b.y) % q != 0 then c.i else -c.i;
      assert j * j == c.i * c.i;
      var t := m * (j * b.x + b.y);
      NonzeroProduct(q, m, j * b.x + b.y);
      UnitMakesSquare(c, a, b, j, e);
      NotSquare(c, j * a.x + e * a.y, t);
      assert false;
    }
  }

  lemma CrossOrder(x: int, y: int, u: int, v: int)
    ensures (x * y) * (u * v) == (x * u) * (y * v)
  {
  }

  lemma FactorDivides(q: int, d: int, m: int, x: int, y: int)
    requires q > 0 && (Divides(q, m) || Divides(q, y))
    ensures Divides(q, d * (m * (x * y)))
  {
    if Divides(q, m) {
      DividesProduct(q, m, d * (x * y));
      assert m * (d * (x * y)) == d * (m * (x * y));
    } else {
      DividesProduct(q, y, d * (m * x));
      assert y * (d * (m * x)) == d * (m * (x * y));
    }
  }

  /** The affine formula never divides by zero on the curve. */
  lemma Complete(c: Curve, a: Affine, b: Affine)
    requires IsCurve(c) && OnCurve(c, a) && OnCurve(c, b)
    ensures Defined(c, a, b)
  {
    hide Residue, Cross, OnCurve;
    CrossNotUnit(c, a, b, 1);
    CrossNotUnit(c, a, b, -1);
    var q, k := c.q, Cross(c, a, b);
    if Divides(q, 1 + k) {
      DividesDifference(q, 0, 1 + k);
    }
  }

  /******* The curve is closed under addition *******/

  /** The residue of (u/p, v/m), with the denominators multiplied out. */
  function ClearedResidue(d: int, u2: int, v2: int, p2: int, m2: int): int {
    v2 * p2 - u2 * m2 - p2 * m2 - d * (u2 * v2)
  }

  function Square(a: int): int {
    a * a
  }

  lemma SquareProduct(a: int, b: int)
    ensures Square(a * b) == Square(a) * Square(b)
  {
  }

  lemma DistributeResidue(d: int, s: int, x: int, y: int)
    ensures s * (y - x - 1 - d * (x * y)) == y * s - x * s - s - d * (s * (x * y))
  {
    assert s * (d * (x * y)) == d * (s * (x * y));
  }

  lemma ResidueTimes(d: int, a: Affine, p: int, m: int)
    ensures Square(p * m) * Residue(d, a) ==
            ClearedResidue(d, Square(a.x * p), Square(a.y * m), Square(p), Square(m))
  {
    var x, y, s, t := Square(a.x), Square(a.y), Square(p), Square(m);
    assert Residue(d, a) == y - x - 1 - d * (x * y) by { SquareProduct(a.x, a.y); }
    SquareProduct(p, m);
    SquareProduct(a.x, p);
    SquareProduct(a.y, m);
    hide Square, Residue;
    DistributeResidue(d, s * t, x, y);
    assert y * (s * t) == (y * t) * s;
    assert x * (s * t) == (x * s) * t;
    assert (s * t) * (x * y) == (x * s) * (y * t)
           by { FourRegroup(x, s, t, y); CrossOrder(x, s, y, t); Swapped(x * y, s * t); }
  }

  lemma UnitSquares(k: int)
    ensures Square(1 + k) == 1 + 2 * k + k * k && Square(1 - k) == 1 - 2 * k + k * k
    ensures Square(1 + k) * Square(1 - k) == Square(1 - k * k)
  {
    SquareProduct(1 + k, 1 - k);
    assert (1 + k) * (1 - k) == 1 - k * k;
  }

  /** The part of the sum identity that does not look inside the squares. */
  lemma OuterIdentity(d: int, u: int, v: int, n: int)
    ensures var k := d * n;
            ClearedResidue(d, u + 2 * n, v + 2 * n, Square(1 + k), Square(1 - k)) ==
            (v - u) * (1 + k * k) + 4 * (k * n) - d * (u * v) - Square(1 - k * k)
  {
    hide Square;
    var k := d * n;
    var h := k * k;
    UnitSquares(k);
    OuterScale(v, n, k, h);
    OuterScale(u, n, -k, h);
    assert u * -k == -(u * k) && n * -k == -(n * k);
    OuterProduct(d, u, v, n);
    OuterDifference(u, v, h);
    Swapped(k, n);
  }

  lemma OuterDifference(u: int, v: int, h: int)
    ensures (v - u) * (1 + h) == v + v * h - u - u * h
  {
  }

  lemma OuterScale(v: int, n: int, k: int, h: int)
    ensures (v + 2 * n) * (1 + 2 * k + h) == v + 2 * (v * k) + v * h + 2 * n + 4 * (n * k) + 2 * (n * h)
  {
  }

  lemma OuterProduct(d: int, u: int, v: int, n: int)
    ensures d * ((u + 2 * n) * (v + 2 * n)) == d * (u * v) + 2 * (u * (d * n)) + 2 * (v * (d * n)) + 4 * (n * (d * n))
  {
    assert (u + 2 * n) * (v + 2 * n) == u * v + 2 * (n * u) + 2 * (n * v) + 4 * (n * n);
    assert d * (n * u) == u * (d * n);
    assert d * (n * v) == v * (d * n);
    assert d * (n * n) == n * (d * n);
  }

  lemma FourProducts(p: int, q: int, r: int, s: int)
    ensures (p + q) * (r + s) == p * r + p * s + q * r + q * s
  {
  }

  lemma SquareOfDifference(g: int, a: int, b: int)
    ensures g * ((b - a) * (b - a)) == g * (b * b) + g * (a * a) - 2 * (g * (a * b))
  {
    assert (b - a) * (b - a) == b * b - 2 * (a * b) + a * a;
  }

  lemma InnerProducts(a: int, b: int, c: int, e: int)
    ensures (a * e) * (b * e) == (a * b) * (e * e) && (a * e) * (a * c) == (c * e) * (a * a)
    ensures (b * c) * (b * e) == (c * e) * (b * b) && (b * c) * (a * c) == (a * b) * (c * c)
  {
    CrossOrder(a, e, b, e);
    CrossOrder(a, e, a, c);
    CrossOrder(b, c, b, e);
    CrossOrder(b, c, a, c);
    Swapped(a * a, e * c);
    Swapped(b * b, c * e);
    Swapped(e, c);
    Swapped(b, a);
  }

  /** The part of the sum identity that looks inside the squares a, b, c, e. */
  lemma InnerIdentity(a: int, b: int, c: int, e: int)
    ensures (b * e + a * c) - (a * e + b * c) == (b - a) * (e - c)
    ensures (a * e + b * c) * (b * e + a * c) ==
            (a * b) * ((e - c) * (e - c)) + (c * e) * ((b - a) * (b - a)) + 4 * ((a * b) * (c * e))
  {
    FourProducts(b, -a, e, -c);
    InnerSquares(a, b, c, e);
  }

  lemma InnerSquares(a: int, b: int, c: int, e: int)
    ensures (a * e + b * c) * (b * e + a * c) ==
            (a * b) * ((e - c) * (e - c)) + (c * e) * ((b - a) * (b - a)) + 4 * ((a * b) * (c * e))
  {
    FourProducts(a * e, b * c, b * e, a * c);
    InnerProducts(a, b, c, e);
    SquareOfDifference(a * b, c, e);
    SquareOfDifference(c * e, a, b);
    Swapped(a * b, c * e);
  }

  /** Both parts together factor. */
  lemma FactoredIdentity(d: int, s: int, t: int, f: int, g: int, n: int)
    requires n * n == f * g
    ensures var k := d * n;
            (s * t) * (1 + k * k) + 4 * (k * n) - d * (f * (t * t) + g * (s * s) + 4 * (f * g)) ==
            (s - t * (d * f)) * (t - s * (d * g))
  {
    var k := d * n;
    assert k * n == d * (f * g);
    assert k * k == (d * d) * (f * g) by { KTwice(d, n); }
    assert d * (f * (t * t) + g * (s * s) + 4 * (f * g)) == d * (f * (t * t)) + d * (g * (s * s)) + 4 * (d * (f * g));
    FactoredProduct(d, s, t, f, g);
    assert (s * t) * (1 + k * k) == s * t + (s * t) * (k * k);
  }

  lemma KTwice(d: int, n: int)
    ensures (d * n) * (d * n) == (d * d) * (n * n)
  {
  }

  lemma FactoredProduct(d: int, s: int, t: int, f: int, g: int)
    ensures (s - t * (d * f)) * (t - s * (d * g)) ==
            s * t - d * (g * (s * s)) - d * (f * (t * t)) + (s * t) * ((d * d) * (f * g))
  {
    var x, y := d * f, d * g;
    assert (s - t * x) * (t - s * y) == s * t - s * (s * y) - (t * x) * t + (t * x) * (s * y);
    assert s * (s * y) == d * (g * (s * s));
    assert (t * x) * t == d * (f * (t * t));
    assert (t * x) * (s * y) == (s * t) * (x * y);
    assert x * y == (d * d) * (f * g);
  }

  lemma SquaredNumerators(p: Affine, r: Affine)
    ensures var a, b, c, e := Square(p.x), Square(p.y), Square(r.x), Square(r.y);
            var n := (p.x * r.x) * (p.y * r.y);
            && Square(NumX(p, r)) == (a * e + b * c) + 2 * n
            && Square(NumY(p, r)) == (b * e + a * c) + 2 * n
            && n * n == (a * b) * (c * e)
  {
    var a, b, c, e := Square(p.x), Square(p.y), Square(r.x), Square(r.y);
    SquareOfTerms(p.x * r.y, p.y * r.x);
    SquareOfTerms(p.y * r.y, p.x * r.x);
    SquareProduct(p.x, r.y);
    SquareProduct(p.y, r.x);
    SquareProduct(p.y, r.y);
    SquareProduct(p.x, r.x);
    SquareProduct(p.x * r.x, p.y * r.y);
    hide Square;
    CrossOrder(p.x, r.y, p.y, r.x);
    Swapped(r.y, r.x);
    CrossOrder(p.x, r.x, p.y, r.y);
    Swapped(p.y * r.y, p.x * r.x);
    assert (a * c) * (b * e) == (a * b) * (c * e) by { CrossOrder(a, c, b, e); }
    assert Square((p.x * r.x) * (p.y * r.y)) == ((p.x * r.x) * (p.y * r.y)) * ((p.x * r.x) * (p.y * r.y))
           by { SquareIs((p.x * r.x) * (p.y * r.y)); }
  }

  lemma SquareIs(a: int)
    ensures Square(a) == a * a
  {
  }

  lemma SquareOfTerms(a: int, b: int)
    ensures Square(a + b) == Square(a) + Square(b) + 2 * (a * b)
  {
  }

  /** With denominators cleared, the residue of a sum is a product less a square. */
  lemma SumIdentity(d: int, p: Affine, r: Affine)
    ensures var a, b, c, e := Square(p.x), Square(p.y), Square(r.x), Square(r.y);
            var k := d * ((p.x * r.x) * (p.y * r.y));
            ClearedResidue(d, Square(NumX(p, r)), Square(NumY(p, r)), Square(1 + k), Square(1 - k)) ==
            ((b - a) - (e - c) * (d * (a * b))) * ((e - c) - (b - a) * (d * (c * e))) - Square(1 - k * k)
  {
    hide Square, ClearedResidue, NumX, NumY;
    var a, b, c, e := Square(p.x), Square(p.y), Square(r.x), Square(r.y);
    var n := (p.x * r.x) * (p.y * r.y);
    SquaredNumerators(p, r);
    OuterIdentity(d, a * e + b * c, b * e + a * c, n);
    InnerIdentity(a, b, c, e);
    FactoredIdentity(d, b - a, e - c, a * b, c * e, n);
  }

  /** One factor differs from 1 - k^2 by a combination of the residues of the two points. */
  lemma FactorResidue(d: int, s: int, t: int, f: int, g: int)
    ensures s - t * (d * f) ==
            (s - 1 - d * f) - (t - 1 - d * g) * (d * f) + (1 - (d * d) * (f * g))
  {
    var x, y := d * f, d * g;
    assert (t - 1 - y) * x == t * x - x - y * x;
    assert y * x == (d * d) * (f * g);
  }

  lemma FactorVanishes(q: int, d: int, s: int, t: int, f: int, g: int, kk: int)
    requires q > 0 && Divides(q, s - 1 - d * f) && Divides(q, t - 1 - d * g) && kk == (d * d) * (f * g)
    ensures Congruent(s - t * (d * f), 1 - kk, q)
  {
    FactorResidue(d, s, t, f, g);
    DividesProduct(q, t - 1 - d * g, d * f);
    DividesDifference(q, s - 1 - d * f, (t - 1 - d * g) * (d * f));
  }

  lemma ResidueOfSquares(d: int, p: Affine)
    ensures Residue(d, p) == (Square(p.y) - Square(p.x)) - 1 - d * (Square(p.x) * Square(p.y))
  {
    SquareProduct(p.x, p.y);
  }

  /** The cleared residue of a sum of curve points vanishes. */
  lemma SumVanishes(c: Curve, p: Affine, r: Affine)
    requires c.q > 2 && OnCurve(c, p) && OnCurve(c, r)
    ensures var k := Cross(c, p, r);
            Divides(c.q, ClearedResidue(c.d, Square(NumX(p, r)), Square(NumY(p, r)), Square(1 + k), Square(1 - k)))
  {
    hide Square, ClearedResidue, NumX, NumY, Residue;
    var q, d := c.q, c.d;
    var x, y, u, v := Square(p.x), Square(p.y), Square(r.x), Square(r.y);
    var n := (p.x * r.x) * (p.y * r.y);
    var k := d * n;
    ResidueOfSquares(d, p);
    ResidueOfSquares(d, r);
    SquaredNumerators(p, r);
    assert k * k == (d * d) * ((x * y) * (u * v)) by { KTwice(d, n); }
    Swapped(x * y, u * v);
    FactorVanishes(q, d, y - x, v - u, x * y, u * v, k * k);
    FactorVanishes(q, d, v - u, y - x, u * v, x * y, k * k);
    var s, t := (y - x) - (v - u) * (d * (x * y)), (v - u) - (y - x) * (d * (u * v));
    CongruentProduct(s, 1 - k * k, t, 1 - k * k, q);
    SquareIs(1 - k * k);
    SumIdentity(d, p, r);
  }

  lemma ClearedResidueCongruent(q: int, d: int, u: int, u': int, v: int, v': int, p: int, m: int)
    requires q > 0 && Congruent(u, u', q) && Congruent(v, v', q)
    ensures Congruent(ClearedResidue(d, u, v, p, m), ClearedResidue(d, u', v', p, m), q)
  {
    hide Congruent;
    Multiplied(q, v, v', p);
    Multiplied(q, u, u', m);
    CongruentProduct(u, u', v, v', q);
    Multiplied(q, u * v, u' * v', d);
    Reflexive(p * m, q);
    CongruentSum(v * p, v' * p, u * m, u' * m, q);
    CongruentSum(v * p - u * m, v' * p - u' * m, p * m, p * m, q);
    CongruentSum(v * p - u * m - p * m, v' * p - u' * m - p * m, d * (u * v), d * (u' * v'), q);
  }

  lemma CongruentDivides(q: int, a: int, b: int)
    requires q > 0 && Congruent(a, b, q) && Divides(q, b)
    ensures Divides(q, a)
  {
    DividesSum(q, a - b, b);
  }

  /** Where the affine formula is defined, the sum of two curve points is on the curve. */
  lemma ClosedWhereDefined(c: Curve, p: Affine, r: Affine)
    requires c.q > 2 && IsPrime(c.q) && OnCurve(c, p) && OnCurve(c, r) && Defined(c, p, r)
    ensures OnCurve(c, AddAffine(c, p, r))
  {
    var q, d, k, s := c.q, c.d, Cross(c, p, r), AddAffine(c, p, r);
    hide IsPrime, Congruent, Cross, NumX, NumY, ClearedResidue, AddAffine, Residue, Divides;
    var u, v := s.x * (1 + k), s.y * (1 - k);
    AffineSolves(c, p, r);
    CongruentProduct(u, NumX(p, r), u, NumX(p, r), q);
    CongruentProduct(v, NumY(p, r), v, NumY(p, r), q);
    SumVanishes(c, p, r);
    ClearedResidueCongruent(q, d, Square(u), Square(NumX(p, r)), Square(v), Square(NumY(p, r)), Square(1 + k),
                            Square(1 - k));
    var full := ClearedResidue(d, Square(u), Square(v), Square(1 + k), Square(1 - k));
    CongruentDivides(q, full, ClearedResidue(d, Square(NumX(p, r)), Square(NumY(p, r)), Square(1 + k), Square(1 - k)));
    ResidueTimes(d, s, 1 + k, 1 - k);
    CancelSquare(q, 1 + k, 1 - k, Residue(d, s));
  }

  lemma CancelSquare(q: int, p: int, m: int, n: int)
    requires IsPrime(q) && p % q != 0 && m % q != 0 && Divides(q, Square(p * m) * n)
    ensures Divides(q, n)
  {
    NonzeroProduct(q, p, m);
    NonzeroProduct(q, p * m, p * m);
    Euclid(q, Square(p * m), n);
  }

  /** The affine sum of curve points is a curve point. */
  lemma Closed(c: Curve, p: Affine, r: Affine)
    requires IsCurve(c) && OnCurve(c, p) && OnCurve(c, r)
    ensures OnCurve(c, AddAffine(c, p, r))
  {
    Complete(c, p, r);
    ClosedWhereDefined(c, p, r);
  }

  /******* Scalar multiplication *******/

  const NEUTRAL: Affine := Affine(0, 1)

  const NEUTRAL_EXTENDED: Extended := Extended(0, 1, 1, 0)

  /** Double-and-add with the affine formula, `p` added into `sum` for every set bit of `n`. */
  function Times(c: Curve, sum: Affine, p: Affine, n: nat): Affine
    requires c.q > 2
    decreases n
  {
    if n == 0 then sum
    else Times(c, if n % 2 == 1 then AddAffine(c, sum, p) else sum, AddAffine(c, p, p), n / 2)
  }

  /** The same with the extended formula. */
  function TimesExtended(c: Curve, sum: Extended, p: Extended, n: nat): Extended
    requires c.q > 2
    decreases n
  {
    if n == 0 then sum
    else TimesExtended(c, if n % 2 == 1 then AddExtended(c, sum, p) else sum, AddExtended(c, p, p), n / 2)
  }

  /** `_scalar` */
  method Scalar(c: Curve, p: Extended, n: nat) returns (result: Extended)
    requires c.q > 2
    ensures result == TimesExtended(c, NEUTRAL_EXTENDED, p, n)
  {
    result := NEUTRAL_EXTENDED;
    var point, rest := p, n;
    while rest != 0
      invariant TimesExtended(c, result, point, rest) == TimesExtended(c, NEUTRAL_EXTENDED, p, n)
      decreases rest
    {
      if rest % 2 == 1 {
        result := AddExtended(c, result, point);
      }
      point := AddExtended(c, point, point);
      rest := rest / 2;
    }
  }

  /** The extended point stands for a point of the curve. */
  ghost predicate Encodes(c: Curve, e: Extended, a: Affine)
    requires c.q > 0
  {
    Represents(c, e, a) && OnCurve(c, a)
  }

  lemma AddEncodes(c: Curve, p: Extended, a: Affine, r: Extended, b: Affine)
    requires IsCurve(c) && Encodes(c, p, a) && Encodes(c, r, b)
    ensures Encodes(c, AddExtended(c, p, r), AddAffine(c, a, b))
  {
    hide Represents, OnCurve, Defined, AddExtended, AddAffine, IsPrime;
    Complete(c, a, b);
    AddRepresents(c, p, a, r, b);
    Closed(c, a, b);
  }

  /** Extended scalar multiplication stays on the curve and represents the affine one. */
  lemma {:induction false} TimesEncodes(c: Curve, s: Extended, u: Affine, p: Extended, a: Affine, n: nat)
    requires IsCurve(c) && Encodes(c, s, u) && Encodes(c, p, a)
    ensures Encodes(c, TimesExtended(c, s, p, n), Times(c, u, a, n))
    decreases n
  {
    hide Encodes, AddExtended, AddAffine;
    if n != 0 {
      AddEncodes(c, s, u, p, a);
      AddEncodes(c, p, a, p, a);
      TimesEncodes(c, if n % 2 == 1 then AddExtended(c, s, p) else s, if n % 2 == 1 then AddAffine(c, u, a) else u,
                   AddExtended(c, p, p), AddAffine(c, a, a), n / 2);
    }
  }

  lemma NeutralEncodes(c: Curve)
    requires c.q > 2
    ensures Encodes(c, NEUTRAL_EXTENDED, NEUTRAL)
  {
    assert Residue(c.d, NEUTRAL) == 0 by { assert c.d * ((0 * 1) * (0 * 1)) == 0; }
    hide Residue;
    DivisionUnique(0, c.q, 0, 0);
    DivisionUnique(1, c.q, 0, 1);
  }

  /******* Equality *******/

  /** `_equal` */
  predicate EqualExtended(c: Curve, p: Extended, r: Extended)
    requires c.q > 2
  {
    p.x * r.z % c.q == r.x * p.z % c.q && p.y * r.z % c.q == r.y * p.z % c.q
  }

  lemma CoordinateEqual(q: int, e: int, x: int, z: int, f: int, y: int, w: int)
    requires IsPrime(q) && z % q != 0 && w % q != 0 && Congruent(e, x * z, q) && Congruent(f, y * w, q)
    ensures e * w % q == f * z % q <==> Congruent(x, y, q)
  {
    hide IsPrime, Congruent;
    IsPrimeAbove(q);
    var s := z * w;
    Multiplied(q, e, x * z, w);
    Multiplied(q, f, y * w, z);
    ProductRegroups(x, z, w);
    ScaleLast(y, w, z);
    ProductRegroups(y, z, w);
    SameRemainder(e * w, x * s, q);
    SameRemainder(f * z, y * s, q);
    SameRemainder(x * s, y * s, q);
    NonzeroProduct(q, z, w);
    if e * w % q == f * z % q {
      Cancel(q, x, y, s);
    }
    if Congruent(x, y, q) {
      Multiplied(q, x, y, s);
    }
  }

  /** `_equal` holds exactly when the represented points have the same coordinates modulo `q`. */
  lemma EqualMeaning(c: Curve, p: Extended, a: Affine, r: Extended, b: Affine)
    requires c.q > 2 && IsPrime(c.q) && Represents(c, p, a) && Represents(c, r, b)
    ensures EqualExtended(c, p, r) <==> Congruent(a.x, b.x, c.q) && Congruent(a.y, b.y, c.q)
  {
    hide IsPrime, Congruent;
    CoordinateEqual(c.q, p.x, a.x, p.z, r.x, b.x, r.z);
    CoordinateEqual(c.q, p.y, a.y, p.z, r.y, b.y, r.z);
  }

  predicate Reduced(c: Curve, a: Affine) {
    0 <= a.x < c.q && 0 <= a.y < c.q
  }

  lemma SumIsReduced(c: Curve, a: Affine, b: Affine)
    requires c.q > 2
    ensures Reduced(c, AddAffine(c, a, b))
  {
    var f := Mod(Cross(c, a, b), c.q);
    ModIsRemainder(NumX(a, b) * Inverse(1 + f, c.q), c.q);
    ModIsRemainder(NumY(a, b) * Inverse(1 - f, c.q), c.q);
  }

  lemma ReducedCongruent(q: int, a: int, b: int)
    requires q > 0 && 0 <= a < q && 0 <= b < q
    ensures Congruent(a, b, q) <==> a == b
  {
    SameRemainder(a, b, q);
    DivisionUnique(a, q, 0, a);
    DivisionUnique(b, q, 0, b);
  }

  /** On reduced points `_equal` decides equality. */
  lemma EqualReduced(c: Curve, p: Extended, a: Affine, r: Extended, b: Affine)
    requires c.q > 2 && IsPrime(c.q) && Represents(c, p, a) && Represents(c, r, b) && Reduced(c, a) && Reduced(c, b)
    ensures EqualExtended(c, p, r) <==> a == b
  {
    hide IsPrime, Congruent, EqualExtended, Represents;
    EqualMeaning(c, p, a, r, b);
    ReducedCongruent(c.q, a.x, b.x);
    ReducedCongruent(c.q, a.y, b.y);
  }

  lemma {:induction false} TimesIsReduced(c: Curve, s: Affine, p: Affine, n: nat)
    requires c.q > 2 && Reduced(c, s)
    ensures Reduced(c, Times(c, s, p, n))
    decreases n
  {
    hide Reduced, AddAffine;
    if n != 0 {
      SumIsReduced(c, s, p);
      TimesIsReduced(c, if n % 2 == 1 then AddAffine(c, s, p) else s, AddAffine(c, p, p), n / 2);
    }
  }

  /** The group equation `_ed25519_verify` tests in extended form is the equation of affine points. */
  lemma EquationIsAffine(
      c: Curve, base: Extended, g: Affine, r: Extended, u: Affine, key: Extended, a: Affine, s: nat, h: nat)
    requires IsCurve(c) && Encodes(c, base, g) && Encodes(c, r, u) && Encodes(c, key, a)
    ensures
      EqualExtended(c, TimesExtended(c, NEUTRAL_EXTENDED, base, s),
                    AddExtended(c, r, TimesExtended(c, NEUTRAL_EXTENDED, key, h))) <==>
      Times(c, NEUTRAL, g, s) == AddAffine(c, u, Times(c, NEUTRAL, a, h))
  {
    hide IsPrime, AddExtended, AddAffine, EqualExtended, OnCurve, Represents;
    NeutralEncodes(c);
    TimesEncodes(c, NEUTRAL_EXTENDED, NEUTRAL, base, g, s);
    TimesEncodes(c, NEUTRAL_EXTENDED, NEUTRAL, key, a, h);
    var k, v := TimesExtended(c, NEUTRAL_EXTENDED, key, h), Times(c, NEUTRAL, a, h);
    AddEncodes(c, r, u, k, v);
    TimesIsReduced(c, NEUTRAL, g, s);
    SumIsReduced(c, u, v);
    EqualReduced(c, TimesExtended(c, NEUTRAL_EXTENDED, base, s), Times(c, NEUTRAL, g, s), AddExtended(c, r, k),
                 AddAffine(c, u, v));
  }

  /******* Points of small order *******/

  /** Eight times a point, by three doublings. */
  function Octuple(c: Curve, p: Affine): Affine
    requires c.q > 2
  {
    var p2 := AddAffine(c, p, p);
    var p4 := AddAffine(c, p2, p2);
    AddAffine(c, p4, p4)
  }

  /** The doubling loop of the TypeScript key check. */
  method HasLargeOrder(c: Curve, p: Affine) returns (accepted: bool)
    requires c.q > 2
    ensures accepted <==> Octuple(c, p) != NEUTRAL
  {
    var multiplied := p;
    ghost var doubled := [p];
    for index := 0 to 3
      invariant |doubled| == index + 1 && doubled[0] == p && doubled[index] == multiplied
      invariant forall i :: 0 <= i < index ==> doubled[i + 1] == AddAffine(c, doubled[i], doubled[i])
    {
      multiplied := AddAffine(c, multiplied, multiplied);
      doubled := doubled + [multiplied];
    }
    assert doubled[1] == AddAffine(c, p, p);
    assert doubled[2] == AddAffine(c, doubled[1], doubled[1]);
    accepted := multiplied.x != 0 || multiplied.y != 1;
  }

  /** `_small_order` */
  method SmallOrder(c: Curve, p: Extended) returns (small: bool)
    requires c.q > 2
    ensures small <==> EqualExtended(c, TimesExtended(c, NEUTRAL_EXTENDED, p, 8), NEUTRAL_EXTENDED)
  {
    var multiplied := Scalar(c, p, 8);
    small := EqualExtended(c, multiplied, NEUTRAL_EXTENDED);
  }

  /** Adding to the neutral point reduces the coordinates and changes nothing else. */
  lemma NeutralAdds(c: Curve, p: Affine)
    requires c.q > 2 && Reduced(c, p)
    ensures AddAffine(c, NEUTRAL, p) == p
  {
    var q := c.q;
    assert Cross(c, NEUTRAL, p) == 0;
    assert Mod(0, q) == 0 by { ModIsRemainder(0, q); DivisionUnique(0, q, 0, 0); }
    DivisionUnique(1, q, 0, 1);
    PowerOfOne(q - 2);
    assert Inverse(1, q) == 1;
    assert NumX(NEUTRAL, p) == p.x && NumY(NEUTRAL, p) == p.y;
    ModIsRemainder(p.x, q);
    ModIsRemainder(p.y, q);
    DivisionUnique(p.x, q, 0, p.x);
    DivisionUnique(p.y, q, 0, p.y);
  }

  lemma TimesEight(c: Curve, p: Affine)
    requires c.q > 2
    ensures Times(c, NEUTRAL, p, 8) == Octuple(c, p)
  {
    hide AddAffine;
    var p2 := AddAffine(c, p, p);
    var p4 := AddAffine(c, p2, p2);
    var p8 := AddAffine(c, p4, p4);
    assert Times(c, NEUTRAL, p, 8) == Times(c, NEUTRAL, p2, 4);
    assert Times(c, NEUTRAL, p2, 4) == Times(c, NEUTRAL, p4, 2);
    assert Times(c, NEUTRAL, p4, 2) == Times(c, NEUTRAL, p8, 1);
    assert Times(c, NEUTRAL, p8, 1) == AddAffine(c, NEUTRAL, p8);
    SumIsReduced(c, p4, p4);
    NeutralAdds(c, p8);
  }

  /** Python rejects a point as being of small order exactly when TypeScript does. */
  lemma SmallOrderAgrees(c: Curve, p: Extended, a: Affine)
    requires IsCurve(c) && Encodes(c, p, a)
    ensures EqualExtended(c, TimesExtended(c, NEUTRAL_EXTENDED, p, 8), NEUTRAL_EXTENDED) <==> Octuple(c, a) == NEUTRAL
  {
    hide IsPrime, EqualExtended, OnCurve, Represents, AddAffine, AddExtended;
    NeutralEncodes(c);
    TimesEncodes(c, NEUTRAL_EXTENDED, NEUTRAL, p, a, 8);
    TimesEight(c, a);
    TimesIsReduced(c, NEUTRAL, a, 8);
    EqualReduced(c, TimesExtended(c, NEUTRAL_EXTENDED, p, 8), Times(c, NEUTRAL, a, 8), NEUTRAL_EXTENDED, NEUTRAL);
  }

  /******* Decoded points *******/

  /** The test of `_decode_point` is the curve equation. */
  lemma DecodedIsOnCurve(c: Curve, x: int, y: int)
    requires c.q > 2
    ensures (x * x * (c.d * y * y + 1) - (y * y - 1)) % c.q == 0 <==> OnCurve(c, Affine(x, y))
  {
    var r := Residue(c.d, Affine(x, y));
    DecodedResidue(c.d, x, y);
    if Divides(c.q, r) {
      DividesDifference(c.q, 0, r);
    }
    if Divides(c.q, -r) {
      DividesDifference(c.q, 0, -r);
    }
  }

  lemma DecodedResidue(d: int, x: int, y: int)
    ensures x * x * (d * y * y + 1) - (y * y - 1) == -Residue(d, Affine(x, y))
  {
    var s, t := x * x, y * y;
    assert d * y * y == d * t;
    assert s * (d * t + 1) == s * (d * t) + s;
    assert (x * y) * (x * y) == s * t by { CrossOrder(x, y, x, y); }
    assert s * (d * t) == d * (s * t);
  }

  lemma OtherSquare(q: int, x: int)
    ensures (q - x) * (q - x) - x * x == q * (q - 2 * x)
  {
  }

  lemma DifferenceTimes(a: int, b: int, g: int)
    ensures (a - b) * g == a * g - b * g
  {
  }

  /** Choosing the other root for the sign bit stays on the curve. */
  lemma OtherSignOnCurve(c: Curve, x: int, y: int)
    requires c.q > 2 && OnCurve(c, Affine(x, y))
    ensures OnCurve(c, Affine(c.q - x, y))
  {
    hide Residue;
    var q, u := c.q, c.q - x;
    var s, t, g := u * u, x * x, 1 + c.d * (y * y);
    OtherSquare(q, x);
    MultipleHasNoRemainder(q, q - 2 * x);
    assert Divides(q, s - t);
    hide Divides;
    ResidueInX(c.d, u, y);
    ResidueInX(c.d, x, y);
    DifferenceTimes(s, t, g);
    DividesProduct(q, s - t, g);
    DividesDifference(q, Residue(c.d, Affine(x, y)), (s - t) * g);
  }

  lemma ResidueInX(d: int, x: int, y: int)
    ensures Residue(d, Affine(x, y)) == y * y - 1 - (x * x) * (1 + d * (y * y))
  {
    CrossOrder(x, y, x, y);
    assert (x * x) * (d * (y * y)) == d * ((x * x) * (y * y));
  }

  /** What `_decode_point` returns stands for the decoded point. */
  lemma DecodedEncodes(c: Curve, x: int, y: int)
    requires c.q > 2 && OnCurve(c, Affine(x, y))
    ensures Encodes(c, Extended(x, y, 1, x * y % c.q), Affine(x, y))
  {
    CongruentRemainder(x * y, c.q);
    Reflexive(x, c.q);
    Reflexive(y, c.q);
    DivisionUnique(1, c.q, 0, 1);
  }
}
