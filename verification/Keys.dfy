/**
 Decoding of Ed25519 public keys: recovery of x from y and the sign bit, and the rejection of points
 of small order, in the TypeScript and the Python form.
 */
module Keys {
  import opened Wrappers
  import opened Modular
  import opened Edwards
  import opened EdwardsGroup

  /******* Square roots *******/

  /** A number whose square is one is one or minus one. */
  lemma RootsOfOne(q: int, h: int)
    requires IsPrime(q) && Congruent(h * h, 1, q)
    ensures Congruent(h, 1, q) || Congruent(h, -1, q)
  {
    assert h * h - 1 == (h - 1) * (h + 1);
    if !Divides(q, h - 1) {
      Euclid(q, h - 1, h + 1);
    }
  }

  /** v^((q+3)/8), squared, is v times r^((q-1)/2) for a root r of v. */
  lemma CandidateSquare(q: int, v: int, r: int)
    requires IsPrime(q) && q % 8 == 5 && Congruent(r * r, v, q)
    ensures var x := Pow(v, (q + 3) / 8);
            Congruent(x * x, Pow(r, (q - 1) / 2) * v, q)
  {
    IsPrimeAbove(q);
    hide IsPrime, Congruent;
    var e, x := (q + 3) / 8, Pow(v, (q + 3) / 8);
    PowerOfRoot(v, e);
    assert x * x == Pow(v, (q - 1) / 4) * v;
    CongruentSymmetric(r * r, v, q);
    CongruentPower(v, r * r, (q - 1) / 4, q);
    PowOfSquare(r, (q - 1) / 4);
    Multiplied(q, Pow(v, (q - 1) / 4), Pow(r, (q - 1) / 2), v);
  }

  lemma PowerOfRoot(v: int, e: nat)
    requires e >= 1
    ensures Pow(v, e) * Pow(v, e) == Pow(v, 2 * e - 1) * v
  {
    SquareOfPower(v, e);
    assert Pow(v, 2 * e) == v * Pow(v, 2 * e - 1);
  }

  lemma {:induction false} SquareOfPower(v: int, e: nat)
    ensures Pow(v, e) * Pow(v, e) == Pow(v, 2 * e)
  {
    if e > 0 {
      var p := Pow(v, e - 1);
      SquareOfPower(v, e - 1);
      assert (v * p) * (v * p) == v * (v * (p * p)) by { CrossOrder(v, p, v, p); ProductRegroups(v, v, p * p); }
      assert Pow(v, 2 * e) == v * Pow(v, 2 * e - 1) && Pow(v, 2 * e - 1) == v * Pow(v, 2 * e - 2);
    }
  }

  /** If v is a square, v^((q+3)/8) or i times it is a root. */
  lemma CandidateIsRoot(c: Curve, v: int, r: int)
    requires IsCurve(c) && c.q % 8 == 5 && Congruent(r * r, v, c.q)
    ensures var x := Pow(v, (c.q + 3) / 8);
            Congruent(x * x, v, c.q) || Congruent((x * c.i) * (x * c.i), v, c.q)
  {
    var q, x, s := c.q, Pow(v, (c.q + 3) / 8), r % c.q;
    CurvePrime(c);
    CongruentRemainder(r, q);
    CongruentProduct(s, r, s, r, q);
    CongruentTransitive(s * s, r * r, v, q);
    CandidateSquare(q, v, s);
    if Divides(q, s) {
      ZeroRoot(q, v, s, x);
    } else {
      var h := Pow(s, (q - 1) / 2);
      Fermat(q, s);
      SquareOfPower(s, (q - 1) / 2);
      RootsOfOne(q, h);
      hide IsPrime, Pow, Divides;
      if Congruent(h, 1, q) {
        hide Congruent;
        Multiplied(q, h, 1, v);
        CongruentTransitive(x * x, h * v, v, q);
      } else {
        hide Congruent;
        Multiplied(q, h, -1, v);
        CongruentTransitive(x * x, h * v, -v, q);
        TurnedRoot(c, x, v);
      }
    }
  }

  lemma ZeroRoot(q: int, v: int, s: int, x: int)
    requires q > 2 && Divides(q, s) && Congruent(s * s, v, q) && Congruent(x * x, Pow(s, (q - 1) / 2) * v, q)
    ensures Congruent(x * x, v, q)
  {
    DividesProduct(q, s, s);
    DividesDifference(q, s * s, s * s - v);
    var h := Pow(s, (q - 1) / 2);
    hide Pow;
    DividesProduct(q, v, h);
    Swapped(v, h);
    DividesSum(q, x * x - h * v, h * v);
    DividesDifference(q, x * x, v);
  }

  lemma TurnedRoot(c: Curve, x: int, v: int)
    requires c.q > 2 && Congruent(c.i * c.i, -1, c.q) && Congruent(x * x, -v, c.q)
    ensures Congruent((x * c.i) * (x * c.i), v, c.q)
  {
    hide Congruent;
    CongruentProduct(x * x, -v, c.i * c.i, -1, c.q);
    CrossOrder(x, c.i, x, c.i);
    assert -v * -1 == v;
  }

  /******* Recovering x *******/

  /** (y^2 - 1) / (d y^2 + 1), as both SDKs compute it. */
  function XSquared(c: Curve, y: int): int
    requires c.q > 2
  {
    var y2 := Mod(y * y, c.q);
    Mod((y2 - 1) * Inverse(c.d * y2 + 1, c.q), c.q)
  }

  /** The denominator never vanishes. */
  lemma DenominatorNonzero(c: Curve, y: int)
    requires IsCurve(c)
    ensures (c.d * (y * y) + 1) % c.q != 0
  {
    var q := c.q;
    CurvePrime(c);
    if Divides(q, c.d * (y * y) + 1) {
      if y % q == 0 {
        hide IsPrime;
        DividesProduct(q, y, y);
        DividesProduct(q, y * y, c.d);
        Swapped(y * y, c.d);
        DividesDifference(q, c.d * (y * y) + 1, c.d * (y * y));
        DivisionUnique(1, q, 0, 1);
        assert false;
      }
      NotSquare(c, c.i, y);
      hide IsPrime;
      DividesDifference(q, c.i * c.i + 1, c.d * (y * y) + 1);
    }
  }

  /** The points with this y are the square roots of the quotient. */
  lemma RootsAreOnCurve(c: Curve, x: int, y: int)
    requires IsCurve(c)
    ensures OnCurve(c, Affine(x, y)) <==> Congruent(x * x, XSquared(c, y), c.q)
  {
    var q, w, v := c.q, c.d * (y * y) + 1, XSquared(c, y);
    CurvePrime(c);
    DenominatorNonzero(c, y);
    ResidueInX(c.d, x, y);
    assert OnCurve(c, Affine(x, y)) <==> Congruent(y * y - 1, (x * x) * w, q);
    QuotientOfSquares(c, y);
    hide IsPrime, Congruent, OnCurve, IsCurve, XSquared;
    if Congruent(y * y - 1, (x * x) * w, q) {
      CongruentSymmetric(y * y - 1, (x * x) * w, q);
      CongruentSymmetric(v * w, y * y - 1, q);
      CongruentTransitive((x * x) * w, y * y - 1, v * w, q);
      Cancel(q, x * x, v, w);
    }
    if Congruent(x * x, v, q) {
      Multiplied(q, x * x, v, w);
      CongruentTransitive((x * x) * w, v * w, y * y - 1, q);
      CongruentSymmetric((x * x) * w, y * y - 1, q);
    }
  }

  lemma QuotientOfSquares(c: Curve, y: int)
    requires c.q > 2 && IsPrime(c.q) && (c.d * (y * y) + 1) % c.q != 0
    ensures Congruent(XSquared(c, y) * (c.d * (y * y) + 1), y * y - 1, c.q)
  {
    var q, s, t := c.q, y * y, Mod(y * y, c.q);
    ModIsRemainder(s, q);
    CongruentRemainder(s, q);
    hide IsPrime, Congruent;
    Multiplied(q, t, s, c.d);
    Reflexive(1, q);
    CongruentSum(c.d * t, c.d * s, 1, 1, q);
    CongruentSum(t, s, 1, 1, q);
    SameRemainder(c.d * t + 1, c.d * s + 1, q);
    QuotientTimes(q, t - 1, c.d * t + 1);
    var v := XSquared(c, y);
    CongruentSymmetric(c.d * t + 1, c.d * s + 1, q);
    Multiplied(q, c.d * s + 1, c.d * t + 1, v);
    CongruentTransitive(v * (c.d * s + 1), v * (c.d * t + 1), t - 1, q);
    CongruentTransitive(v * (c.d * s + 1), t - 1, s - 1, q);
  }

  /** The x-recovery of the TypeScript key check: finds a point with this y if there is one. */
  method RecoverX(c: Curve, y: int) returns (found: Option<int>)
    requires IsCurve(c) && c.q % 8 == 5
    ensures found.Some? ==> 0 <= found.value < c.q && OnCurve(c, Affine(found.value, y))
    ensures found.None? ==> forall x :: !OnCurve(c, Affine(x, y))
  {
    hide IsPrime, OnCurve, Congruent;
    CurvePrime(c);
    var q := c.q;
    var y2 := Mod(y * y, q);
    var inverse := ComputeInverse(c.d * y2 + 1, q);
    var x2 := Mod((y2 - 1) * inverse, q);
    var x := ModPow(x2, (q + 3) / 8, q);
    ghost var p := Pow(x2, (q + 3) / 8);
    hide Pow, Inverse;
    assert x2 == XSquared(c, y);
    assert Congruent(x, p, q) by { CongruentRemainder(p, q); }
    ghost var first := x;
    var difference := Mod(x * x - x2, q);
    RootTest(q, x, x2);
    if difference != 0 {
      x := Mod(x * c.i, q);
      ModIsRemainder(first * c.i, q);
      difference := Mod(x * x - x2, q);
      RootTest(q, x, x2);
    }
    RootsAreOnCurve(c, x, y);
    hide XSquared;
    if difference != 0 {
      forall r
        ensures !OnCurve(c, Affine(r, y))
      {
        RootsAreOnCurve(c, r, y);
        if Congruent(r * r, x2, q) {
          CandidateIsRoot(c, x2, r);
          CandidateFound(c, x2, p, first, x);
        }
      }
      return None;
    }
    return Some(x);
  }

  /** The difference test decides congruence. */
  lemma RootTest(q: int, x: int, v: int)
    requires q > 0
    ensures Mod(x * x - v, q) == 0 <==> Congruent(x * x, v, q)
  {
    ModIsRemainder(x * x - v, q);
  }

  lemma CandidateFound(c: Curve, v: int, p: int, first: int, second: int)
    requires c.q > 2 && Congruent(first, p, c.q) && second == first * c.i % c.q
    ensures Congruent(p * p, v, c.q) ==> Congruent(first * first, v, c.q)
    ensures Congruent((p * c.i) * (p * c.i), v, c.q) ==> Congruent(second * second, v, c.q)
  {
    hide Congruent;
    var q := c.q;
    CongruentProduct(first, p, first, p, q);
    Multiplied(q, first, p, c.i);
    CongruentRemainder(first * c.i, q);
    CongruentTransitive(second, first * c.i, p * c.i, q);
    CongruentProduct(second, p * c.i, second, p * c.i, q);
    if Congruent(p * p, v, q) {
      CongruentTransitive(first * first, p * p, v, q);
    }
    if Congruent((p * c.i) * (p * c.i), v, q) {
      CongruentTransitive(second * second, (p * c.i) * (p * c.i), v, q);
    }
  }

  /******* Accepted keys *******/

  /** The encoding names a point of the curve whose eightfold sum is not neutral. */
  ghost predicate AcceptedKey(c: Curve, y: int, sign: int)
    requires c.q > 2
  {
    y < c.q && exists x :: Names(c, x, y, sign) && Multiple(c, Affine(x, y), 8) != NEUTRAL
  }

  /** `x` is the reduced coordinate of the parity `sign`. */
  ghost predicate Names(c: Curve, x: int, y: int, sign: int)
    requires c.q > 2
  {
    0 <= x < c.q && x % 2 == sign && OnCurve(c, Affine(x, y))
  }

  /** The root that the sign bit chooses. */
  function Chosen(c: Curve, x: int, sign: int): int {
    if x % 2 != sign then c.q - x else x
  }

  lemma OctupleIsMultiple(c: Curve, p: Affine)
    requires IsCurve(c) && OnCurve(c, p)
    ensures Octuple(c, p) == Multiple(c, p, 8)
  {
    hide IsPrime, OnCurve, AddAffine, Times, Multiple, Octuple;
    CurvePrime(c);
    TimesEight(c, p);
    ScalarIsMultiple(c, p, 8);
  }

  /** Two roots are equal or opposite. */
  lemma TwoRoots(c: Curve, x: int, r: int, y: int)
    requires IsCurve(c) && 0 <= x < c.q && 0 <= r < c.q && OnCurve(c, Affine(x, y)) && OnCurve(c, Affine(r, y))
    ensures r == x || r == c.q - x
  {
    var q, v := c.q, XSquared(c, y);
    CurvePrime(c);
    RootsAreOnCurve(c, x, y);
    RootsAreOnCurve(c, r, y);
    hide XSquared, OnCurve;
    CongruentSymmetric(r * r, v, q);
    CongruentTransitive(x * x, v, r * r, q);
    assert x * x - r * r == (x - r) * (x + r);
    if !Divides(q, x - r) {
      Euclid(q, x - r, x + r);
      hide IsPrime;
      SmallSum(q, x + r);
    } else {
      hide IsPrime;
      ReducedCongruent(q, x, r);
    }
  }

  lemma SmallSum(q: int, s: int)
    requires q > 2 && 0 <= s < 2 * q && Divides(q, s)
    ensures s == 0 || s == q
  {
    if s < q {
      DivisionUnique(s, q, 0, s);
    } else {
      DivisionUnique(q, q, 1, 0);
      DividesDifference(q, s, q);
      DivisionUnique(s - q, q, 0, s - q);
    }
  }

  /** A point with x congruent to zero is of small order. */
  lemma ZeroIsSmall(c: Curve, x: int, y: int)
    requires IsCurve(c) && OnCurve(c, Affine(x, y)) && Divides(c.q, x)
    ensures Octuple(c, Affine(x, y)) == NEUTRAL
  {
    var q, p := c.q, Affine(x, y);
    CurvePrime(c);
    var k, s := Cross(c, p, p), AddAffine(c, p, p);
    Complete(c, p, p);
    AffineSolves(c, p, p);
    SumIsReduced(c, p, p);
    hide AddAffine;
    assert Congruent(NumX(p, p), 0, q) && Congruent(NumY(p, p), 1 - k, q) by { ZeroParts(c, x, y); }
    hide IsPrime, Congruent, OnCurve, Cross, NumX, NumY;
    CongruentTransitive(s.x * (1 + k), NumX(p, p), 0, q);
    CongruentTransitive(s.y * (1 - k), NumY(p, p), 1 - k, q);
    assert 0 == 0 * (1 + k) && 1 - k == 1 * (1 - k);
    Cancel(q, s.x, 0, 1 + k);
    Cancel(q, s.y, 1, 1 - k);
    ReducedCongruent(q, s.x, 0);
    ReducedCongruent(q, s.y, 1);
    assert s == NEUTRAL;
    NeutralOnCurve(c);
    NeutralAdds(c, NEUTRAL);
  }

  lemma ZeroParts(c: Curve, x: int, y: int)
    requires c.q > 2 && OnCurve(c, Affine(x, y)) && Divides(c.q, x)
    ensures var p := Affine(x, y);
            Congruent(NumX(p, p), 0, c.q) && Congruent(NumY(p, p), 1 - Cross(c, p, p), c.q)
  {
    var q, s := c.q, 1 + c.d * (y * y);
    assert x * y + y * x == x * (2 * y);
    DividesProduct(q, x, 2 * y);
    ResidueInX(c.d, x, y);
    DividesProduct(q, x, x * s);
    ProductRegroups(x, x, s);
    DividesSum(q, y * y - 1 - (x * x) * s, (x * x) * s);
    assert Divides(q, y * y - 1);
    DividesProduct(q, x, x * s);
    assert (x * x) * s == x * x + c.d * ((x * x) * (y * y));
    DividesSum(q, y * y - 1, (x * x) * s);
  }

  /** The chosen root has the parity asked for, unless it is congruent to zero. */
  lemma ChosenIsNamed(c: Curve, x: int, r: int, sign: int)
    requires c.q % 2 == 1 && 0 <= x < c.q && 0 <= sign <= 1
    ensures var z := Chosen(c, x, sign);
            && (z == c.q || (0 <= z < c.q && z % 2 == sign))
            && ((r == x || r == c.q - x) && 0 <= r < c.q && r % 2 == sign ==> r == z)
  {
  }

  /** Once a root is found, the chosen point is of large order exactly when the key is accepted. */
  lemma ChosenDecides(c: Curve, x: int, y: int, sign: int)
    requires IsCurve(c) && c.q % 2 == 1 && 0 <= x < c.q && OnCurve(c, Affine(x, y)) && 0 <= sign <= 1 && y < c.q
    ensures var p := Affine(Chosen(c, x, sign), y);
            OnCurve(c, p) && (Octuple(c, p) != NEUTRAL <==> AcceptedKey(c, y, sign))
  {
    var q, z := c.q, Chosen(c, x, sign);
    var p := Affine(z, y);
    CurvePrime(c);
    hide IsPrime, OnCurve, AddAffine, Multiple, Octuple;
    OtherSignOnCurve(c, x, y);
    OctupleIsMultiple(c, p);
    ChosenIsNamed(c, x, x, sign);
    if Octuple(c, p) != NEUTRAL {
      if z == q {
        MultipleHasNoRemainder(q, 1);
        ZeroIsSmall(c, z, y);
        assert false;
      }
      assert Names(c, z, y, sign);
    }
    if AcceptedKey(c, y, sign) {
      var r :| Names(c, r, y, sign) && Multiple(c, Affine(r, y), 8) != NEUTRAL;
      TwoRoots(c, x, r, y);
      ChosenIsNamed(c, x, r, sign);
    }
  }

  lemma NothingAccepted(c: Curve, y: int, sign: int)
    requires c.q > 2 && forall x :: !OnCurve(c, Affine(x, y))
    ensures !AcceptedKey(c, y, sign)
  {
  }

  /** `isValidEd25519PublicKey`, from the encoded y and sign bit. */
  method IsValidPublicKey(c: Curve, y: nat, sign: nat) returns (valid: bool)
    requires IsCurve(c) && c.q % 8 == 5 && sign <= 1
    ensures valid <==> AcceptedKey(c, y, sign)
  {
    hide IsPrime, OnCurve, Octuple;
    CurvePrime(c);
    if y >= c.q {
      return false;
    }
    var found := RecoverX(c, y);
    if found.None? {
      NothingAccepted(c, y, sign);
      return false;
    }
    ChosenDecides(c, found.value, y, sign);
    var x := if found.value % 2 != sign then c.q - found.value else found.value;
    var large := HasLargeOrder(c, Affine(x, y));
    return if x == 0 && sign == 1 then false else large;
  }

  /** The candidate power of a square, turned when its own square is wrong. */
  method CandidateRoot(c: Curve, square: int) returns (ghost first: int, x: int)
    requires c.q > 2
    ensures 0 <= x < c.q && Congruent(first, Pow(square % c.q, (c.q + 3) / 8), c.q)
    ensures x == if Congruent(first * first, square % c.q, c.q) then first else first * c.i % c.q
  {
    var q := c.q;
    x := ModPow(square % q, (q + 3) / 8, q);
    first := x;
    CongruentRemainder(Pow(square % q, (q + 3) / 8), q);
    CongruentRemainder(square, q);
    hide Pow, Congruent;
    UnreducedTest(q, x, square);
    if (x * x - square) % q != 0 {
      x := x * c.i % q;
    }
  }

  /** `_xrecover`: an even coordinate, on the curve whenever there is a point with this y. */
  method RecoverEven(c: Curve, y: int) returns (x: int)
    requires IsCurve(c) && c.q % 8 == 5
    ensures 0 <= x < c.q && x % 2 == 0
    ensures forall r :: OnCurve(c, Affine(r, y)) ==> OnCurve(c, Affine(x, y))
  {
    hide IsPrime, OnCurve, Congruent, Pow, Inverse, XSquared;
    CurvePrime(c);
    var inverse := ComputeInverse(c.d * y * y + 1, c.q);
    UnreducedSquare(c, y);
    ghost var first;
    first, x := CandidateRoot(c, (y * y - 1) * inverse);
    CandidateServes(c, y, Pow(XSquared(c, y), (c.q + 3) / 8), first, x);
    if x % 2 != 0 {
      OtherServes(c, x, y);
      x := c.q - x;
    }
  }

  /** The candidate, turned when its square is wrong, is a root if there is one. */
  lemma CandidateServes(c: Curve, y: int, p: int, first: int, x: int)
    requires IsCurve(c) && c.q % 8 == 5
    requires p == Pow(XSquared(c, y), (c.q + 3) / 8) && Congruent(first, p, c.q)
    requires x == if Congruent(first * first, XSquared(c, y), c.q) then first else first * c.i % c.q
    ensures forall r :: OnCurve(c, Affine(r, y)) ==> OnCurve(c, Affine(x, y))
  {
    hide IsPrime, OnCurve, Congruent, XSquared, Pow;
    CurvePrime(c);
    forall r
      ensures OnCurve(c, Affine(r, y)) ==> OnCurve(c, Affine(x, y))
    {
      RootsAreOnCurve(c, r, y);
      RootsAreOnCurve(c, x, y);
      if Congruent(r * r, XSquared(c, y), c.q) {
        CandidateIsRoot(c, XSquared(c, y), r);
        CandidateFound(c, XSquared(c, y), p, first, first * c.i % c.q);
      }
    }
  }

  lemma OtherServes(c: Curve, x: int, y: int)
    requires c.q > 2 && forall r :: OnCurve(c, Affine(r, y)) ==> OnCurve(c, Affine(x, y))
    ensures forall r :: OnCurve(c, Affine(r, y)) ==> OnCurve(c, Affine(c.q - x, y))
  {
    hide OnCurve;
    if OnCurve(c, Affine(x, y)) {
      OtherSignOnCurve(c, x, y);
    }
  }

  /** Python's unreduced operands give the same quotient. */
  lemma UnreducedSquare(c: Curve, y: int)
    requires c.q > 2
    ensures (y * y - 1) * Inverse(c.d * y * y + 1, c.q) % c.q == XSquared(c, y)
  {
    var q, s, t := c.q, y * y, Mod(y * y, c.q);
    ModIsRemainder(s, q);
    CongruentRemainder(s, q);
    CongruentSymmetric(t, s, q);
    hide Congruent;
    assert c.d * y * y == c.d * s by { ThreeFactors(c.d, y, y); }
    Multiplied(q, s, t, c.d);
    Reflexive(1, q);
    CongruentSum(c.d * s, c.d * t, 1, 1, q);
    CongruentSum(s, t, 1, 1, q);
    SameRemainder(c.d * s + 1, c.d * t + 1, q);
    QuotientCongruent(q, s - 1, t - 1, c.d * s + 1, c.d * t + 1);
    ModIsRemainder((s - 1) * Inverse(c.d * s + 1, q), q);
  }

  lemma UnreducedTest(q: int, x: int, square: int)
    requires q > 0 && Congruent(square % q, square, q)
    ensures (x * x - square) % q == 0 <==> Congruent(x * x, square % q, q)
  {
    var v := square % q;
    if Congruent(x * x, v, q) {
      CongruentTransitive(x * x, v, square, q);
    }
    if Congruent(x * x, square, q) {
      CongruentSymmetric(v, square, q);
      CongruentTransitive(x * x, square, v, q);
    }
  }

  /** `_decode_point`, from the encoded y and sign bit. */
  method DecodePoint(c: Curve, y: nat, sign: nat) returns (decoded: Option<Extended>)
    requires IsCurve(c) && c.q % 8 == 5 && sign <= 1
    ensures decoded.Some? ==>
              && OnCurve(c, Affine(decoded.value.x, y)) && Encodes(c, decoded.value, Affine(decoded.value.x, y))
              && (Octuple(c, Affine(decoded.value.x, y)) != NEUTRAL <==> AcceptedKey(c, y, sign))
    ensures decoded.None? ==> !AcceptedKey(c, y, sign)
  {
    hide IsPrime, OnCurve, Octuple, Encodes;
    CurvePrime(c);
    var q := c.q;
    if y >= q {
      return None;
    }
    var x := RecoverEven(c, y);
    DecodedIsOnCurve(c, x, y);
    if (x * x * (c.d * y * y + 1) - (y * y - 1)) % q != 0 {
      NothingAccepted(c, y, sign);
      return None;
    }
    ChosenDecides(c, x, y, sign);
    var z := if x % 2 != sign then q - x else x;
    DecodedEncodes(c, z, y);
    return if z == 0 && sign == 1 then None else Some(Extended(z, y, 1, z * y % q));
  }

  /** The key test of `_ed25519_verify` accepts exactly the keys the TypeScript check accepts. */
  method KeyIsUsable(c: Curve, y: nat, sign: nat) returns (usable: bool)
    requires IsCurve(c) && c.q % 8 == 5 && sign <= 1
    ensures usable <==> AcceptedKey(c, y, sign)
  {
    hide IsPrime, OnCurve, Octuple, Encodes, TimesExtended, EqualExtended;
    CurvePrime(c);
    var decoded := DecodePoint(c, y, sign);
    if decoded.None? {
      return false;
    }
    var small := SmallOrder(c, decoded.value);
    SmallOrderAgrees(c, decoded.value, Affine(decoded.value.x, y));
    return !small;
  }
}
