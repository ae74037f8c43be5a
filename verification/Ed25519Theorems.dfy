/** Every signature the tool makes verifies under the key it derives, given the
    number theory of the curve's parameters. */
module Ed25519Theorems {
  import opened Wrappers
  import opened Modular
  import opened Edwards
  import opened EdwardsGroup
  import opened Multiples
  import opened Ed25519

  // ---------------------------------------------------------------- square roots

  lemma PositivePowerOfZero(m: nat, b: int, e: nat)
    requires m > 0 && e > 0 && Eq(m, b, 0)
    ensures Eq(m, Pow(b, e), 0)
  {
    EqMul(m, b, 0, Pow(b, e - 1), Pow(b, e - 1));
  }

  /** For q = s^2 the power (m + 3) / 8 of q squares to q or -q. */
  lemma RootUpToSign(m: nat, q: int, s: int)
    requires m % 8 == 5 && Fermat(m) && Eq(m, q, s * s)
    ensures var x := Pow(q, (m + 3) / 8);
            Eq(m, x * x, q) || Eq(m, x * x, -q)
  {
    var e := (m + 3) / 8;
    var x := Pow(q, e);
    if Eq(m, s, 0) {
      RootOfZero(m, q, s, e);
    } else {
      var half := (m - 1) / 2;
      assert 4 * e == 2 + half && 2 * half == m - 1;
      HalfPowerIsOne(m, q, s, half);
      FourthPower(q, e);
      PowAdd(q, 2, half);
      SecondPower(q);
      hide *;
      EqSelf(m, q * q);
      EqMul(m, q * q, q * q, Pow(q, half), 1);
      EqualSquares(m, x * x, q);
    }
  }

  lemma SecondPower(q: int)
    ensures Pow(q, 2) == q * q
  {
    assert Pow(q, 2) == q * Pow(q, 1) == q * (q * Pow(q, 0));
  }

  lemma RootOfZero(m: nat, q: int, s: int, e: nat)
    requires m > 0 && e > 0 && Eq(m, q, s * s) && Eq(m, s, 0)
    ensures Eq(m, Pow(q, e) * Pow(q, e), q)
  {
    hide *;
    var x := Pow(q, e);
    EqMul(m, s, 0, s, 0);
    EqTrans(m, q, s * s, 0);
    PositivePowerOfZero(m, q, e);
    EqMul(m, x, 0, x, 0);
    EqSym(m, q, 0);
    EqTrans(m, x * x, 0, q);
  }

  lemma HalfPowerIsOne(m: nat, q: int, s: int, half: nat)
    requires m > 0 && 2 * half == m - 1 && Fermat(m) && Eq(m, q, s * s) && !Eq(m, s, 0)
    ensures Eq(m, Pow(q, half), 1)
  {
    EqPow(m, q, s * s, half);
    PowOfSquare(s, half);
    assert Eq(m, Pow(s, m - 1), 1);
    EqTrans(m, Pow(q, half), Pow(s, m - 1), 1);
  }

  lemma FourthPower(q: int, e: nat)
    ensures (Pow(q, e) * Pow(q, e)) * (Pow(q, e) * Pow(q, e)) == Pow(q, 4 * e)
  {
    PowAdd(q, e, e);
    PowAdd(q, 2 * e, 2 * e);
  }

  /** On the curve the denominator d y^2 + 1 is not zero. */
  lemma DenominatorOfX(c: Curve, y: int)
    requires Sound(c)
    ensures !Eq(c.m, c.d * y * y + 1, 0)
  {
    var m := c.m;
    if Eq(m, c.d * y * y + 1, 0) {
      assert c.d * y * y == c.d * (y * y);
      EqAdd(m, c.d * (y * y) + 1, 0, 1, 1);
      assert Eq(m, c.d * (y * y), -1);
      EqSym(m, c.d * (y * y), -1);
      EqTrans(m, c.i * c.i, -1, c.d * (y * y));
      NotDTimesASquare(c, c.i, y);
      ZeroTimes(m, y, y);
      ZeroTimes(m, c.d, y * y);
      EqTrans(m, -1, c.d * (y * y), 0);
      OneIsNotZero(m);
    }
  }

  /** x^2 = (y^2 - 1) / (d y^2 + 1) on the curve. */
  lemma SquareOfX(c: Curve, a: Affine)
    requires Sound(c) && CurveEquation(c, a.x, a.y)
    ensures Eq(c.m, (a.y * a.y - 1) * Inv(c.m, c.d * a.y * a.y + 1), a.x * a.x)
  {
    hide *;
    SoundModulus(c);
    var m, k, xx, yy := c.m, c.d * a.y * a.y + 1, a.x * a.x, a.y * a.y;
    var i := Inv(m, k);
    DenominatorOfX(c, a.y);
    InvIsInverse(m, k);
    LessOneEquation(c, a);
    EqSelf(m, i);
    EqSelf(m, xx);
    EqMul(m, yy - 1, k * xx, i, i);
    assert (k * xx) * i == (k * i) * xx;
    EqMul(m, k * i, 1, xx, xx);
    EqTrans(m, (yy - 1) * i, (k * i) * xx, xx);
  }

  lemma SoundModulus(c: Curve)
    requires Sound(c)
    ensures c.m > 2 && Fermat(c.m)
  {
  }

  /** y^2 - x^2 = 1 + d x^2 y^2, so y^2 - 1 = (d y^2 + 1) x^2. */
  lemma LessOneEquation(c: Curve, a: Affine)
    requires c.m > 0 && CurveEquation(c, a.x, a.y)
    ensures Eq(c.m, a.y * a.y - 1, (c.d * a.y * a.y + 1) * (a.x * a.x))
  {
    var xx, yy := a.x * a.x, a.y * a.y;
    EqSelf(c.m, xx - 1);
    EqAdd(c.m, yy - xx, 1 + c.d * (a.x * a.y) * (a.x * a.y), xx - 1, xx - 1);
    hide Eq;
    TimesOneMore(c.d, a.x, a.y);
  }

  lemma TimesOneMore(d: int, x: int, y: int)
    ensures (d * y * y + 1) * (x * x) == 1 + d * (x * y) * (x * y) + (x * x - 1)
  {
    Regrouped(d, y, y);
    Regrouped(d, x * y, x * y);
    SquareOfProduct(x, y);
    Regrouped(d, y * y, x * x);
  }

  function EvenOf(m: nat, x: int): int {
    if x % 2 == 0 then x else m - x
  }

  /** The recovered x is the even one of the two square roots. */
  lemma XrecoverFindsTheRoot(c: Curve, a: Affine)
    requires Sound(c) && c.m % 8 == 5 && OnCurve(c, a)
    ensures Xrecover(c, a.y) == EvenOf(c.m, a.x)
  {
    hide *;
    SoundPoint(c, a);
    SquareOfX(c, a);
    XrecoverIs(c, a.y);
    RootFound(c.m, c.i, (a.y * a.y - 1) * Inv(c.m, c.d * a.y * a.y + 1), a.x);
  }

  lemma RootFound(m: nat, i: int, q: int, s: int)
    requires m % 8 == 5 && Fermat(m) && Eq(m, i * i, -1) && Eq(m, q, s * s) && 0 <= s < m
    ensures EvenOf(m, Candidate(m, i, q, Pow(q, (m + 3) / 8))) == EvenOf(m, s)
  {
    hide *;
    var power := Pow(q, (m + 3) / 8);
    RootUpToSign(m, q, s);
    CandidateSquares(m, i, q, power);
    var x := Candidate(m, i, q, power);
    EqTrans(m, x * x, q, s * s);
    EqualSquares(m, x, s);
    RootIsOneOfTwo(m, x, s);
    EvenRoot(m, x, s);
  }

  lemma SoundPoint(c: Curve, a: Affine)
    requires Sound(c) && OnCurve(c, a)
    ensures c.m > 2 && Fermat(c.m) && Eq(c.m, c.i * c.i, -1) && 0 <= a.x < c.m && CurveEquation(c, a.x, a.y)
  {
  }

  lemma XrecoverIs(c: Curve, y: int)
    requires c.m > 1
    ensures var q := (y * y - 1) * Inv(c.m, c.d * y * y + 1);
            Xrecover(c, y) == EvenOf(c.m, Candidate(c.m, c.i, q, Pow(q, (c.m + 3) / 8)))
  {
    hide Inv, Pow;
  }

  lemma EvenRoot(m: nat, x: int, s: int)
    requires m % 2 == 1 && (x == s || x == m - s || (x == 0 && s == 0))
    ensures EvenOf(m, x) == EvenOf(m, s)
  {
  }

  /** Of the power and the power times i, the one whose square is q. */
  function Candidate(m: nat, i: int, q: int, power: int): int
    requires m > 0
  {
    var root := power % m;
    if (root * root - q) % m != 0 then (root * i) % m else root
  }

  lemma CandidateSquares(m: nat, i: int, q: int, power: int)
    requires m > 0 && Eq(m, i * i, -1) && (Eq(m, power * power, q) || Eq(m, power * power, -q))
    ensures var x := Candidate(m, i, q, power); Eq(m, x * x, q) && 0 <= x < m
  {
    var root := power % m;
    EqMod(m, power);
    EqMul(m, root, power, root, power);
    EqMod(m, root * i);
    if (root * root - q) % m != 0 {
      if Eq(m, power * power, q) {
        EqTrans(m, root * root, power * power, q);
      }
      EqTrans(m, root * root, power * power, -q);
      TimesRootOfMinusOne(m, root, i, q);
    }
  }

  lemma TimesRootOfMinusOne(m: nat, root: int, i: int, q: int)
    requires m > 0 && Eq(m, root * root, -q) && Eq(m, i * i, -1)
    ensures Eq(m, ((root * i) % m) * ((root * i) % m), q)
  {
    EqMod(m, root * i);
    var x := (root * i) % m;
    EqMul(m, x, root * i, x, root * i);
    EqMul(m, root * root, -q, i * i, -1);
    Swap(root, i, root, i);
    EqTrans(m, x * x, (root * root) * (i * i), q);
  }

  lemma RootIsOneOfTwo(m: nat, x: int, s: int)
    requires m > 0 && 0 <= x < m && 0 <= s < m && (Eq(m, x, s) || Eq(m, x, -s))
    ensures x == s || x == m - s || (x == 0 && s == 0)
  {
    if Eq(m, x, s) {
      EqSmall(m, x, s);
    } else if s == 0 {
      EqSmall(m, x, 0);
    } else {
      EqOfMultiple(m, -s, m - s, -1);
      EqTrans(m, x, -s, m - s);
      EqSmall(m, x, m - s);
    }
  }

  // ---------------------------------------------------------------- encodings

  predicate Fits(c: Curve) {
    c.m < TWO_255 && c.m % 8 == 5
  }

  /** What the tool relies on: a modulus that passes Fermat's theorem, a square
      root of -1, a d that has none, and a base point on the curve of the stated
      order. */
  ghost predicate Suits(g: Params) {
    && Fits(g.curve) && Sound(g.curve) && OnCurve(g.curve, g.base)
    && 0 < g.order < TWO_255 && Multiple(g.curve, g.order, g.base) == ZERO
  }

  /** The tool's parameters have the sizes asked for: p = 2^255 - 19 is 5 modulo 8. */
  lemma ToolFits()
    ensures TOOL.curve.m == P == TWO_255 - 19 && TOOL.order == L < TWO_255 && Fits(TOOL.curve) && Usable(TOOL)
  {
    hide Xrecover, Pow, Inv;
  }

  lemma SmallIsNotZero(m: nat, a: int)
    requires 0 < a < m
    ensures !Eq(m, a, 0)
  {
    if Eq(m, a, 0) {
      EqSmall(m, a, 0);
    }
  }

  /** The curve's d is -121665/121666, the base point's y is 4/5, and its order
      2^252 + 27742317777372353535851937790883648493. */
  lemma ToolConstants()
    requires Fermat(P)
    ensures Eq(P, D * 121666, -121665) && Eq(P, BASE_Y * 5, 4)
    ensures 4 * (L - 27742317777372353535851937790883648493) == TWO_254
  {
    SmallIsNotZero(P, 121666);
    SmallIsNotZero(P, 5);
    hide Fermat, Eq, Pow;
    QuotientTimes(P, -121665, 121666);
    QuotientTimes(P, 4, 5);
  }

  // ---------------------------------------------------------------- the root of -1

  ghost predicate HasRoot(m: nat, q: int)
    requires m > 0
  {
    exists s: int :: Eq(m, s * s, q)
  }

  lemma FermatMeans(m: nat, z: int)
    requires m > 0 && Fermat(m) && !Eq(m, z, 0)
    ensures Eq(m, Pow(z, m - 1), 1)
  {
  }

  lemma RootIsNotZero(m: nat, s: int)
    requires m > 2 && Eq(m, s * s, 2)
    ensures !Eq(m, s, 0)
  {
    hide *;
    SmallIsNotZero(m, 2);
    if Eq(m, s, 0) {
      ZeroTimes(m, s, s);
      EqSym(m, s * s, 2);
      EqTrans(m, 2, s * s, 0);
    }
  }

  /** For w = 2^((m - 1) / 4), its square squares to 1. */
  lemma SquareIsOneOrMinusOne(m: nat)
    requires m % 8 == 5 && Fermat(m)
    ensures var w := Pow(2, (m - 1) / 4); Eq(m, w * w, 1) || Eq(m, w * w, -1)
  {
    SmallIsNotZero(m, 2);
    FermatMeans(m, 2);
    hide *;
    var k := (m - 1) / 4;
    assert 4 * k == m - 1;
    PowAdd(2, k, k);
    PowAdd(2, 2 * k, 2 * k);
    var w := Pow(2, k);
    assert 2 * k + 2 * k == m - 1 && k + k == 2 * k && 1 * 1 == 1;
    EqualSquares(m, w * w, 1);
  }

  lemma EvenPower(m: nat, s: int, q: int, e: nat)
    requires m > 0 && Eq(m, s * s, q)
    ensures Eq(m, Pow(q, e), Pow(s, 2 * e))
  {
    EqPow(m, s * s, q, e);
    PowOfSquare(s, e);
    hide *;
    EqSym(m, Pow(s * s, e), Pow(q, e));
  }

  lemma PowDoubled(b: int, k: nat)
    ensures Pow(b, 2 * k) == Pow(b, k) * Pow(b, k)
  {
    PowAdd(b, k, k);
    hide *;
    assert k + k == 2 * k;
  }

  /** If 2 is a square, that is 1. */
  lemma RootOfTwo(m: nat, s: int)
    requires m % 8 == 5 && Fermat(m) && Eq(m, s * s, 2)
    ensures var w := Pow(2, (m - 1) / 4); Eq(m, w * w, 1)
  {
    hide *;
    RootIsNotZero(m, s);
    FermatMeans(m, s);
    var k := (m - 1) / 4;
    PowDoubled(2, k);
    EvenPower(m, s, 2, 2 * k);
    assert 2 * (2 * k) == m - 1;
    EqTrans(m, Pow(2, 2 * k), Pow(s, m - 1), 1);
  }

  /** If that is 1, and -1 is a square, so is 2. */
  lemma TwoIsASquare(m: nat, e: int)
    requires m % 8 == 5 && Fermat(m) && Eq(m, e * e, -1)
    requires var w := Pow(2, (m - 1) / 4); Eq(m, w * w, 1)
    ensures HasRoot(m, 2)
  {
    var k, j := (m - 1) / 4, (m + 3) / 8;
    assert j + j == k + 1;
    var w, r := Pow(2, k), Pow(2, j);
    assert r * r == 2 * w by {
      hide *;
      PowAdd(2, j, j);
      PowAdd(2, 1, k);
      assert 1 + k == j + j;
      OneFactor(2);
    }
    assert 1 * 1 == 1;
    EqualSquares(m, w, 1);
    EqSelf(m, 2);
    if Eq(m, w, 1) {
      EqMul(m, 2, 2, w, 1);
      assert Eq(m, r * r, 2);
    } else {
      EqMul(m, 2, 2, w, -1);
      RootTimes(m, e, r, 2);
      assert Eq(m, (e * r) * (e * r), 2);
    }
  }

  lemma OneFactor(b: int)
    ensures Pow(b, 1) == b
  {
    assert Pow(b, 0) == 1;
  }

  lemma RootTimes(m: nat, e: int, r: int, q: int)
    requires m > 0 && Eq(m, e * e, -1) && Eq(m, r * r, -q)
    ensures Eq(m, (e * r) * (e * r), q)
  {
    EqMul(m, e * e, -1, r * r, -q);
    assert (e * e) * (r * r) == (e * r) * (e * r) && -1 * -q == q;
  }

  /** Where -1 is a square at all, the number the tool computes is a root of it
      exactly when 2 is not a square. */
  lemma RootOfMinusOneIff(m: nat, e: int)
    requires m % 8 == 5 && Fermat(m) && Eq(m, e * e, -1)
    ensures var i := Pow(2, (m - 1) / 4) % m;
            Eq(m, i * i, -1) <==> !HasRoot(m, 2)
  {
    var w := Pow(2, (m - 1) / 4);
    var i := w % m;
    EqMod(m, w);
    EqMul(m, i, w, i, w);
    EqSym(m, i * i, w * w);
    SquareIsOneOrMinusOne(m);
    if HasRoot(m, 2) {
      var s :| Eq(m, s * s, 2);
      RootOfTwo(m, s);
      hide *;
      if Eq(m, i * i, -1) {
        EqTrans(m, w * w, i * i, -1);
        OneIsNotMinusOne(m, w * w);
      }
    } else {
      if Eq(m, w * w, 1) {
        TwoIsASquare(m, e);
      }
      hide *;
      EqTrans(m, i * i, w * w, -1);
    }
  }

  lemma OneIsNotMinusOne(m: nat, a: int)
    requires m % 8 == 5 && Eq(m, a, 1)
    ensures !Eq(m, a, -1)
  {
    SmallIsNotZero(m, 2);
    if Eq(m, a, -1) {
      EqSym(m, a, 1);
      EqTrans(m, 1, a, -1);
    }
  }

  /** The tool's root of -1, then, is one where 2 is not a square modulo p. */
  lemma ToolRoot(e: int)
    requires Fermat(P) && Eq(P, e * e, -1)
    ensures Eq(P, I * I, -1) <==> !HasRoot(P, 2)
  {
    assert P % 8 == 5;
    assert I == Pow(2, (P - 1) / 4) % P;
    hide *;
    RootOfMinusOneIff(P, e);
  }

  /** Compressing a point encodes what it stands for. */
  lemma CompressIsEncode(c: Curve, p: Point, a: Affine)
    requires Sound(c) && OnCurve(c, a) && Represents(c, p, a)
    ensures Compress(c, p) == Encode(a)
  {
    var zi := Inv(c.m, p.z);
    InvIsInverse(c.m, p.z);
    Normalised(c.m, p.x, a.x, p.z, zi);
    Normalised(c.m, p.y, a.y, p.z, zi);
  }

  lemma Normalised(m: nat, x: int, ax: int, z: int, zi: int)
    requires m > 0 && Eq(m, x, ax * z) && Eq(m, z * zi, 1) && 0 <= ax < m
    ensures (x * zi) % m == ax
  {
    EqMul(m, x, ax * z, zi, zi);
    EqMul(m, ax, ax, z * zi, 1);
    assert (ax * z) * zi == ax * (z * zi);
    EqTrans(m, x * zi, ax * (z * zi), ax);
    EqMod(m, x * zi);
    EqTrans(m, (x * zi) % m, x * zi, ax);
    EqSmall(m, (x * zi) % m, ax);
  }

  lemma EncodedNumber(a: Affine)
    requires 0 <= a.y < TWO_255
    ensures FromBytes(Encode(a)) == a.y + (a.x % 2) * TWO_255
    ensures FromBytes(Encode(a)) % TWO_255 == a.y && (FromBytes(Encode(a)) / TWO_255) % 2 == a.x % 2
  {
    ThirtyTwoBytes();
    BytesRoundTrip(a.y + (a.x % 2) * TWO_255, 32);
    TopBit(a.y, a.x % 2);
  }

  lemma TopBit(y: nat, bit: nat)
    requires y < TWO_255 && bit < 2
    ensures var n := y + bit * TWO_255;
            n < 2 * TWO_255 && n % TWO_255 == y && (n / TWO_255) % 2 == bit
  {
    if bit == 0 {
      assert y + bit * TWO_255 == y;
    } else {
      assert y + bit * TWO_255 == y + TWO_255;
    }
  }

  /** Decompressing an encoding gives back the point encoded. */
  lemma DecompressIsDecode(c: Curve, a: Affine)
    requires Fits(c) && Sound(c) && OnCurve(c, a)
    ensures Represents(c, Decompress(c, Encode(a)), a)
  {
    hide Sound, Eq, Represents, CurveEquation, Encode, Xrecover;
    EncodedNumber(a);
    XrecoverFindsTheRoot(c, a);
    SignChosen(c.m, a.x);
    StandsForItself(c, a);
    assert Decompress(c, Encode(a)) == Point(a.x, a.y, 1, (a.x * a.y) % c.m);
  }

  lemma SignChosen(m: nat, x: int)
    requires 0 <= x < m && m % 2 == 1
    ensures EvenOf(m, x) % 2 == 0
    ensures (if EvenOf(m, x) % 2 != x % 2 then m - EvenOf(m, x) else EvenOf(m, x)) == x
  {
  }

  /** A point with Z = 1. */
  lemma StandsForItself(c: Curve, a: Affine)
    requires c.m > 2
    ensures Represents(c, Point(a.x, a.y, 1, (a.x * a.y) % c.m), a)
  {
    OneIsNotZero(c.m);
    EqMod(c.m, a.x * a.y);
    assert a.x * 1 == a.x && a.y * 1 == a.y && a.x * a.y * 1 == a.x * a.y;
  }

  // ---------------------------------------------------------------- the equation of a signature

  lemma TimesStandsFor(c: Curve, n: nat, p: Point, a: Affine)
    requires Sound(c) && OnCurve(c, a) && Represents(c, p, a)
    ensures Represents(c, Times(c, n, p), Multiple(c, n, a)) && OnCurve(c, Multiple(c, n, a))
  {
    hide OnCurve, Represents, Multiple, Sound, DoubleAndAdd;
    ScalarMultIsMultiple(c, p, n, a);
    MultipleOnCurve(c, n, a);
  }

  /** [(r + k a) mod L] B = [r] B + [k] [a] B. */
  lemma SignatureEquation(g: Params, r: nat, k: nat, a: nat)
    requires Suits(g)
    ensures Multiple(g.curve, (r + k * a) % g.order, g.base)
            == Add(g.curve, Multiple(g.curve, r, g.base), Multiple(g.curve, k, Multiple(g.curve, a, g.base)))
  {
    hide OnCurve, Multiple, Sound, Add;
    MultipleOfOrder(g.curve, r + k * a, g.order, g.base);
    MultipleAdds(g.curve, r, k * a, g.base);
    MultipleOfMultiple(g.curve, k, a, g.base);
  }

  /** The two sides verification compares. */
  lemma SidesAgree(g: Params, r: nat, k: nat, a: nat, rp: Point, ap: Point)
    requires Suits(g)
    requires Represents(g.curve, rp, Multiple(g.curve, r, g.base)) && Represents(g.curve, ap, Multiple(g.curve, a, g.base))
    ensures Compress(g.curve, Times(g.curve, (r + k * a) % g.order, BasePoint(g)))
            == Compress(g.curve, EdwardsAdd(g.curve, rp, Times(g.curve, k, ap)))
  {
    hide Add, OnCurve, Sound, EdwardsAdd, Represents, Compress, Encode, Multiple, Times;
    var c, s := g.curve, (r + k * a) % g.order;
    var ra, aa := Multiple(c, r, g.base), Multiple(c, a, g.base);
    StandsForItself(c, g.base);
    MultipleOnCurve(c, r, g.base);
    MultipleOnCurve(c, a, g.base);
    TimesStandsFor(c, s, BasePoint(g), g.base);
    TimesStandsFor(c, k, ap, aa);
    AddRepresents(c, rp, Times(c, k, ap), ra, Multiple(c, k, aa));
    SignatureEquation(g, r, k, a);
    CompressIsEncode(c, Times(c, s, BasePoint(g)), Multiple(c, s, g.base));
    CompressIsEncode(c, EdwardsAdd(c, rp, Times(c, k, ap)), Multiple(c, s, g.base));
  }

  /** Every signature verifies, for all seeds and messages and any digest. */
  lemma SignatureVerifies(g: Params, h: Sha512, seed: Bytes, message: Bytes)
    requires Suits(g)
    ensures Verify(g, h, PublicKey(g, h, seed), message, Sign(g, h, seed, message))
  {
    hide *;
    SuitsIsUsable(g);
    var c := g.curve;
    var (prefix, a) := SecretExpand(h, seed);
    var public := PublicKey(g, h, seed);
    var r := FromBytes(h(prefix + message)) % g.order;
    var rp := Compress(c, Times(c, r, BasePoint(g)));
    var k := FromBytes(h(rp + public + message)) % g.order;
    SignIs(g, h, seed, message);
    DecompressCompressed(g, r);
    DecompressCompressed(g, a);
    SidesAgree(g, r, k, a, Decompress(c, rp), Decompress(c, public));
    CompressedWidth(c, Times(c, r, BasePoint(g)));
    VerifyFromSides(g, h, public, message, rp, (r + k * a) % g.order, k);
  }

  lemma SuitsIsUsable(g: Params)
    requires Suits(g)
    ensures Usable(g) && 0 < g.order < TWO_255 && g.curve.m > 1
  {
    hide Fits, OnCurve;
  }

  lemma SignIs(g: Params, h: Sha512, seed: Bytes, message: Bytes)
    requires Usable(g)
    ensures var (prefix, a) := SecretExpand(h, seed);
            var public := PublicKey(g, h, seed);
            var r := FromBytes(h(prefix + message)) % g.order;
            var rp := Compress(g.curve, Times(g.curve, r, BasePoint(g)));
            var k := FromBytes(h(rp + public + message)) % g.order;
            && public == Compress(g.curve, Times(g.curve, a, BasePoint(g)))
            && Sign(g, h, seed, message) == rp + ToBytes((r + k * a) % g.order, 32)
  {
    hide SecretExpand, FromBytes, ToBytes, Compress, Times, BasePoint;
  }

  lemma CompressedWidth(c: Curve, p: Point)
    requires c.m > 1
    ensures |Compress(c, p)| == 32
  {
  }

  lemma VerifyFromSides(g: Params, h: Sha512, public: Bytes, message: Bytes, rp: Bytes, s: nat, k: nat)
    requires Usable(g) && g.order < TWO_255
    requires |rp| == 32 && s < g.order && k == FromBytes(h(rp + public + message)) % g.order
    requires Compress(g.curve, Times(g.curve, s, BasePoint(g)))
             == Compress(g.curve, EdwardsAdd(g.curve, Decompress(g.curve, rp), Times(g.curve, k, Decompress(g.curve, public))))
    ensures Verify(g, h, public, message, rp + ToBytes(s, 32))
  {
    hide EdwardsAdd, Times, Compress, Decompress, BasePoint;
    SignatureParts(rp, s);
  }

  lemma SignatureParts(rp: Bytes, s: nat)
    requires |rp| == 32 && s < TWO_255
    ensures var signature := rp + ToBytes(s, 32);
            |signature| == 64 && signature[..32] == rp && FromBytes(signature[32..]) == s
  {
    ThirtyTwoBytes();
    BytesRoundTrip(s, 32);
    assert (rp + ToBytes(s, 32))[32..] == ToBytes(s, 32);
  }

  lemma DecompressCompressed(g: Params, n: nat)
    requires Suits(g)
    ensures var c := g.curve;
            Represents(c, Decompress(c, Compress(c, Times(c, n, BasePoint(g)))), Multiple(c, n, g.base))
  {
    hide Sound, OnCurve, Represents, Decompress, Compress, Encode, Multiple, Times;
    var c := g.curve;
    StandsForItself(c, g.base);
    TimesStandsFor(c, n, BasePoint(g), g.base);
    CompressIsEncode(c, Times(c, n, BasePoint(g)), Multiple(c, n, g.base));
    DecompressIsDecode(c, Multiple(c, n, g.base));
  }

  // ---------------------------------------------------------------- what is signed and what is accepted

  lemma TimesEncoded(g: Params, n: nat)
    requires Suits(g)
    ensures Usable(g) && Compress(g.curve, Times(g.curve, n, BasePoint(g))) == Encode(Multiple(g.curve, n, g.base))
    ensures OnCurve(g.curve, Multiple(g.curve, n, g.base)) && 0 <= Multiple(g.curve, n, g.base).y
  {
    SuitsIsUsable(g);
    SuitsMeans(g);
    MultipleIsReduced(g, n);
    hide *;
    var c := g.curve;
    BasePointIs(g);
    StandsForItself(c, g.base);
    TimesStandsFor(c, n, BasePoint(g), g.base);
    CompressIsEncode(c, Times(c, n, BasePoint(g)), Multiple(c, n, g.base));
  }

  lemma MultipleIsReduced(g: Params, n: nat)
    requires Suits(g)
    ensures OnCurve(g.curve, Multiple(g.curve, n, g.base)) && 0 <= Multiple(g.curve, n, g.base).y
  {
    MultipleOnCurve(g.curve, n, g.base);
  }

  lemma SuitsMeans(g: Params)
    requires Suits(g)
    ensures Sound(g.curve) && g.curve.m > 2 && Fits(g.curve) && OnCurve(g.curve, g.base)
  {
    hide Fits, OnCurve;
  }

  lemma BasePointIs(g: Params)
    requires Usable(g)
    ensures BasePoint(g) == Point(g.base.x, g.base.y, 1, (g.base.x * g.base.y) % g.curve.m)
  {
  }

  /** The public key encodes [a] B. */
  lemma PublicKeyIs(g: Params, h: Sha512, seed: Bytes)
    requires Suits(g)
    ensures PublicKey(g, h, seed) == Encode(Multiple(g.curve, SecretExpand(h, seed).1, g.base))
  {
    TimesEncoded(g, SecretExpand(h, seed).1);
    hide Compress, Times, BasePoint, SecretExpand, Multiple, Encode;
  }

  /** A signature is the encoding of [r] B and the number (r + k a) mod L, for r
      from the prefix and the message and k from that encoding, the public key
      and the message. */
  lemma SignatureIs(g: Params, h: Sha512, seed: Bytes, message: Bytes)
    requires Suits(g)
    ensures var (prefix, a) := SecretExpand(h, seed);
            var r := FromBytes(h(prefix + message)) % g.order;
            var point := Encode(Multiple(g.curve, r, g.base));
            var k := FromBytes(h(point + PublicKey(g, h, seed) + message)) % g.order;
            var signature := Sign(g, h, seed, message);
            && |signature| == 64 && signature[..32] == point && FromBytes(signature[32..]) == (r + k * a) % g.order
  {
    hide *;
    SuitsIsUsable(g);
    var (prefix, a) := SecretExpand(h, seed);
    var r := FromBytes(h(prefix + message)) % g.order;
    TimesEncoded(g, r);
    var point := Encode(Multiple(g.curve, r, g.base));
    var k := FromBytes(h(point + PublicKey(g, h, seed) + message)) % g.order;
    SignIs(g, h, seed, message);
    CompressedWidth(g.curve, Times(g.curve, r, BasePoint(g)));
    SignatureParts(point, (r + k * a) % g.order);
  }

  /** Two points of the curve with one encoding are one point. */
  lemma EncodeIsInjective(c: Curve, a: Affine, b: Affine)
    requires Fits(c) && Sound(c) && OnCurve(c, a) && OnCurve(c, b) && Encode(a) == Encode(b)
    ensures a == b
  {
    DecompressIsDecode(c, a);
    DecompressIsDecode(c, b);
    RepresentsOne(c, Decompress(c, Encode(a)), a, b);
  }

  lemma RepresentsOne(c: Curve, p: Point, a: Affine, b: Affine)
    requires Sound(c) && OnCurve(c, a) && OnCurve(c, b) && Represents(c, p, a) && Represents(c, p, b)
    ensures a == b
  {
    var m := c.m;
    SameFactor(m, p.z, p.x, a.x, b.x);
    SameFactor(m, p.z, p.y, a.y, b.y);
  }

  lemma SameFactor(m: nat, z: int, p: int, a: int, b: int)
    requires m > 1 && Fermat(m) && !Eq(m, z, 0) && Eq(m, p, a * z) && Eq(m, p, b * z)
    requires 0 <= a < m && 0 <= b < m
    ensures a == b
  {
    hide *;
    EqSym(m, p, a * z);
    EqTrans(m, a * z, p, b * z);
    assert a * z == z * a && b * z == z * b;
    Cancel(m, z, a, b);
    EqSmall(m, a, b);
  }

  /** Verification accepts exactly the signatures whose equation holds, for a key
      and a first half that encode points of the curve; and only 64 bytes. */
  lemma VerifyIff(g: Params, h: Sha512, key: Affine, point: Affine, number: Bytes, message: Bytes)
    requires Suits(g) && OnCurve(g.curve, key) && OnCurve(g.curve, point) && |number| == 32
    ensures var (s, k) := (FromBytes(number), FromBytes(h(Encode(point) + Encode(key) + message)) % g.order);
            Verify(g, h, Encode(key), message, Encode(point) + number) <==>
            && s < g.order
            && Multiple(g.curve, s, g.base) == Add(g.curve, point, Multiple(g.curve, k, key))
  {
    SuitsIsUsable(g);
    SuitsMeans(g);
    hide *;
    var c, s, k := g.curve, FromBytes(number), FromBytes(h(Encode(point) + Encode(key) + message)) % g.order;
    EncodedWidth(point);
    VerifyIs(g, h, Encode(key), message, Encode(point), number);
    TimesEncoded(g, s);
    DecompressIsDecode(c, point);
    DecompressIsDecode(c, key);
    TimesStandsFor(c, k, Decompress(c, Encode(key)), key);
    var other := Add(c, point, Multiple(c, k, key));
    AddRepresents(c, Decompress(c, Encode(point)), Times(c, k, Decompress(c, Encode(key))), point, Multiple(c, k, key));
    AddOnCurve(c, point, Multiple(c, k, key));
    CompressIsEncode(c, EdwardsAdd(c, Decompress(c, Encode(point)), Times(c, k, Decompress(c, Encode(key)))), other);
    if Encode(Multiple(c, s, g.base)) == Encode(other) {
      EncodeIsInjective(c, Multiple(c, s, g.base), other);
    }
  }

  lemma EncodedWidth(a: Affine)
    requires 0 <= a.y
    ensures |Encode(a)| == 32
  {
  }

  lemma VerifyIs(g: Params, h: Sha512, public: Bytes, message: Bytes, rp: Bytes, number: Bytes)
    requires Usable(g) && |rp| == 32 && |number| == 32
    ensures var (s, k) := (FromBytes(number), FromBytes(h(rp + public + message)) % g.order);
            Verify(g, h, public, message, rp + number) <==>
            && s < g.order
            && Compress(g.curve, Times(g.curve, s, BasePoint(g)))
               == Compress(g.curve, EdwardsAdd(g.curve, Decompress(g.curve, rp), Times(g.curve, k, Decompress(g.curve, public))))
  {
    hide FromBytes, Compress, Times, BasePoint, Decompress, EdwardsAdd;
    assert (rp + number)[..32] == rp && (rp + number)[32..] == number;
  }

  lemma OnlySixtyFourBytes(g: Params, h: Sha512, public: Bytes, message: Bytes, signature: Bytes)
    requires Usable(g) && |signature| != 64
    ensures !Verify(g, h, public, message, signature)
  {
  }
}
