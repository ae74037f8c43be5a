/** The twisted Edwards curve -x^2 + y^2 = 1 + d x^2 y^2 over the integers
    modulo m: the addition law, in affine and in extended coordinates. */
module Edwards {
  import opened Modular

  /** A curve whose modulus passes Fermat's theorem, on which -1 has the square
      root i and d has none. */
  datatype Curve = Curve(m: nat, d: int, i: int)

  ghost predicate Sound(c: Curve) {
    && c.m > 2 && c.m % 2 == 1 && Fermat(c.m)
    && Eq(c.m, c.i * c.i, -1)
    && forall s: int :: !Eq(c.m, s * s, c.d)
  }

  datatype Affine = Affine(x: int, y: int)

  /** Extended coordinates: x = X/Z, y = Y/Z, x y = T/Z. */
  datatype Point = Point(x: int, y: int, z: int, t: int)

  const ZERO := Affine(0, 1)

  const NEUTRAL := Point(0, 1, 1, 0)

  predicate CurveEquation(c: Curve, x: int, y: int)
    requires c.m > 0
  {
    Eq(c.m, y * y - x * x, 1 + c.d * (x * y) * (x * y))
  }

  predicate OnCurve(c: Curve, a: Affine)
    requires c.m > 0
  {
    0 <= a.x < c.m && 0 <= a.y < c.m && CurveEquation(c, a.x, a.y)
  }

  function Delta(c: Curve, a: Affine, b: Affine): int {
    c.d * (a.x * a.y) * (b.x * b.y)
  }

  function Add(c: Curve, a: Affine, b: Affine): Affine
    requires c.m > 1
  {
    var delta := Delta(c, a, b);
    Affine(((a.x * b.y + a.y * b.x) * Inv(c.m, 1 + delta)) % c.m,
           ((a.y * b.y + a.x * b.x) * Inv(c.m, 1 - delta)) % c.m)
  }

  /** The point `p` stands for `a`. */
  predicate Represents(c: Curve, p: Point, a: Affine)
    requires c.m > 0
  {
    && !Eq(c.m, p.z, 0)
    && Eq(c.m, p.x, a.x * p.z) && Eq(c.m, p.y, a.y * p.z) && Eq(c.m, p.t, a.x * a.y * p.z)
  }

  // ---------------------------------------------------------------- the law never divides by zero

  lemma OneIsNotZero(m: nat)
    requires m > 2
    ensures !Eq(m, 1, 0) && !Eq(m, -1, 0) && (m % 2 == 1 ==> !Eq(m, 2, 0))
  {
    if Eq(m, -1, 0) {
      EqSym(m, -1, 0);
      EqModIff(m, 0, -1);
      EqAdd(m, 0, -1, 1, 1);
      EqModIff(m, 1, 0);
    }
  }

  lemma ProductIsNotZero(m: nat, a: int, b: int)
    requires m > 1 && Fermat(m) && !Eq(m, a, 0) && !Eq(m, b, 0)
    ensures !Eq(m, a * b, 0)
  {
    if Eq(m, a * b, 0) {
      NoZeroDivisors(m, a, b);
    }
  }

  lemma ZeroTimes(m: nat, a: int, b: int)
    requires m > 0 && (Eq(m, a, 0) || Eq(m, b, 0))
    ensures Eq(m, a * b, 0)
  {
    if Eq(m, a, 0) {
      EqMul(m, a, 0, b, b);
    } else {
      EqMul(m, a, a, b, 0);
    }
  }

  /** A square equal to d times the square of something not zero would make d a square. */
  lemma NotDTimesASquare(c: Curve, s: int, t: int)
    requires Sound(c) && Eq(c.m, s * s, c.d * (t * t))
    ensures Eq(c.m, t, 0)
  {
    if !Eq(c.m, t, 0) {
      var m, u := c.m, Inv(c.m, t);
      InvIsInverse(m, t);
      EqMul(m, t * u, 1, t * u, 1);
      EqMul(m, s * s, c.d * (t * t), u * u, u * u);
      EqMul(m, c.d, c.d, (t * u) * (t * u), 1);
      assert (s * s) * (u * u) == (s * u) * (s * u);
      assert (c.d * (t * t)) * (u * u) == c.d * ((t * u) * (t * u));
      EqTrans(m, (s * u) * (s * u), c.d * ((t * u) * (t * u)), c.d);
    }
  }

  lemma SquareWithRoot(m: nat, x: int, y: int, e: int, s: int)
    requires m > 0 && e * e == 1 && Eq(m, s * s, -1)
    ensures Eq(m, (e * y + s * x) * (e * y + s * x), (y * y - x * x) + e * (2 * (s * (x * y))))
  {
    var rest := y * y + e * (2 * (s * (x * y)));
    assert (e * y + s * x) * (e * y + s * x) == (s * s) * (x * x) + (e * e) * (y * y) + e * (2 * (s * (x * y)));
    assert (e * e) * (y * y) == y * y;
    EqMul(m, s * s, -1, x * x, x * x);
    EqAdd(m, (s * s) * (x * x), -1 * (x * x), rest, rest);
    assert -1 * (x * x) + rest == (y * y - x * x) + e * (2 * (s * (x * y)));
  }

  /** With d p q = e: both curve equations give y1^2 - x1^2 = d p^2 (y2^2 - x2^2). */
  lemma ExceptionalEquation(m: nat, d: int, u: int, v: int, p: int, q: int, e: int)
    requires m > 0 && e * e == 1 && Eq(m, d * p * q, e)
    requires Eq(m, u, 1 + d * p * p) && Eq(m, v, 1 + d * q * q)
    ensures Eq(m, u, (d * p * p) * v)
  {
    var f := d * p * q;
    EqMul(m, f, e, f, e);
    EqSym(m, f * f, 1);
    EqAdd(m, 1, f * f, d * p * p, d * p * p);
    EqTrans(m, u, 1 + d * p * p, f * f + d * p * p);
    EqMul(m, d * p * p, d * p * p, v, 1 + d * q * q);
    assert (d * p * p) * (1 + d * q * q) == f * f + d * p * p;
    EqSym(m, (d * p * p) * v, f * f + d * p * p);
    EqTrans(m, u, f * f + d * p * p, (d * p * p) * v);
  }

  /** If d p q were e = 1 or -1: (e y1 + s x1)^2 = d (p (y2 + s x2))^2 for a
      square root s of -1. */
  lemma ExceptionalSquares(c: Curve, a: Affine, b: Affine, e: int, s: int)
    requires c.m > 0 && CurveEquation(c, a.x, a.y) && CurveEquation(c, b.x, b.y)
    requires e * e == 1 && Eq(c.m, Delta(c, a, b), e) && Eq(c.m, s * s, -1)
    ensures var t := (a.x * a.y) * (b.y + s * b.x);
            Eq(c.m, (e * a.y + s * a.x) * (e * a.y + s * a.x), c.d * (t * t))
  {
    var m, d, p, q := c.m, c.d, a.x * a.y, b.x * b.y;
    var u, v, r := a.y * a.y - a.x * a.x, b.y * b.y - b.x * b.x, b.y + s * b.x;
    var left := (e * a.y + s * a.x) * (e * a.y + s * a.x);
    SquareWithRoot(m, a.x, a.y, e, s);
    ExceptionalEquation(m, d, u, v, p, q, e);
    EqSym(m, d * p * q, e);
    EqMul(m, e, d * p * q, 2 * (s * p), 2 * (s * p));
    EqAdd(m, u, (d * p * p) * v, e * (2 * (s * p)), (d * p * q) * (2 * (s * p)));
    var half := (d * p * p) * v + (d * p * q) * (2 * (s * p));
    EqTrans(m, left, u + e * (2 * (s * p)), half);
    SquareWithRoot(m, b.x, b.y, 1, s);
    EqMul(m, d * p * p, d * p * p, r * r, v + 2 * (s * q));
    ExceptionalRegroup(d, p, q, s, v, r);
    EqSym(m, (d * p * p) * (r * r), half);
    EqTrans(m, left, half, (d * p * p) * (r * r));
  }

  lemma ExceptionalRegroup(d: int, p: int, q: int, s: int, v: int, r: int)
    ensures (d * p * p) * (v + 2 * (s * q)) == (d * p * p) * v + (d * p * q) * (2 * (s * p))
    ensures (d * p * p) * (r * r) == d * ((p * r) * (p * r))
  {
    assert (d * p * p) * (2 * (s * q)) == (d * p * q) * (2 * (s * p));
  }

  /** The addition law is complete: its denominators are never zero. */
  lemma Complete(c: Curve, a: Affine, b: Affine, e: int)
    requires Sound(c) && CurveEquation(c, a.x, a.y) && CurveEquation(c, b.x, b.y) && e * e == 1
    ensures !Eq(c.m, Delta(c, a, b), e)
  {
    if Eq(c.m, Delta(c, a, b), e) {
      var m, p, q := c.m, a.x * a.y, b.x * b.y;
      assert e == 1 || e == -1 by {
        assert (e - 1) * (e + 1) == e * e - 1;
      }
      OneIsNotZero(m);
      if Eq(m, p, 0) || Eq(m, q, 0) {
        DeltaIsZero(c, a, b);
        EqSym(m, Delta(c, a, b), e);
        EqTrans(m, e, Delta(c, a, b), 0);
      } else {
        EqMul(m, -1, -1, -1, -1);
        assert (-c.i) * (-c.i) == c.i * c.i;
        ExceptionalSquares(c, a, b, e, c.i);
        ExceptionalSquares(c, a, b, e, -c.i);
        var r, s := b.y + c.i * b.x, b.y + (-c.i) * b.x;
        NotDTimesASquare(c, e * a.y + c.i * a.x, p * r);
        NotDTimesASquare(c, e * a.y + (-c.i) * a.x, p * s);
        NoZeroDivisors(m, p, r);
        NoZeroDivisors(m, p, s);
        EqAdd(m, r, 0, s, 0);
        assert r + s == 2 * b.y;
        NoZeroDivisors(m, 2, b.y);
        ZeroTimes(m, b.x, b.y);
      }
    }
  }

  lemma DeltaIsZero(c: Curve, a: Affine, b: Affine)
    requires c.m > 0 && (Eq(c.m, a.x * a.y, 0) || Eq(c.m, b.x * b.y, 0))
    ensures Eq(c.m, Delta(c, a, b), 0)
  {
    ZeroTimes(c.m, a.x * a.y, b.x * b.y);
    ZeroTimes(c.m, c.d, (a.x * a.y) * (b.x * b.y));
    assert c.d * ((a.x * a.y) * (b.x * b.y)) == Delta(c, a, b);
  }

  lemma DenominatorsAreNotZero(c: Curve, a: Affine, b: Affine)
    requires Sound(c) && CurveEquation(c, a.x, a.y) && CurveEquation(c, b.x, b.y)
    ensures !Eq(c.m, 1 + Delta(c, a, b), 0) && !Eq(c.m, 1 - Delta(c, a, b), 0)
  {
    var delta := Delta(c, a, b);
    Complete(c, a, b, 1);
    Complete(c, a, b, -1);
    if Eq(c.m, 1 + delta, 0) {
      EqAdd(c.m, 1 + delta, 0, 1, 1);
    }
    if Eq(c.m, 1 - delta, 0) {
      EqSym(c.m, 1 - delta, 0);
      EqAdd(c.m, 0, 1 - delta, delta, delta);
    }
  }

  // ---------------------------------------------------------------- the sum is on the curve

  /** The four products the formulas are made of. */
  datatype Parts = Parts(e: int, h: int, f: int, g: int)

  function PartsOf(d: int, p: Point, q: Point): Parts {
    Parts(p.x * q.y + p.y * q.x, p.y * q.y + p.x * q.x, p.z * q.z - d * (p.t * q.t), p.z * q.z + d * (p.t * q.t))
  }

  /** The curve equation in extended coordinates, and the tie between them. */
  predicate Extended(m: nat, d: int, p: Point)
    requires m > 0
  {
    Eq(m, p.y * p.y - p.x * p.x, p.z * p.z + d * (p.t * p.t)) && Eq(m, p.t * p.z, p.x * p.y)
  }

  /** h^2 - e^2 = g^2 + d w^2 for w = Z1 T2 - T1 Z2. */
  lemma DifferenceOfSquares(m: nat, d: int, p: Point, q: Point)
    requires m > 0 && Extended(m, d, p) && Extended(m, d, q)
    ensures var r := PartsOf(d, p, q);
            var w := p.z * q.t - p.t * q.z;
            Eq(m, r.h * r.h - r.e * r.e, r.g * r.g + d * (w * w))
  {
    var r := PartsOf(d, p, q);
    var w := p.z * q.t - p.t * q.z;
    var u, v := p.y * p.y - p.x * p.x, q.y * q.y - q.x * q.x;
    var s, t := p.z * p.z + d * (p.t * p.t), q.z * q.z + d * (q.t * q.t);
    EqMul(m, u, s, v, t);
    assert r.h * r.h - r.e * r.e == u * v;
    ProductOfSums(d, p.z, p.t, q.z, q.t);
  }

  lemma ProductOfSums(d: int, a: int, b: int, x: int, y: int)
    ensures (a * a + d * (b * b)) * (x * x + d * (y * y)) ==
            (a * x + d * (b * y)) * (a * x + d * (b * y)) + d * ((a * y - b * x) * (a * y - b * x))
  {
    ExpandSums(d, a * a, b * b, x * x, y * y);
    SquareOfProduct(a, x);
    SquareOfProduct(b, y);
    SquareOfProduct(a, y);
    SquareOfProduct(b, x);
    assert (a * x) * (b * y) == (a * y) * (b * x);
    CollectSums(d, a * x, b * y, a * y, b * x);
  }

  lemma ExpandSums(d: int, a: int, b: int, x: int, y: int)
    ensures (a + d * b) * (x + d * y) == a * x + d * (a * y) + d * (b * x) + d * d * (b * y)
  {
  }

  lemma CollectSums(d: int, k: int, l: int, u: int, v: int)
    requires k * l == u * v
    ensures k * k + d * (u * u) + d * (v * v) + d * d * (l * l)
            == (k + d * l) * (k + d * l) + d * ((u - v) * (u - v))
  {
    assert (k + d * l) * (k + d * l) == k * k + 2 * d * (k * l) + d * d * (l * l);
    assert d * ((u - v) * (u - v)) == d * (u * u) - 2 * d * (u * v) + d * (v * v);
  }

  /** h (X1 Y2 - Y1 X2) = f (T1 Z2 - Z1 T2). */
  lemma CrossProducts(m: nat, d: int, p: Point, q: Point)
    requires m > 0 && Extended(m, d, p) && Extended(m, d, q)
    ensures var r := PartsOf(d, p, q);
            Eq(m, r.h * (p.x * q.y - p.y * q.x), r.f * (p.t * q.z - p.z * q.t))
  {
    var r := PartsOf(d, p, q);
    var u, v := p.y * p.y - p.x * p.x, q.y * q.y - q.x * q.x;
    var s, t := p.z * p.z + d * (p.t * p.t), q.z * q.z + d * (q.t * q.t);
    EqSym(m, p.t * p.z, p.x * p.y);
    EqSym(m, q.t * q.z, q.x * q.y);
    EqMul(m, p.x * p.y, p.t * p.z, v, t);
    EqMul(m, q.x * q.y, q.t * q.z, u, s);
    EqAdd(m, (p.x * p.y) * v, (p.t * p.z) * t, (q.x * q.y) * u, (q.t * q.z) * s);
    CrossLeft(p.x, p.y, q.x, q.y);
    CrossRight(d, p.z, p.t, q.z, q.t);
  }

  lemma CrossLeft(a: int, b: int, x: int, y: int)
    ensures (b * y + a * x) * (a * y - b * x) == (a * b) * (y * y - x * x) - (x * y) * (b * b - a * a)
  {
    assert (b * y) * (a * y) == (a * b) * (y * y) && (b * y) * (b * x) == (x * y) * (b * b);
    assert (a * x) * (a * y) == (x * y) * (a * a) && (a * x) * (b * x) == (a * b) * (x * x);
  }

  lemma ProductOfDifferences(a: int, b: int, x: int, y: int)
    ensures (a - b) * (x - y) == a * x - a * y - b * x + b * y
  {
  }

  lemma CrossRight(d: int, z: int, t: int, w: int, u: int)
    ensures (t * z) * (w * w + d * (u * u)) - (u * w) * (z * z + d * (t * t)) == (z * w - d * (t * u)) * (t * w - z * u)
  {
    ProductOfDifferences(z * w, d * (t * u), t * w, z * u);
    Spread(t * z, w * w, d * (u * u));
    Spread(u * w, z * z, d * (t * t));
    Swap(t, z, w, w);
    Swap(u, w, z, z);
    Swap(t, z, u, u);
    Swap(u, w, t, t);
    Gather(d, t * z, u * u, t * u, z * u);
    Gather(d, u * w, t * t, t * u, t * w);
  }

  lemma Swap(a: int, b: int, x: int, y: int)
    ensures (a * b) * (x * y) == (a * x) * (b * y)
  {
  }

  lemma Spread(a: int, x: int, y: int)
    ensures a * (x + y) == a * x + a * y
  {
  }

  lemma Gather(d: int, a: int, b: int, x: int, y: int)
    requires a * b == x * y
    ensures a * (d * b) == (d * x) * y
  {
    assert a * (d * b) == d * (a * b);
    assert (d * x) * y == d * (x * y);
  }

  function Gap(p: Point, q: Point): int {
    p.z * q.t - p.t * q.z
  }

  function Twist(p: Point, q: Point): int {
    p.x * q.y - p.y * q.x
  }

  lemma FirstPart(m: nat, d: int, p: Point, q: Point)
    requires m > 0 && Extended(m, d, p) && Extended(m, d, q)
    ensures var (r, w) := (PartsOf(d, p, q), Gap(p, q));
            Eq(m, (r.f * r.f) * (r.h * r.h - r.e * r.e), (r.f * r.f) * (r.g * r.g + d * (w * w)))
  {
    var r, w := PartsOf(d, p, q), Gap(p, q);
    DifferenceOfSquares(m, d, p, q);
    EqMul(m, r.f * r.f, r.f * r.f, r.h * r.h - r.e * r.e, r.g * r.g + d * (w * w));
  }

  lemma SecondPart(m: nat, d: int, p: Point, q: Point)
    requires m > 0 && Extended(m, d, p) && Extended(m, d, q)
    ensures var (r, w, n) := (PartsOf(d, p, q), Gap(p, q), Twist(p, q));
            Eq(m, d * ((r.h * n) * (r.h * n)), d * ((r.f * w) * (r.f * w)))
  {
    var r, w, n := PartsOf(d, p, q), Gap(p, q), Twist(p, q);
    CrossProducts(m, d, p, q);
    var x, y := r.h * n, r.f * w;
    assert r.f * (p.t * q.z - p.z * q.t) == -y by {
      assert p.t * q.z - p.z * q.t == -w;
      assert r.f * (-w) == -(r.f * w);
    }
    EqMul(m, x, -y, x, -y);
    assert (-y) * (-y) == y * y;
    EqMul(m, d, d, x * x, y * y);
  }

  lemma ThirdPart(m: nat, d: int, p: Point, q: Point)
    requires m > 0 && Extended(m, d, p) && Extended(m, d, q)
    ensures var (r, n) := (PartsOf(d, p, q), Twist(p, q));
            Eq(m, (r.g * r.g - r.f * r.f) * (r.h * r.h), (d * (r.e * r.e - n * n)) * (r.h * r.h))
  {
    var r, n := PartsOf(d, p, q), Twist(p, q);
    EqMul(m, p.t * p.z, p.x * p.y, q.t * q.z, q.x * q.y);
    EqMul(m, 4 * d, 4 * d, (p.t * p.z) * (q.t * q.z), (p.x * p.y) * (q.x * q.y));
    GapOfSquares(d, p, q);
    EqMul(m, r.g * r.g - r.f * r.f, d * (r.e * r.e - n * n), r.h * r.h, r.h * r.h);
  }

  /** g^2 h^2 - e^2 f^2 = f^2 g^2 + d e^2 h^2. */
  lemma SumEquation(m: nat, d: int, p: Point, q: Point)
    requires m > 0 && Extended(m, d, p) && Extended(m, d, q)
    ensures var r := PartsOf(d, p, q);
            Eq(m, (r.g * r.h) * (r.g * r.h) - (r.e * r.f) * (r.e * r.f), (r.f * r.g) * (r.f * r.g) + d * ((r.e * r.h) * (r.e * r.h)))
  {
    var r := PartsOf(d, p, q);
    FirstPart(m, d, p, q);
    SecondPart(m, d, p, q);
    ThirdPart(m, d, p, q);
    SumRegroup(m, d, r.e, r.h, r.f, r.g, Gap(p, q), Twist(p, q));
  }

  lemma GapOfSquares(d: int, p: Point, q: Point)
    ensures var r := PartsOf(d, p, q);
            var n := p.x * q.y - p.y * q.x;
            && r.g * r.g - r.f * r.f == 4 * d * ((p.t * p.z) * (q.t * q.z))
            && d * (r.e * r.e - n * n) == 4 * d * ((p.x * p.y) * (q.x * q.y))
  {
    var u, v := p.z * q.z, d * (p.t * q.t);
    assert (u + v) * (u + v) - (u - v) * (u - v) == 4 * (u * v);
    assert u * v == d * ((p.t * p.z) * (q.t * q.z));
    var a, b := p.x * q.y, p.y * q.x;
    assert (a + b) * (a + b) - (a - b) * (a - b) == 4 * (a * b);
    assert a * b == (p.x * p.y) * (q.x * q.y);
  }

  lemma SquareOfProduct(a: int, b: int)
    ensures (a * b) * (a * b) == (a * a) * (b * b)
  {
  }

  lemma SumRegroup(m: nat, d: int, e: int, h: int, f: int, g: int, w: int, n: int)
    requires m > 0
    requires Eq(m, (f * f) * (h * h - e * e), (f * f) * (g * g + d * (w * w)))
    requires Eq(m, d * ((h * n) * (h * n)), d * ((f * w) * (f * w)))
    requires Eq(m, (g * g - f * f) * (h * h), (d * (e * e - n * n)) * (h * h))
    ensures Eq(m, (g * h) * (g * h) - (e * f) * (e * f), (f * g) * (f * g) + d * ((e * h) * (e * h)))
  {
    SquareOfProduct(g, h);
    SquareOfProduct(e, f);
    SquareOfProduct(f, g);
    SquareOfProduct(e, h);
    SquareOfProduct(h, n);
    SquareOfProduct(f, w);
    SquaresRegroup(m, d, e * e, h * h, f * f, g * g, w * w, n * n);
  }

  lemma SquaresRegroup(m: nat, d: int, e: int, h: int, f: int, g: int, w: int, n: int)
    requires m > 0
    requires Eq(m, f * (h - e), f * (g + d * w)) && Eq(m, d * (h * n), d * (f * w)) && Eq(m, (g - f) * h, (d * (e - n)) * h)
    ensures Eq(m, g * h - e * f, f * g + d * (e * h))
  {
    var left, right, x, y := g * h - e * f, f * g + d * (e * h), d * (h * n), d * (f * w);
    EqAdd(m, f * (h - e), f * (g + d * w), (g - f) * h, (d * (e - n)) * h);
    RegroupedSums(d, e, h, f, g, w, n);
    EqSym(m, x, y);
    EqAdd(m, y, x, x, x);
    EqAdd(m, right, right, y - x, 0);
    EqTrans(m, left, right + (y - x), right);
  }

  lemma RegroupedSums(d: int, e: int, h: int, f: int, g: int, w: int, n: int)
    ensures f * (h - e) + (g - f) * h == g * h - e * f
    ensures f * (g + d * w) + (d * (e - n)) * h == (f * g + d * (e * h)) + (d * (f * w) - d * (h * n))
  {
    assert f * (g + d * w) == f * g + d * (f * w);
    assert (d * (e - n)) * h == d * (e * h) - d * (h * n);
  }
}
