/** The addition formulas in extended coordinates compute the addition law; the
    law stays on the curve, has a neutral point and commutes. */
module EdwardsGroup {
  import opened Modular
  import opened Edwards

  function EdwardsAdd(c: Curve, p: Point, q: Point): Point
    requires c.m > 0
  {
    var a := ((p.y - p.x) * (q.y - q.x)) % c.m;
    var b := ((p.y + p.x) * (q.y + q.x)) % c.m;
    var k := (p.t * 2 * c.d * q.t) % c.m;
    var d := (p.z * 2 * q.z) % c.m;
    var e, f, g, h := b - a, d - k, d + k, b + a;
    Point((e * f) % c.m, (g * h) % c.m, (f * g) % c.m, (e * h) % c.m)
  }

  lemma ProductMod(m: nat, a: int, b: int, x: int, y: int)
    requires m > 0 && Eq(m, a, 2 * x) && Eq(m, b, 2 * y)
    ensures Eq(m, (a * b) % m, 4 * (x * y))
  {
    EqMul(m, a, 2 * x, b, 2 * y);
    assert (2 * x) * (2 * y) == 4 * (x * y);
    EqMod(m, a * b);
    EqTrans(m, (a * b) % m, a * b, 4 * (x * y));
  }

  lemma DoubledParts(d: int, p: Point, q: Point)
    ensures var r := PartsOf(d, p, q);
            && (p.y + p.x) * (q.y + q.x) - (p.y - p.x) * (q.y - q.x) == 2 * r.e
            && (p.y + p.x) * (q.y + q.x) + (p.y - p.x) * (q.y - q.x) == 2 * r.h
            && p.z * 2 * q.z - p.t * 2 * d * q.t == 2 * r.f
            && p.z * 2 * q.z + p.t * 2 * d * q.t == 2 * r.g
  {
    assert p.t * 2 * d * q.t == 2 * (d * (p.t * q.t));
    assert p.z * 2 * q.z == 2 * (p.z * q.z);
  }

  /** The four coordinates, up to a common factor 4. */
  lemma SumCoordinates(c: Curve, p: Point, q: Point)
    requires c.m > 0
    ensures var (s, r) := (EdwardsAdd(c, p, q), PartsOf(c.d, p, q));
            && Eq(c.m, s.x, 4 * (r.e * r.f)) && Eq(c.m, s.y, 4 * (r.g * r.h))
            && Eq(c.m, s.z, 4 * (r.f * r.g)) && Eq(c.m, s.t, 4 * (r.e * r.h))
  {
    var m, r := c.m, PartsOf(c.d, p, q);
    var a, b := (p.y - p.x) * (q.y - q.x), (p.y + p.x) * (q.y + q.x);
    var k, d := p.t * 2 * c.d * q.t, p.z * 2 * q.z;
    EqMod(m, a);
    EqMod(m, b);
    EqMod(m, k);
    EqMod(m, d);
    EqAdd(m, b % m, b, a % m, a);
    EqAdd(m, d % m, d, k % m, k);
    DoubledParts(c.d, p, q);
    var e, f, g, h := b % m - a % m, d % m - k % m, d % m + k % m, b % m + a % m;
    ProductMod(m, e, f, r.e, r.f);
    ProductMod(m, g, h, r.g, r.h);
    ProductMod(m, f, g, r.f, r.g);
    ProductMod(m, e, h, r.e, r.h);
  }

  /** T Z = X Y and the curve equation hold of every sum. */
  lemma AddKeepsExtended(c: Curve, p: Point, q: Point)
    requires c.m > 0 && Extended(c.m, c.d, p) && Extended(c.m, c.d, q)
    ensures Extended(c.m, c.d, EdwardsAdd(c, p, q))
  {
    var m, s, r := c.m, EdwardsAdd(c, p, q), PartsOf(c.d, p, q);
    SumCoordinates(c, p, q);
    SumEquation(m, c.d, p, q);
    var x, y, z, t := r.e * r.f, r.g * r.h, r.f * r.g, r.e * r.h;
    Swap(r.e, r.h, r.f, r.g);
    ScaledTie(m, x, y, z, t, s);
    ScaledEquation(m, c.d, x, y, z, t, s);
  }

  lemma ScaledTie(m: nat, x: int, y: int, z: int, t: int, s: Point)
    requires m > 0 && t * z == x * y
    requires Eq(m, s.x, 4 * x) && Eq(m, s.y, 4 * y) && Eq(m, s.z, 4 * z) && Eq(m, s.t, 4 * t)
    ensures Eq(m, s.t * s.z, s.x * s.y)
  {
    hide *;
    EqMul(m, s.t, 4 * t, s.z, 4 * z);
    EqMul(m, s.x, 4 * x, s.y, 4 * y);
    EqSym(m, s.x * s.y, (4 * x) * (4 * y));
    FourTimesProduct(t, z);
    FourTimesProduct(x, y);
    EqTrans(m, s.t * s.z, (4 * t) * (4 * z), s.x * s.y);
  }

  lemma FourTimesProduct(x: int, y: int)
    ensures (4 * x) * (4 * y) == 16 * (x * y)
  {
  }

  lemma ScaledEquation(m: nat, d: int, x: int, y: int, z: int, t: int, s: Point)
    requires m > 0 && Eq(m, y * y - x * x, z * z + d * (t * t))
    requires Eq(m, s.x, 4 * x) && Eq(m, s.y, 4 * y) && Eq(m, s.z, 4 * z) && Eq(m, s.t, 4 * t)
    ensures Eq(m, s.y * s.y - s.x * s.x, s.z * s.z + d * (s.t * s.t))
  {
    hide *;
    EqSelf(m, d);
    EqSelf(m, 16);
    EqMul(m, s.x, 4 * x, s.x, 4 * x);
    EqMul(m, s.y, 4 * y, s.y, 4 * y);
    EqMul(m, s.z, 4 * z, s.z, 4 * z);
    EqMul(m, s.t, 4 * t, s.t, 4 * t);
    EqMul(m, d, d, s.t * s.t, (4 * t) * (4 * t));
    EqAdd(m, s.y * s.y, (4 * y) * (4 * y), s.x * s.x, (4 * x) * (4 * x));
    EqAdd(m, s.z * s.z, (4 * z) * (4 * z), d * (s.t * s.t), d * ((4 * t) * (4 * t)));
    EqMul(m, 16, 16, y * y - x * x, z * z + d * (t * t));
    SixteenTimes(d, x, y, z, t);
    EqSym(m, s.z * s.z + d * (s.t * s.t), 16 * (z * z + d * (t * t)));
    EqTrans(m, s.y * s.y - s.x * s.x, 16 * (y * y - x * x), 16 * (z * z + d * (t * t)));
    EqTrans(m, s.y * s.y - s.x * s.x, 16 * (z * z + d * (t * t)), s.z * s.z + d * (s.t * s.t));
  }

  lemma SixteenTimes(d: int, x: int, y: int, z: int, t: int)
    ensures (4 * y) * (4 * y) - (4 * x) * (4 * x) == 16 * (y * y - x * x)
    ensures (4 * z) * (4 * z) + d * ((4 * t) * (4 * t)) == 16 * (z * z + d * (t * t))
  {
    FourTimesSquared(t);
    FourTimesSquared(x);
    FourTimesSquared(y);
    FourTimesSquared(z);
    MovedIn(d, 16, t * t);
  }

  lemma FourTimesSquared(x: int)
    ensures (4 * x) * (4 * x) == 16 * (x * x)
  {
  }

  // ---------------------------------------------------------------- what the coordinates stand for

  function Alpha(a: Affine, b: Affine): int {
    a.x * b.y + a.y * b.x
  }

  function Beta(a: Affine, b: Affine): int {
    a.y * b.y + a.x * b.x
  }

  lemma ProductStandsFor(m: nat, p: int, a: int, u: int, q: int, b: int, v: int)
    requires m > 0 && Eq(m, p, a * u) && Eq(m, q, b * v)
    ensures Eq(m, p * q, (u * v) * (a * b))
  {
    EqMul(m, p, a * u, q, b * v);
    assert (a * u) * (b * v) == (u * v) * (a * b);
  }

  lemma PartsStandFor(c: Curve, p: Point, q: Point, a: Affine, b: Affine)
    requires c.m > 0 && Represents(c, p, a) && Represents(c, q, b)
    ensures var (r, u) := (PartsOf(c.d, p, q), p.z * q.z);
            && Eq(c.m, r.e, u * Alpha(a, b)) && Eq(c.m, r.h, u * Beta(a, b))
            && Eq(c.m, r.f, u * (1 - Delta(c, a, b))) && Eq(c.m, r.g, u * (1 + Delta(c, a, b)))
  {
    hide *;
    RepresentsMeans(c, p, a);
    RepresentsMeans(c, q, b);
    PartsAre(c.d, p, q);
    var m, u, w := c.m, p.z * q.z, (a.x * a.y) * (b.x * b.y);
    ProductStandsFor(m, p.x, a.x, p.z, q.y, b.y, q.z);
    ProductStandsFor(m, p.y, a.y, p.z, q.x, b.x, q.z);
    ProductStandsFor(m, p.y, a.y, p.z, q.y, b.y, q.z);
    ProductStandsFor(m, p.x, a.x, p.z, q.x, b.x, q.z);
    ProductStandsFor(m, p.t, a.x * a.y, p.z, q.t, b.x * b.y, q.z);
    EqAdd(m, p.x * q.y, u * (a.x * b.y), p.y * q.x, u * (a.y * b.x));
    EqAdd(m, p.y * q.y, u * (a.y * b.y), p.x * q.x, u * (a.x * b.x));
    EqSelf(m, c.d);
    EqSelf(m, u);
    EqMul(m, c.d, c.d, p.t * q.t, u * w);
    EqAdd(m, u, u, c.d * (p.t * q.t), c.d * (u * w));
    ScaledSums(u, a, b);
    ScaledDelta(c, u, a, b);
  }

  lemma EqSelf(m: nat, a: int)
    requires m > 0
    ensures Eq(m, a, a)
  {
  }

  lemma RepresentsMeans(c: Curve, p: Point, a: Affine)
    requires c.m > 0 && Represents(c, p, a)
    ensures !Eq(c.m, p.z, 0)
    ensures Eq(c.m, p.x, a.x * p.z) && Eq(c.m, p.y, a.y * p.z) && Eq(c.m, p.t, (a.x * a.y) * p.z)
  {
    hide Eq;
  }

  lemma PartsAre(d: int, p: Point, q: Point)
    ensures var r := PartsOf(d, p, q);
            && r.e == p.x * q.y + p.y * q.x && r.h == p.y * q.y + p.x * q.x
            && r.f == p.z * q.z - d * (p.t * q.t) && r.g == p.z * q.z + d * (p.t * q.t)
  {
  }

  lemma ScaledSums(u: int, a: Affine, b: Affine)
    ensures u * Alpha(a, b) == u * (a.x * b.y) + u * (a.y * b.x)
    ensures u * Beta(a, b) == u * (a.y * b.y) + u * (a.x * b.x)
  {
    Factored(u, a.x * b.y, a.y * b.x);
    Factored(u, a.y * b.y, a.x * b.x);
  }

  lemma ScaledDelta(c: Curve, u: int, a: Affine, b: Affine)
    ensures var w := (a.x * a.y) * (b.x * b.y);
            && u * (1 - Delta(c, a, b)) == u - c.d * (u * w)
            && u * (1 + Delta(c, a, b)) == u + c.d * (u * w)
  {
    var w := (a.x * a.y) * (b.x * b.y);
    DeltaIs(c, a, b);
    hide Delta;
    MovedIn(c.d, u, w);
    OneMore(u, Delta(c, a, b));
  }

  lemma DeltaIs(c: Curve, a: Affine, b: Affine)
    ensures Delta(c, a, b) == c.d * ((a.x * a.y) * (b.x * b.y))
  {
    Regrouped(c.d, a.x * a.y, b.x * b.y);
  }

  lemma Regrouped(a: int, b: int, c: int)
    ensures (a * b) * c == a * (b * c)
  {
  }

  lemma MovedIn(d: int, u: int, w: int)
    ensures d * (u * w) == u * (d * w)
  {
  }

  lemma OneMore(u: int, x: int)
    ensures u * (1 - x) == u - u * x && u * (1 + x) == u + u * x
  {
  }

  lemma Factored(u: int, x: int, y: int)
    ensures u * (x + y) == u * x + u * y
  {
  }

  /** A quotient times its denominator. */
  lemma QuotientTimes(m: nat, n: int, d: int)
    requires m > 1 && Fermat(m) && !Eq(m, d, 0)
    ensures Eq(m, ((n * Inv(m, d)) % m) * d, n)
  {
    var i := Inv(m, d);
    InvIsInverse(m, d);
    EqMod(m, n * i);
    EqMul(m, (n * i) % m, n * i, d, d);
    EqMul(m, n, n, d * i, 1);
    assert (n * i) * d == n * (d * i);
    EqTrans(m, ((n * i) % m) * d, n * (d * i), n);
  }

  /** With e = u x g' and f = u g, where x is e over g: four times e f is x times four f g'. */
  lemma CoordinateStandsFor(m: nat, s: int, z: int, n: int, v: int, w: int, x: int, u: int, top: int, bottom: int)
    requires m > 0
    requires Eq(m, s, 4 * (n * v)) && Eq(m, z, 4 * (w * v))
    requires Eq(m, n, u * top) && Eq(m, w, u * bottom) && Eq(m, x * bottom, top)
    ensures Eq(m, s, x * z)
  {
    hide *;
    EqSelf(m, u);
    EqSelf(m, x);
    EqSelf(m, 4 * v);
    CoordinateProducts(n, v, w, x, u, top, bottom);
    EqMul(m, x * bottom, top, u, u);
    EqSym(m, (x * bottom) * u, top * u);
    EqTrans(m, n, u * top, (x * bottom) * u);
    EqMul(m, x, x, w, u * bottom);
    EqSym(m, x * w, (x * bottom) * u);
    EqTrans(m, n, (x * bottom) * u, x * w);
    EqMul(m, n, x * w, 4 * v, 4 * v);
    EqTrans(m, s, 4 * (n * v), x * (4 * (w * v)));
    EqMul(m, x, x, z, 4 * (w * v));
    EqSym(m, x * z, x * (4 * (w * v)));
    EqTrans(m, s, x * (4 * (w * v)), x * z);
  }

  lemma CoordinateProducts(n: int, v: int, w: int, x: int, u: int, top: int, bottom: int)
    ensures top * u == u * top && x * (u * bottom) == (x * bottom) * u
    ensures n * (4 * v) == 4 * (n * v) && (x * w) * (4 * v) == x * (4 * (w * v))
  {
    FourOut(n, v);
    FourOut(x * w, v);
    Regrouped(x, w, v);
    MovedIn(x, 4, w * v);
    MovedIn(x, u, bottom);
  }

  lemma FourOut(n: int, v: int)
    ensures n * (4 * v) == 4 * (n * v)
  {
  }

  /** The formulas compute the law: the sum of two representations represents the sum. */
  lemma AddRepresents(c: Curve, p: Point, q: Point, a: Affine, b: Affine)
    requires Sound(c) && OnCurve(c, a) && OnCurve(c, b) && Represents(c, p, a) && Represents(c, q, b)
    ensures Represents(c, EdwardsAdd(c, p, q), Add(c, a, b))
  {
    hide Add, EdwardsAdd, PartsOf, Delta, Alpha, Beta;
    var m, s, r := c.m, EdwardsAdd(c, p, q), PartsOf(c.d, p, q);
    var sum := Add(c, a, b);
    SumCoordinates(c, p, q);
    PartsStandFor(c, p, q, a, b);
    DenominatorsAreNotZero(c, a, b);
    SumQuotients(c, a, b);
    SumIsNotZero(m, s.z, r.f, r.g, p.z * q.z, 1 - Delta(c, a, b), 1 + Delta(c, a, b), p.z, q.z);
    CoordinatesStandFor(m, s, r, p.z * q.z, sum, Alpha(a, b), Beta(a, b), 1 - Delta(c, a, b), 1 + Delta(c, a, b));
    SumTie(c, p, q, s, sum);
  }

  /** x3 = e f / (g f) and y3 = h g / (f g). */
  lemma CoordinatesStandFor(m: nat, s: Point, r: Parts, u: int, sum: Affine, alpha: int, beta: int, f: int, g: int)
    requires m > 0
    requires Eq(m, s.x, 4 * (r.e * r.f)) && Eq(m, s.y, 4 * (r.g * r.h)) && Eq(m, s.z, 4 * (r.f * r.g))
    requires Eq(m, r.e, u * alpha) && Eq(m, r.h, u * beta) && Eq(m, r.f, u * f) && Eq(m, r.g, u * g)
    requires Eq(m, sum.x * g, alpha) && Eq(m, sum.y * f, beta)
    ensures Eq(m, s.x, sum.x * s.z) && Eq(m, s.y, sum.y * s.z)
  {
    hide Eq;
    assert r.f * r.g == r.g * r.f && r.g * r.h == r.h * r.g;
    CoordinateStandsFor(m, s.x, s.z, r.e, r.f, r.g, sum.x, u, alpha, g);
    CoordinateStandsFor(m, s.y, s.z, r.h, r.g, r.f, sum.y, u, beta, f);
  }

  lemma SumQuotients(c: Curve, a: Affine, b: Affine)
    requires Sound(c) && !Eq(c.m, 1 + Delta(c, a, b), 0) && !Eq(c.m, 1 - Delta(c, a, b), 0)
    ensures Eq(c.m, Add(c, a, b).x * (1 + Delta(c, a, b)), Alpha(a, b))
    ensures Eq(c.m, Add(c, a, b).y * (1 - Delta(c, a, b)), Beta(a, b))
  {
    QuotientTimes(c.m, Alpha(a, b), 1 + Delta(c, a, b));
    QuotientTimes(c.m, Beta(a, b), 1 - Delta(c, a, b));
  }

  lemma SumIsNotZero(m: nat, z: int, f: int, g: int, u: int, df: int, dg: int, pz: int, qz: int)
    requires m > 2 && m % 2 == 1 && Fermat(m) && u == pz * qz && !Eq(m, pz, 0) && !Eq(m, qz, 0)
    requires Eq(m, z, 4 * (f * g)) && Eq(m, f, u * df) && Eq(m, g, u * dg) && !Eq(m, df, 0) && !Eq(m, dg, 0)
    ensures !Eq(m, z, 0)
  {
    OneIsNotZero(m);
    ProductIsNotZero(m, pz, qz);
    ProductIsNotZero(m, u, df);
    ProductIsNotZero(m, u, dg);
    NotZeroBoth(m, f, u * df);
    NotZeroBoth(m, g, u * dg);
    ProductIsNotZero(m, f, g);
    ProductIsNotZero(m, 2, f * g);
    ProductIsNotZero(m, 2, 2 * (f * g));
    NotZeroBoth(m, z, 4 * (f * g));
  }

  lemma NotZeroBoth(m: nat, a: int, b: int)
    requires m > 0 && Eq(m, a, b) && !Eq(m, b, 0)
    ensures !Eq(m, a, 0)
  {
    if Eq(m, a, 0) {
      EqSym(m, a, b);
      EqTrans(m, b, a, 0);
    }
  }

  /** T = x y Z follows from T Z = X Y. */
  lemma SumTie(c: Curve, p: Point, q: Point, s: Point, sum: Affine)
    requires c.m > 1 && Fermat(c.m) && s == EdwardsAdd(c, p, q) && !Eq(c.m, s.z, 0)
    requires Eq(c.m, s.x, sum.x * s.z) && Eq(c.m, s.y, sum.y * s.z)
    ensures Eq(c.m, s.t, sum.x * sum.y * s.z)
  {
    var m, r := c.m, PartsOf(c.d, p, q);
    SumCoordinates(c, p, q);
    Swap(r.e, r.h, r.f, r.g);
    ScaledTie(m, r.e * r.f, r.g * r.h, r.f * r.g, r.e * r.h, s);
    EqMul(m, s.x, sum.x * s.z, s.y, sum.y * s.z);
    EqTrans(m, s.t * s.z, s.x * s.y, (sum.x * s.z) * (sum.y * s.z));
    assert s.t * s.z == s.z * s.t;
    assert (sum.x * s.z) * (sum.y * s.z) == s.z * (sum.x * sum.y * s.z) by {
      Swap(sum.x, s.z, sum.y, s.z);
      assert (sum.x * sum.y) * (s.z * s.z) == s.z * ((sum.x * sum.y) * s.z);
    }
    Cancel(m, s.z, s.t, sum.x * sum.y * s.z);
  }

  lemma NeutralIsZero(c: Curve)
    requires c.m > 2
    ensures Represents(c, NEUTRAL, ZERO)
  {
    OneIsNotZero(c.m);
  }

  // ---------------------------------------------------------------- the group

  /** The sum of two points of the curve is on the curve. */
  lemma AddOnCurve(c: Curve, a: Affine, b: Affine)
    requires Sound(c) && OnCurve(c, a) && OnCurve(c, b)
    ensures OnCurve(c, Add(c, a, b))
  {
    hide *;
    CurveMeans(c, a);
    CurveMeans(c, b);
    AffineSumEquation(c, a, b);
    DenominatorsAreNotZero(c, a, b);
    SumQuotients(c, a, b);
    var sum := Add(c, a, b);
    DividedEquation(c.m, c.d, Alpha(a, b), Beta(a, b), 1 - Delta(c, a, b), 1 + Delta(c, a, b), sum.x, sum.y);
    SumIsReduced(c, a, b);
  }

  lemma CurveMeans(c: Curve, a: Affine)
    requires Sound(c) && OnCurve(c, a)
    ensures c.m > 2 && Fermat(c.m) && CurveEquation(c, a.x, a.y)
  {
  }

  lemma SumIsReduced(c: Curve, a: Affine, b: Affine)
    requires c.m > 1
    requires var sum := Add(c, a, b); Eq(c.m, sum.y * sum.y - sum.x * sum.x, 1 + c.d * (sum.x * sum.y) * (sum.x * sum.y))
    ensures OnCurve(c, Add(c, a, b))
  {
    hide Eq, Inv, Delta;
    EqMod(c.m, (a.x * b.y + a.y * b.x) * Inv(c.m, 1 + Delta(c, a, b)));
    EqMod(c.m, (a.y * b.y + a.x * b.x) * Inv(c.m, 1 - Delta(c, a, b)));
  }

  lemma AffineSumEquation(c: Curve, a: Affine, b: Affine)
    requires c.m > 0 && CurveEquation(c, a.x, a.y) && CurveEquation(c, b.x, b.y)
    ensures var (e, h) := (Alpha(a, b), Beta(a, b));
            var (f, g) := (1 - Delta(c, a, b), 1 + Delta(c, a, b));
            Eq(c.m, (g * h) * (g * h) - (e * f) * (e * f), (f * g) * (f * g) + c.d * ((e * h) * (e * h)))
  {
    var d := c.d;
    var p, q := Point(a.x, a.y, 1, a.x * a.y), Point(b.x, b.y, 1, b.x * b.y);
    assert d * ((a.x * a.y) * (a.x * a.y)) == d * (a.x * a.y) * (a.x * a.y);
    assert d * ((b.x * b.y) * (b.x * b.y)) == d * (b.x * b.y) * (b.x * b.y);
    SumEquation(c.m, d, p, q);
    assert d * (p.t * q.t) == Delta(c, a, b);
    hide Eq;
    assert PartsOf(d, p, q) == PartsOf(d, p, q).(e := Alpha(a, b), h := Beta(a, b), f := 1 - Delta(c, a, b), g := 1 + Delta(c, a, b));
  }

  /** The equation of the sum, divided by f^2 g^2. */
  lemma DividedEquation(m: nat, d: int, e: int, h: int, f: int, g: int, x: int, y: int)
    requires m > 1 && Fermat(m) && !Eq(m, f, 0) && !Eq(m, g, 0)
    requires Eq(m, (g * h) * (g * h) - (e * f) * (e * f), (f * g) * (f * g) + d * ((e * h) * (e * h)))
    requires Eq(m, x * g, e) && Eq(m, y * f, h)
    ensures Eq(m, y * y - x * x, 1 + d * (x * y) * (x * y))
  {
    hide *;
    var w := f * g;
    CommonFactors(e, f, g, h, x, y);
    EqSelf(m, d);
    EqSelf(m, f);
    EqSelf(m, g);
    EqSelf(m, w * w);
    EqMul(m, y * f, h, g, g);
    EqMul(m, x * g, e, f, f);
    EqMul(m, x * g, e, y * f, h);
    EqMul(m, y * w, g * h, y * w, g * h);
    EqMul(m, x * w, e * f, x * w, e * f);
    EqMul(m, (x * y) * w, e * h, (x * y) * w, e * h);
    EqMul(m, d, d, ((x * y) * w) * ((x * y) * w), (e * h) * (e * h));
    EqAdd(m, (y * w) * (y * w), (g * h) * (g * h), (x * w) * (x * w), (e * f) * (e * f));
    EqAdd(m, w * w, w * w, d * (((x * y) * w) * ((x * y) * w)), d * ((e * h) * (e * h)));
    var left, right := (y * w) * (y * w) - (x * w) * (x * w), w * w + d * (((x * y) * w) * ((x * y) * w));
    EqSym(m, right, w * w + d * ((e * h) * (e * h)));
    EqTrans(m, left, (g * h) * (g * h) - (e * f) * (e * f), w * w + d * ((e * h) * (e * h)));
    EqTrans(m, left, w * w + d * ((e * h) * (e * h)), right);
    DivideBySquare(m, d, x, y, w);
    ProductIsNotZero(m, f, g);
    ProductIsNotZero(m, w, w);
    Cancel(m, w * w, y * y - x * x, 1 + d * (x * y) * (x * y));
  }

  /** g h = y w, e f = x w and e h = x y w, for w = f g. */
  lemma CommonFactors(e: int, f: int, g: int, h: int, x: int, y: int)
    ensures var w := f * g;
            && (y * f) * g == y * w && h * g == g * h && (x * g) * f == x * w && (x * g) * (y * f) == (x * y) * w
  {
    Swap(x, g, y, f);
    assert g * f == f * g;
  }

  lemma DivideBySquare(m: nat, d: int, x: int, y: int, w: int)
    ensures (y * w) * (y * w) - (x * w) * (x * w) == (w * w) * (y * y - x * x)
    ensures w * w + d * (((x * y) * w) * ((x * y) * w)) == (w * w) * (1 + d * (x * y) * (x * y))
  {
    SquareOfProduct(y, w);
    SquareOfProduct(x, w);
    SquareOfProduct(x * y, w);
    LessFactored(w * w, y * y, x * x);
    var t := (x * y) * (x * y);
    Regrouped(d, x * y, x * y);
    MovedIn(d, t, w * w);
    MovedIn(w * w, d, t);
    Factored(w * w, 1, d * t);
    assert (w * w) * 1 == w * w;
  }

  lemma LessFactored(u: int, x: int, y: int)
    ensures u * (x - y) == u * x - u * y
  {
  }

  lemma AddCommutes(c: Curve, a: Affine, b: Affine)
    requires c.m > 1
    ensures Add(c, a, b) == Add(c, b, a)
  {
    assert Delta(c, a, b) == Delta(c, b, a) by {
      var p, q := a.x * a.y, b.x * b.y;
      assert c.d * p * q == c.d * q * p;
    }
    assert Alpha(a, b) == Alpha(b, a) && Beta(a, b) == Beta(b, a);
  }

  lemma ZeroIsNeutral(c: Curve, a: Affine)
    requires Sound(c) && OnCurve(c, a)
    ensures Add(c, ZERO, a) == a && Add(c, a, ZERO) == a && OnCurve(c, ZERO)
  {
    assert Delta(c, ZERO, a) == 0 by {
      assert ZERO.x * ZERO.y == 0 && c.d * 0 == 0 && 0 * (a.x * a.y) == 0;
    }
    InverseOfOne(c.m);
    assert Alpha(ZERO, a) == a.x && Beta(ZERO, a) == a.y;
    AddCommutes(c, ZERO, a);
    ZeroOnCurve(c);
  }

  function Negative(c: Curve, a: Affine): Affine
    requires c.m > 0
  {
    Affine((-a.x) % c.m, a.y)
  }

  /** Every point of the curve has a negative on it, and the two add up to zero. */
  lemma NegativeIsInverse(c: Curve, a: Affine)
    requires Sound(c) && OnCurve(c, a)
    ensures OnCurve(c, Negative(c, a)) && Add(c, a, Negative(c, a)) == ZERO
  {
    var b := Negative(c, a);
    EqMod(c.m, -a.x);
    CurveMeans(c, a);
    NegativeEquation(c, a, b);
    NegativeParts(c, a, b);
    hide *;
    DenominatorsAreNotZero(c, a, b);
    SumQuotients(c, a, b);
    SumIsInRange(c, a, b);
    var sum, delta := Add(c, a, b), Delta(c, a, b);
    QuotientIsOne(c.m, sum.y, 1 - delta, Beta(a, b));
    QuotientIsZero(c.m, sum.x, 1 + delta, Alpha(a, b));
    assert sum == ZERO;
  }

  lemma SumIsInRange(c: Curve, a: Affine, b: Affine)
    requires c.m > 1
    ensures 0 <= Add(c, a, b).x < c.m && 0 <= Add(c, a, b).y < c.m && ZERO == Affine(0, 1)
  {
    hide Inv, Delta;
    EqMod(c.m, (a.x * b.y + a.y * b.x) * Inv(c.m, 1 + Delta(c, a, b)));
    EqMod(c.m, (a.y * b.y + a.x * b.x) * Inv(c.m, 1 - Delta(c, a, b)));
  }

  lemma NegativeSquared(m: nat, n: int, x: int)
    requires m > 0 && Eq(m, n, -x)
    ensures Eq(m, n * n, x * x)
  {
    EqMul(m, n, -x, n, -x);
    assert (-x) * (-x) == x * x;
  }

  lemma NegativeTimes(m: nat, n: int, x: int, y: int)
    requires m > 0 && Eq(m, n, -x)
    ensures Eq(m, n * y, -(x * y)) && Eq(m, y * n, -(y * x))
  {
    EqSelf(m, y);
    EqMul(m, n, -x, y, y);
    assert (-x) * y == -(x * y);
  }

  lemma EquationMeans(c: Curve, x: int, y: int)
    requires c.m > 0
    ensures CurveEquation(c, x, y) <==> Eq(c.m, y * y - x * x, 1 + c.d * ((x * y) * (x * y)))
  {
    var p := x * y;
    assert c.d * p * p == c.d * (p * p);
  }

  /** The negative satisfies the equation too. */
  lemma NegativeEquation(c: Curve, a: Affine, b: Affine)
    requires c.m > 0 && CurveEquation(c, a.x, a.y) && b.y == a.y && Eq(c.m, b.x, -a.x)
    ensures CurveEquation(c, b.x, b.y)
  {
    EquationMeans(c, a.x, a.y);
    EquationMeans(c, b.x, b.y);
    hide *;
    var m, y, p, q := c.m, a.y, a.x * a.y, b.x * b.y;
    NegativeTimes(m, b.x, a.x, y);
    NegativeSquared(m, q, p);
    NegativeSquared(m, b.x, a.x);
    EqSelf(m, y * y);
    EqAdd(m, y * y, y * y, b.x * b.x, a.x * a.x);
    EqSelf(m, c.d);
    EqSelf(m, 1);
    EqMul(m, c.d, c.d, q * q, p * p);
    EqAdd(m, 1, 1, c.d * (q * q), c.d * (p * p));
    EqSym(m, 1 + c.d * (q * q), 1 + c.d * (p * p));
    EqTrans(m, y * y - b.x * b.x, y * y - a.x * a.x, 1 + c.d * (p * p));
    EqTrans(m, y * y - b.x * b.x, 1 + c.d * (p * p), 1 + c.d * (q * q));
  }

  lemma PartsOfNegative(c: Curve, a: Affine, b: Affine)
    requires b.y == a.y
    ensures Alpha(a, b) == a.x * a.y + b.x * b.y && Beta(a, b) == a.y * a.y + a.x * b.x
    ensures Delta(c, a, b) == c.d * ((a.x * a.y) * (b.x * b.y))
  {
    var p, q := a.x * a.y, b.x * b.y;
    assert c.d * p * q == c.d * (p * q);
  }

  lemma NegativeParts(c: Curve, a: Affine, b: Affine)
    requires c.m > 0 && CurveEquation(c, a.x, a.y) && b.y == a.y && Eq(c.m, b.x, -a.x)
    ensures Eq(c.m, Alpha(a, b), 0) && Eq(c.m, Beta(a, b), 1 - Delta(c, a, b))
  {
    EquationMeans(c, a.x, a.y);
    PartsOfNegative(c, a, b);
    hide *;
    var m, y, p, q := c.m, a.y, a.x * a.y, b.x * b.y;
    NegativeTimes(m, b.x, a.x, y);
    NegativeTimes(m, b.x, a.x, a.x);
    NegativeTimes(m, q, p, p);
    EqSelf(m, p);
    EqAdd(m, p, p, q, -p);
    EqSelf(m, y * y);
    EqAdd(m, y * y, y * y, a.x * b.x, -(a.x * a.x));
    NegativeTimes(m, p * q, p * p, c.d);
    EqSelf(m, 1);
    EqAdd(m, 1, 1, c.d * (p * q), -(c.d * (p * p)));
    EqSym(m, 1 - c.d * (p * q), 1 + c.d * (p * p));
    EqTrans(m, y * y + a.x * b.x, y * y - a.x * a.x, 1 + c.d * (p * p));
    EqTrans(m, y * y + a.x * b.x, 1 + c.d * (p * p), 1 - c.d * (p * q));
  }

  lemma QuotientIsOne(m: nat, x: int, d: int, n: int)
    requires m > 2 && Fermat(m) && Eq(m, x * d, n) && Eq(m, n, d) && !Eq(m, d, 0) && 0 <= x < m
    ensures x == 1
  {
    hide *;
    EqTrans(m, x * d, n, d);
    EqSelf(m, d);
    EqAdd(m, x * d, d, d, d);
    OneLess(x, d);
    NoZeroDivisors(m, x - 1, d);
    EqSelf(m, 1);
    EqAdd(m, x - 1, 0, 1, 1);
    EqSmall(m, x, 1);
  }

  lemma OneLess(x: int, d: int)
    ensures x * d - d == (x - 1) * d
  {
  }

  lemma QuotientIsZero(m: nat, x: int, d: int, n: int)
    requires m > 2 && Fermat(m) && Eq(m, x * d, n) && Eq(m, n, 0) && !Eq(m, d, 0) && 0 <= x < m
    ensures x == 0
  {
    hide *;
    EqTrans(m, x * d, n, 0);
    NoZeroDivisors(m, x, d);
    EqSmall(m, x, 0);
  }

  lemma ZeroOnCurve(c: Curve)
    requires c.m > 2
    ensures OnCurve(c, ZERO)
  {
  }

  lemma {:induction false} PowerOfOne(e: nat)
    ensures Pow(1, e) == 1
  {
    if e > 0 {
      PowerOfOne(e - 1);
    }
  }

  lemma InverseOfOne(m: nat)
    requires m > 2
    ensures Inv(m, 1) == 1
    ensures forall x :: 0 <= x < m ==> (x * Inv(m, 1)) % m == x
  {
    PowerOfOne(m - 2);
  }
}
