/** The addition law is associative.

    For three points write u = x y, s = x^2 + y^2 and k = 1 + d u^2 of each. On
    the curve s x = 2 u y - k x and s y = 2 u x + k y, and this is all that is
    used of the curve: both ways of adding have numerators and denominators in
    which every s stands once, and what is left after replacing the products
    with s is zero coefficient by coefficient. */
module EdwardsAssociates {
  import opened Modular
  import opened Edwards
  import opened EdwardsGroup

  function Norm(a: Affine): int {
    a.x * a.x + a.y * a.y
  }

  function Level(d: int, u: int): int {
    1 + d * u * u
  }

  // ---------------------------------------------------------------- what the curve gives

  /** s x = 2 u y - k x and s y = 2 u x + k y. */
  predicate Turns(m: nat, s: int, u: int, k: int, x: int, y: int)
    requires m > 0
  {
    Eq(m, s * x, 2 * (u * y) - k * x) && Eq(m, s * y, 2 * (u * x) + k * y)
  }

  lemma NormTurns(c: Curve, a: Affine)
    requires c.m > 0 && CurveEquation(c, a.x, a.y)
    ensures Turns(c.m, Norm(a), a.x * a.y, Level(c.d, a.x * a.y), a.x, a.y)
  {
    var m, x, y := c.m, a.x, a.y;
    var v, k := y * y - x * x, Level(c.d, x * y);
    assert Eq(m, v, k);
    hide Eq, CurveEquation, Level;
    EqSelf(m, x);
    EqSelf(m, y);
    EqMul(m, v, k, x, x);
    EqMul(m, v, k, y, y);
    NormTimes(x, y);
    EqSelf(m, 2 * ((x * y) * y));
    EqSelf(m, 2 * ((x * y) * x));
    EqAdd(m, 2 * ((x * y) * y), 2 * ((x * y) * y), v * x, k * x);
    EqAdd(m, 2 * ((x * y) * x), 2 * ((x * y) * x), v * y, k * y);
  }

  lemma NormTimes(x: int, y: int)
    ensures (x * x + y * y) * x == 2 * ((x * y) * y) - (y * y - x * x) * x
    ensures (x * x + y * y) * y == 2 * ((x * y) * x) + (y * y - x * x) * y
  {
    Spread(x, x * x, y * y);
    Spread(y, x * x, y * y);
    LessFactored(x, y * y, x * x);
    LessFactored(y, y * y, x * x);
    assert (x * y) * y == x * (y * y) && (x * y) * x == y * (x * x);
  }

  lemma Combined(m: nat, s: int, p: int, q: int, pp: int, qq: int, a: int, b: int)
    requires m > 0 && Eq(m, s * p, pp) && Eq(m, s * q, qq)
    ensures Eq(m, s * (a * p + b * q), a * pp + b * qq) && Eq(m, s * (a * p - b * q), a * pp - b * qq)
  {
    hide *;
    EqSelf(m, a);
    EqSelf(m, b);
    EqMul(m, a, a, s * p, pp);
    EqMul(m, b, b, s * q, qq);
    EqAdd(m, a * (s * p), a * pp, b * (s * q), b * qq);
    Spread(s, a * p, b * q);
    LessFactored(s, a * p, b * q);
    MovedIn(s, a, p);
    MovedIn(s, b, q);
  }

  /** The four combinations of a point's coordinates with a and b, and what s makes of them. */
  lemma TurnsCombinations(m: nat, s: int, u: int, k: int, x: int, y: int, a: int, b: int)
    requires m > 0 && Turns(m, s, u, k, x, y)
    ensures Eq(m, s * (a * y + b * x), 2 * (u * (a * x + b * y)) - k * (b * x - a * y))
    ensures Eq(m, s * (b * x - a * y), 2 * (u * (b * y - a * x)) - k * (a * y + b * x))
    ensures Eq(m, s * (a * x + b * y), 2 * (u * (a * y + b * x)) + k * (b * y - a * x))
    ensures Eq(m, s * (b * y - a * x), 2 * (u * (b * x - a * y)) + k * (a * x + b * y))
  {
    hide Eq;
    Combined(m, s, y, x, 2 * (u * x) + k * y, 2 * (u * y) - k * x, a, b);
    Combined(m, s, x, y, 2 * (u * y) - k * x, 2 * (u * x) + k * y, b, a);
    Combined(m, s, x, y, 2 * (u * y) - k * x, 2 * (u * x) + k * y, a, b);
    Combined(m, s, y, x, 2 * (u * x) + k * y, 2 * (u * y) - k * x, b, a);
    hide Turns;
    Collected(u, k, x, y, a, b);
  }

  lemma Collected(u: int, k: int, x: int, y: int, a: int, b: int)
    ensures a * (2 * (u * x) + k * y) + b * (2 * (u * y) - k * x) == 2 * (u * (a * x + b * y)) - k * (b * x - a * y)
    ensures b * (2 * (u * y) - k * x) - a * (2 * (u * x) + k * y) == 2 * (u * (b * y - a * x)) - k * (a * y + b * x)
    ensures a * (2 * (u * y) - k * x) + b * (2 * (u * x) + k * y) == 2 * (u * (a * y + b * x)) + k * (b * y - a * x)
    ensures b * (2 * (u * x) + k * y) - a * (2 * (u * y) - k * x) == 2 * (u * (b * x - a * y)) + k * (a * x + b * y)
  {
    TwoParts(a, u, x, k, y);
    TwoParts(b, u, x, k, y);
    TwoParts(a, u, y, k, x);
    TwoParts(b, u, y, k, x);
    Spread(u, a * x, b * y);
    Spread(u, a * y, b * x);
    LessFactored(u, b * y, a * x);
    LessFactored(u, b * x, a * y);
    Spread(k, a * y, b * x);
    Spread(k, a * x, b * y);
    LessFactored(k, b * x, a * y);
    LessFactored(k, b * y, a * x);
  }

  lemma TwoParts(a: int, u: int, x: int, k: int, y: int)
    ensures a * (2 * (u * x) + k * y) == 2 * (u * (a * x)) + k * (a * y)
    ensures a * (2 * (u * x) - k * y) == 2 * (u * (a * x)) - k * (a * y)
  {
    Spread(a, 2 * (u * x), k * y);
    LessFactored(a, 2 * (u * x), k * y);
    MovedIn(a, u, x);
    MovedIn(a, k, y);
    MovedIn(a, 2, u * x);
  }

  // ---------------------------------------------------------------- the balance

  /** u, s of the three points. */
  datatype Sizes = Sizes(d: int, u1: int, u2: int, u3: int, s1: int, s2: int, s3: int) {
    function A(): int { d * (u1 * u2) }
    function B(): int { d * (u2 * u3) }
    function G(): int { d * (u1 * u3) }
  }

  /** Six combinations of the products of three coordinates, one of each point. */
  datatype Six = Six(s: int, l: int, r: int, t: int, k: int, j: int)

  predicate Turned(m: nat, z: Sizes, v: Six)
    requires m > 0
  {
    var (k1, k2, k3) := (Level(z.d, z.u1), Level(z.d, z.u2), Level(z.d, z.u3));
    && Eq(m, z.s3 * v.s, 2 * (z.u3 * v.t) - k3 * v.l) && Eq(m, z.s3 * v.l, 2 * (z.u3 * v.k) - k3 * v.s)
    && Eq(m, z.s1 * v.s, 2 * (z.u1 * v.t) - k1 * v.r) && Eq(m, z.s1 * v.r, 2 * (z.u1 * v.j) - k1 * v.s)
    && Eq(m, z.s2 * v.l, -2 * (z.u2 * v.k) - k2 * v.r) && Eq(m, z.s2 * v.r, -2 * (z.u2 * v.j) - k2 * v.l)
  }

  function LeftTop(z: Sizes, v: Six): int { v.s + z.A() * v.l }

  function RightTop(z: Sizes, v: Six): int { v.s + z.B() * v.r }

  function LeftBottom(z: Sizes): int { 1 - z.A() * z.A() + (z.G() * z.s2 + z.B() * z.s1) }

  function RightBottom(z: Sizes): int { 1 - z.B() * z.B() + (z.A() * z.s3 + z.G() * z.s2) }

  // Both sides multiplied out: what has no s in it, and the six products with one.

  function Plain(z: Sizes, v: Six): int {
    LeftTop(z, v) * (1 - z.B() * z.B()) - RightTop(z, v) * (1 - z.A() * z.A())
  }

  function Weighted(z: Sizes, s3s: int, s3l: int, s1s: int, s1r: int, s2l: int, s2r: int): int {
    (z.A() * (s3s + z.A() * s3l) - z.B() * (s1s + z.B() * s1r)) + z.G() * (z.A() * s2l - z.B() * s2r)
  }

  lemma MultipliedOut(z: Sizes, v: Six)
    ensures LeftTop(z, v) * RightBottom(z) - RightTop(z, v) * LeftBottom(z)
            == Plain(z, v) + Weighted(z, z.s3 * v.s, z.s3 * v.l, z.s1 * v.s, z.s1 * v.r, z.s2 * v.l, z.s2 * v.r)
  {
    var a, b, g := z.A(), z.B(), z.G();
    var left, right := LeftTop(z, v), RightTop(z, v);
    Spread(left, 1 - b * b, a * z.s3 + g * z.s2);
    Spread(right, 1 - a * a, g * z.s2 + b * z.s1);
    OneSide(v.s, a, v.l, a, z.s3, g, z.s2);
    OneSide(v.s, b, v.r, b, z.s1, g, z.s2);
    LessFactored(g, z.s2 * v.s + a * (z.s2 * v.l), z.s2 * v.s + b * (z.s2 * v.r));
  }

  /** (s + a l) (p x + g y). */
  lemma OneSide(s: int, a: int, l: int, p: int, x: int, g: int, y: int)
    ensures (s + a * l) * (p * x + g * y) == p * (x * s + a * (x * l)) + g * (y * s + a * (y * l))
  {
    hide *;
    Spread(s + a * l, p * x, g * y);
    OneTerm(s, a, l, p, x);
    OneTerm(s, a, l, g, y);
  }

  lemma OneTerm(s: int, a: int, l: int, p: int, x: int)
    ensures (s + a * l) * (p * x) == p * (x * s + a * (x * l))
  {
    assert (s + a * l) * (p * x) == p * (x * (s + a * l));
    Spread(x, s, a * l);
    MovedIn(x, a, l);
  }

  lemma WeightedAgree(m: nat, z: Sizes, s3s: int, s3l: int, s1s: int, s1r: int, s2l: int, s2r: int,
                      t3s: int, t3l: int, t1s: int, t1r: int, t2l: int, t2r: int)
    requires m > 0 && Eq(m, s3s, t3s) && Eq(m, s3l, t3l) && Eq(m, s1s, t1s) && Eq(m, s1r, t1r)
    requires Eq(m, s2l, t2l) && Eq(m, s2r, t2r)
    ensures Eq(m, Weighted(z, s3s, s3l, s1s, s1r, s2l, s2r), Weighted(z, t3s, t3l, t1s, t1r, t2l, t2r))
  {
    var a, b, g := z.A(), z.B(), z.G();
    hide Eq;
    EqSelf(m, a);
    EqSelf(m, b);
    EqSelf(m, g);
    EqMul(m, a, a, s3l, t3l);
    EqAdd(m, s3s, t3s, a * s3l, a * t3l);
    EqMul(m, a, a, s3s + a * s3l, t3s + a * t3l);
    EqMul(m, b, b, s1r, t1r);
    EqAdd(m, s1s, t1s, b * s1r, b * t1r);
    EqMul(m, b, b, s1s + b * s1r, t1s + b * t1r);
    EqMul(m, a, a, s2l, t2l);
    EqMul(m, b, b, s2r, t2r);
    EqAdd(m, a * s2l, a * t2l, b * s2r, b * t2r);
    EqMul(m, g, g, a * s2l - b * s2r, a * t2l - b * t2r);
    EqAdd(m, a * (s3s + a * s3l), a * (t3s + a * t3l), b * (s1s + b * s1r), b * (t1s + b * t1r));
    EqAdd(m, a * (s3s + a * s3l) - b * (s1s + b * s1r), a * (t3s + a * t3l) - b * (t1s + b * t1r),
          g * (a * s2l - b * s2r), g * (a * t2l - b * t2r));
  }

  /** Every coefficient comes from w = d u1 u2 u3 and the q = d u^2. */
  lemma Coefficients(z: Sizes)
    ensures var (a, b, g, w) := (z.A(), z.B(), z.G(), z.A() * z.u3);
            var (q1, q2, q3) := (z.d * z.u1 * z.u1, z.d * z.u2 * z.u2, z.d * z.u3 * z.u3);
            && b * z.u1 == w && g * z.u2 == w
            && a * a == q1 * q2 && b * b == q2 * q3 && g * b == a * q3 && g * a == b * q1
  {
    var d, u1, u2, u3 := z.d, z.u1, z.u2, z.u3;
    TripleProduct(d, u1, u2, u3);
    TripleProduct(d, u2, u3, u1);
    TripleProduct(d, u1, u3, u2);
    ProductOfPairs(d, u1, u2, u1, u2);
    ProductOfPairs(d, u2, u3, u2, u3);
    ProductOfPairs(d, u1, u3, u2, u3);
    ProductOfPairs(d, u1, u2, u3, u3);
    ProductOfPairs(d, u1, u3, u1, u2);
    ProductOfPairs(d, u2, u3, u1, u1);
    ProductOfPairs(d, u1, u1, u2, u2);
    ProductOfPairs(d, u2, u2, u3, u3);
    Regrouped(d, u1, u1);
    Regrouped(d, u2, u2);
    Regrouped(d, u3, u3);
    hide *;
    FourFactors(u1, u2, u1, u2);
    FourFactors(u2, u3, u2, u3);
    FourFactors(u1, u3, u2, u3);
    FourFactors(u1, u3, u1, u2);
    FourFactors(u2, u3, u1, u1);
    PairsOf(z);
  }

  lemma PairsOf(z: Sizes)
    ensures z.A() == z.d * (z.u1 * z.u2) && z.B() == z.d * (z.u2 * z.u3) && z.G() == z.d * (z.u1 * z.u3)
  {
  }

  lemma TripleProduct(d: int, u: int, v: int, w: int)
    ensures (d * (u * v)) * w == d * (u * v * w)
    ensures u * v * w == v * w * u == u * w * v
  {
  }

  lemma ProductOfPairs(d: int, p: int, q: int, r: int, s: int)
    ensures (d * (p * q)) * (d * (r * s)) == (d * d) * ((p * q) * (r * s))
  {
    Swap(d, p * q, d, r * s);
  }

  lemma FourFactors(p: int, q: int, r: int, s: int)
    ensures (p * q) * (r * s) == (p * r) * (q * s) == (p * s) * (q * r)
  {
  }

  /** One side of the weighted products. */
  lemma SideCollected(a: int, u: int, t: int, k: int, l: int, j: int, s: int)
    ensures a * (2 * (u * t) - k * l + a * (2 * (u * j) - k * s))
            == 2 * ((a * u) * t) - (a * k) * l + 2 * ((a * (a * u)) * j) - ((a * a) * k) * s
  {
    Spread(a, 2 * (u * t) - k * l, a * (2 * (u * j) - k * s));
    TwoTerms(a, u, t, k, l);
    TwoTerms(a, u, j, k, s);
    LessFactored(a, 2 * ((a * u) * j), (a * k) * s);
    assert a * (2 * ((a * u) * j)) == 2 * ((a * (a * u)) * j);
    assert a * ((a * k) * s) == ((a * a) * k) * s;
  }

  lemma TwoTerms(a: int, u: int, t: int, k: int, l: int)
    ensures a * (2 * (u * t) - k * l) == 2 * ((a * u) * t) - (a * k) * l
    ensures a * (-2 * (u * t) - k * l) == -2 * ((a * u) * t) - (a * k) * l
  {
    Regrouped(a, u, t);
    Regrouped(a, k, l);
    LessFactored(a, 2 * (u * t), k * l);
    LessFactored(a, -2 * (u * t), k * l);
    MovedIn(a, 2, u * t);
    MovedIn(a, -2, u * t);
  }

  lemma MiddleCollected(g: int, a: int, b: int, u: int, k: int, vk: int, vr: int, vj: int, vl: int)
    ensures g * (a * (-2 * (u * vk) - k * vr) - b * (-2 * (u * vj) - k * vl))
            == -2 * ((a * (g * u)) * vk) - ((g * a) * k) * vr + 2 * ((b * (g * u)) * vj) + ((g * b) * k) * vl
  {
    TwoTerms(a, u, vk, k, vr);
    TwoTerms(b, u, vj, k, vl);
    MovedOut(g, a, u, vk, k, vr);
    MovedOut(g, b, u, vj, k, vl);
    LessFactored(g, -2 * ((a * u) * vk) - (a * k) * vr, -2 * ((b * u) * vj) - (b * k) * vl);
  }

  lemma MovedOut(g: int, a: int, u: int, v: int, k: int, w: int)
    ensures g * (-2 * ((a * u) * v) - (a * k) * w) == -2 * ((a * (g * u)) * v) - ((g * a) * k) * w
  {
    TwoTerms(g, a * u, v, a * k, w);
    assert g * (a * u) == a * (g * u) && g * (a * k) == (g * a) * k;
  }

  lemma PlainCollected(a: int, b: int, s: int, l: int, r: int)
    ensures (s + a * l) * (1 - b * b) - (s + b * r) * (1 - a * a)
            == (a * a - b * b) * s + (a - a * (b * b)) * l - (b - b * (a * a)) * r
  {
    hide *;
    PlainSide(s, a, l, b * b);
    PlainSide(s, b, r, a * a);
    TakenTogether(s, a * a, b * b, a * a - b * b);
  }

  lemma PlainSide(s: int, a: int, l: int, k: int)
    ensures (s + a * l) * (1 - k) == s - k * s + (a - a * k) * l
  {
    OneMore(s + a * l, k);
    Spread(k, s, a * l);
    TakenTogether(l, a, a * k, a - a * k);
    assert k * (a * l) == (a * k) * l;
  }

  lemma SmallCoefficients(a: int, b: int, aa: int, bb: int, ga: int, gb: int, q1: int, q2: int, q3: int)
    requires aa == q1 * q2 && bb == q2 * q3 && gb == a * q3 && ga == b * q1
    ensures aa * (1 + q3) - bb * (1 + q1) == aa - bb
    ensures a * (1 + q3) - gb * (1 + q2) == a - a * bb
    ensures b * (1 + q1) - ga * (1 + q2) == b - b * aa
  {
    assert (q1 * q2) * q3 == (q2 * q3) * q1;
    OneMore(aa, q3);
    OneMore(bb, q1);
    OneMore(a, q3);
    OneMore(gb, q2);
    OneMore(b, q1);
    OneMore(ga, q2);
    assert (a * q3) * q2 == a * (q2 * q3) && (b * q1) * q2 == b * (q1 * q2);
  }

  /** With every s replaced, nothing is left. */
  lemma NothingLeft(z: Sizes, v: Six)
    ensures var (k1, k2, k3) := (Level(z.d, z.u1), Level(z.d, z.u2), Level(z.d, z.u3));
            Plain(z, v) + Weighted(z, 2 * (z.u3 * v.t) - k3 * v.l, 2 * (z.u3 * v.k) - k3 * v.s,
                                   2 * (z.u1 * v.t) - k1 * v.r, 2 * (z.u1 * v.j) - k1 * v.s,
                                   -2 * (z.u2 * v.k) - k2 * v.r, -2 * (z.u2 * v.j) - k2 * v.l) == 0
  {
    Coefficients(z);
    LevelsAre(z);
    var k1, k2, k3 := Level(z.d, z.u1), Level(z.d, z.u2), Level(z.d, z.u3);
    var a, b, g, w := z.A(), z.B(), z.G(), z.A() * z.u3;
    PlainIs(z, v);
    WeightedIs(z, 2 * (z.u3 * v.t) - k3 * v.l, 2 * (z.u3 * v.k) - k3 * v.s, 2 * (z.u1 * v.t) - k1 * v.r,
               2 * (z.u1 * v.j) - k1 * v.s, -2 * (z.u2 * v.k) - k2 * v.r, -2 * (z.u2 * v.j) - k2 * v.l);
    hide *;
    SmallCoefficients(a, b, a * a, b * b, g * a, g * b, z.d * z.u1 * z.u1, z.d * z.u2 * z.u2, z.d * z.u3 * z.u3);
    SideCollected(a, z.u3, v.t, k3, v.l, v.k, v.s);
    SideCollected(b, z.u1, v.t, k1, v.r, v.j, v.s);
    MiddleCollected(g, a, b, z.u2, k2, v.k, v.r, v.j, v.l);
    PlainCollected(a, b, v.s, v.l, v.r);
    TakenTogether(v.s, (a * a) * k3, (b * b) * k1, a * a - b * b);
    TakenTogether(v.l, a * k3, (g * b) * k2, a - a * (b * b));
    TakenTogether(v.r, b * k1, (g * a) * k2, b - b * (a * a));
  }

  lemma TakenTogether(s: int, p: int, q: int, r: int)
    requires p - q == r
    ensures p * s - q * s == r * s
  {
  }

  lemma LevelsAre(z: Sizes)
    ensures Level(z.d, z.u1) == 1 + z.d * z.u1 * z.u1
    ensures Level(z.d, z.u2) == 1 + z.d * z.u2 * z.u2
    ensures Level(z.d, z.u3) == 1 + z.d * z.u3 * z.u3
  {
  }

  lemma PlainIs(z: Sizes, v: Six)
    ensures Plain(z, v) == (v.s + z.A() * v.l) * (1 - z.B() * z.B()) - (v.s + z.B() * v.r) * (1 - z.A() * z.A())
  {
  }

  lemma WeightedIs(z: Sizes, s3s: int, s3l: int, s1s: int, s1r: int, s2l: int, s2r: int)
    ensures Weighted(z, s3s, s3l, s1s, s1r, s2l, s2r)
            == (z.A() * (s3s + z.A() * s3l) - z.B() * (s1s + z.B() * s1r)) + z.G() * (z.A() * s2l - z.B() * s2r)
  {
  }

  /** Both quotients are one: left top times right bottom is right top times left bottom. */
  lemma Balanced(m: nat, z: Sizes, v: Six)
    requires m > 0 && Turned(m, z, v)
    ensures Eq(m, LeftTop(z, v) * RightBottom(z), RightTop(z, v) * LeftBottom(z))
  {
    hide Eq, LeftTop, RightTop, LeftBottom, RightBottom, Plain, Weighted, Level;
    var k1, k2, k3 := Level(z.d, z.u1), Level(z.d, z.u2), Level(z.d, z.u3);
    MultipliedOut(z, v);
    NothingLeft(z, v);
    hide Sizes.A, Sizes.B, Sizes.G;
    WeightedAgree(m, z, z.s3 * v.s, z.s3 * v.l, z.s1 * v.s, z.s1 * v.r, z.s2 * v.l, z.s2 * v.r,
                  2 * (z.u3 * v.t) - k3 * v.l, 2 * (z.u3 * v.k) - k3 * v.s, 2 * (z.u1 * v.t) - k1 * v.r,
                  2 * (z.u1 * v.j) - k1 * v.s, -2 * (z.u2 * v.k) - k2 * v.r, -2 * (z.u2 * v.j) - k2 * v.l);
    DifferenceVanishes(m, LeftTop(z, v) * RightBottom(z), RightTop(z, v) * LeftBottom(z), Plain(z, v),
                       Weighted(z, z.s3 * v.s, z.s3 * v.l, z.s1 * v.s, z.s1 * v.r, z.s2 * v.l, z.s2 * v.r),
                       Weighted(z, 2 * (z.u3 * v.t) - k3 * v.l, 2 * (z.u3 * v.k) - k3 * v.s,
                                2 * (z.u1 * v.t) - k1 * v.r, 2 * (z.u1 * v.j) - k1 * v.s,
                                -2 * (z.u2 * v.k) - k2 * v.r, -2 * (z.u2 * v.j) - k2 * v.l));
  }

  lemma DifferenceVanishes(m: nat, x: int, y: int, plain: int, now: int, later: int)
    requires m > 0 && x - y == plain + now && plain + later == 0 && Eq(m, now, later)
    ensures Eq(m, x, y)
  {
    assert x - y == now - later;
  }

  // ---------------------------------------------------------------- three points

  function SizesOf(d: int, a: Affine, b: Affine, e: Affine): Sizes {
    Sizes(d, a.x * a.y, b.x * b.y, e.x * e.y, Norm(a), Norm(b), Norm(e))
  }

  /** The combinations the x coordinates of both sums are made of. */
  function SixOf(a: Affine, b: Affine, e: Affine): Six {
    var (p, q, p', q') := (Alpha(a, b), Beta(a, b), Alpha(e, b), Beta(e, b));
    Six(p * e.y + q * e.x, q * e.x - p * e.y, q' * a.x - p' * a.y,
        p * e.x + q * e.y, q * e.y - p * e.x, q' * a.y - p' * a.x)
  }

  /** The combinations seen from the first and from the middle point. */
  lemma SixFromOthers(a: Affine, b: Affine, e: Affine)
    ensures var v := SixOf(a, b, e);
            var (p, q, p', q') := (Alpha(e, b), Beta(e, b), a.y * e.x - a.x * e.y, a.x * e.x - a.y * e.y);
            && v.s == p * a.y + q * a.x && v.t == p * a.x + q * a.y
            && v.l == p' * b.y + q' * b.x && v.r == q' * b.x - p' * b.y
            && v.k == -(p' * b.x + q' * b.y) && v.j == -(q' * b.y - p' * b.x)
  {
    EightProducts(a.x, a.y, b.x, b.y, e.x, e.y);
    EightProducts(e.x, e.y, b.x, b.y, a.x, a.y);
    CrossedProducts(a.x, a.y, b.x, b.y, e.x, e.y);
    ProductsInOrder(a.x, b.x, e.x);
    ProductsInOrder(a.x, b.x, e.y);
    ProductsInOrder(a.x, b.y, e.x);
    ProductsInOrder(a.x, b.y, e.y);
    ProductsInOrder(a.y, b.x, e.x);
    ProductsInOrder(a.y, b.x, e.y);
    ProductsInOrder(a.y, b.y, e.x);
    ProductsInOrder(a.y, b.y, e.y);
  }

  lemma ProductsInOrder(x: int, y: int, z: int)
    ensures (z * y) * x == (x * y) * z && (x * z) * y == (x * y) * z
  {
  }

  lemma EightProducts(x1: int, y1: int, x2: int, y2: int, x3: int, y3: int)
    ensures (x1 * y2 + y1 * x2) * y3 == (x1 * y2) * y3 + (y1 * x2) * y3
    ensures (x1 * y2 + y1 * x2) * x3 == (x1 * y2) * x3 + (y1 * x2) * x3
    ensures (y1 * y2 + x1 * x2) * y3 == (y1 * y2) * y3 + (x1 * x2) * y3
    ensures (y1 * y2 + x1 * x2) * x3 == (y1 * y2) * x3 + (x1 * x2) * x3
  {
  }

  lemma CrossedProducts(x1: int, y1: int, x2: int, y2: int, x3: int, y3: int)
    ensures (y1 * x3 - x1 * y3) * y2 == (y1 * x3) * y2 - (x1 * y3) * y2
    ensures (y1 * x3 - x1 * y3) * x2 == (y1 * x3) * x2 - (x1 * y3) * x2
    ensures (x1 * x3 - y1 * y3) * y2 == (x1 * x3) * y2 - (y1 * y3) * y2
    ensures (x1 * x3 - y1 * y3) * x2 == (x1 * x3) * x2 - (y1 * y3) * x2
  {
  }

  /** The same for the y coordinates: the roles of s and t exchanged, and the signs. */
  function Crossed(v: Six): Six {
    Six(v.t, v.k, v.j, -v.s, -v.l, -v.r)
  }

  function Opposite(z: Sizes): Sizes {
    z.(s1 := -z.s1, s2 := -z.s2, s3 := -z.s3)
  }

  /** What s of an outer point and of the middle one make of the combinations. */
  predicate OuterTurned(m: nat, s: int, u: int, k: int, vs: int, vl: int, vt: int, vk: int)
    requires m > 0
  {
    && Eq(m, s * vs, 2 * (u * vt) - k * vl) && Eq(m, s * vl, 2 * (u * vk) - k * vs)
    && Eq(m, (-s) * vt, 2 * (u * (-vs)) - k * vk) && Eq(m, (-s) * vk, 2 * (u * (-vl)) - k * vt)
  }

  predicate MiddleTurned(m: nat, s: int, u: int, k: int, v: Six)
    requires m > 0
  {
    && Eq(m, s * v.l, -2 * (u * v.k) - k * v.r) && Eq(m, s * v.r, -2 * (u * v.j) - k * v.l)
    && Eq(m, (-s) * v.k, -2 * (u * (-v.l)) - k * v.j) && Eq(m, (-s) * v.j, -2 * (u * (-v.r)) - k * v.k)
  }

  lemma OuterTurns(m: nat, s: int, u: int, k: int, x: int, y: int, p: int, q: int)
    requires m > 0 && Turns(m, s, u, k, x, y)
    ensures OuterTurned(m, s, u, k, p * y + q * x, q * x - p * y, p * x + q * y, q * y - p * x)
  {
    hide *;
    CombinationsCombine(m, s, u, k, x, y, p, q);
    OuterFromCombined(m, s, u, k, p * y + q * x, q * x - p * y, p * x + q * y, q * y - p * x);
  }

  lemma OuterFromCombined(m: nat, s: int, u: int, k: int, vs: int, vl: int, vt: int, vk: int)
    requires m > 0 && Combine(m, s, u, k, vs, vl, vt, vk)
    ensures OuterTurned(m, s, u, k, vs, vl, vt, vk)
  {
    hide Eq;
    Negated(m, s, vt, u, vs, k, vk);
    Negated(m, s, vk, u, vl, k, vt);
  }

  lemma Negated(m: nat, s: int, p: int, u: int, x: int, k: int, y: int)
    requires m > 0 && Eq(m, s * p, 2 * (u * x) + k * y)
    ensures Eq(m, (-s) * p, 2 * (u * (-x)) - k * y)
  {
    hide *;
    EqSelf(m, -1);
    EqMul(m, -1, -1, s * p, 2 * (u * x) + k * y);
    NegatedProduct(s, p);
    NegatedProduct(u, x);
  }

  lemma NegatedProduct(a: int, b: int)
    ensures -1 * (a * b) == -(a * b) && (-a) * b == -(a * b) && a * (-b) == -(a * b)
  {
  }

  /** The four facts of `TurnsCombinations` with names for the combinations. */
  predicate Combine(m: nat, s: int, u: int, k: int, e: int, f: int, g: int, h: int)
    requires m > 0
  {
    && Eq(m, s * e, 2 * (u * g) - k * f) && Eq(m, s * f, 2 * (u * h) - k * e)
    && Eq(m, s * g, 2 * (u * e) + k * h) && Eq(m, s * h, 2 * (u * f) + k * g)
  }

  lemma CombinationsCombine(m: nat, s: int, u: int, k: int, x: int, y: int, p: int, q: int)
    requires m > 0 && Turns(m, s, u, k, x, y)
    ensures Combine(m, s, u, k, p * y + q * x, q * x - p * y, p * x + q * y, q * y - p * x)
  {
    TurnsCombinations(m, s, u, k, x, y, p, q);
    hide Eq, Turns;
  }

  lemma MiddleTurns(m: nat, s: int, u: int, k: int, x: int, y: int, p: int, q: int, v: Six)
    requires m > 0 && Turns(m, s, u, k, x, y)
    requires v.l == p * y + q * x && v.r == q * x - p * y && v.k == -(p * x + q * y) && v.j == -(q * y - p * x)
    ensures MiddleTurned(m, s, u, k, v)
  {
    hide *;
    CombinationsCombine(m, s, u, k, x, y, p, q);
    assert Combine(m, s, u, k, v.l, v.r, -v.k, -v.j);
    MiddleFromCombined(m, s, u, k, v);
  }

  lemma MiddleFromCombined(m: nat, s: int, u: int, k: int, v: Six)
    requires m > 0 && Combine(m, s, u, k, v.l, v.r, -v.k, -v.j)
    ensures MiddleTurned(m, s, u, k, v)
  {
    hide Eq;
    MiddleOne(m, s, u, k, v.l, v.k, v.r);
    MiddleOne(m, s, u, k, v.r, v.j, v.l);
    MiddleOther(m, s, u, k, v.k, v.l, v.j);
    MiddleOther(m, s, u, k, v.j, v.r, v.k);
  }

  lemma MiddleOne(m: nat, s: int, u: int, k: int, x: int, y: int, z: int)
    requires m > 0 && Eq(m, s * x, 2 * (u * (-y)) - k * z)
    ensures Eq(m, s * x, -2 * (u * y) - k * z)
  {
    hide *;
    NegatedProduct(u, y);
  }

  lemma MiddleOther(m: nat, s: int, u: int, k: int, x: int, y: int, z: int)
    requires m > 0 && Eq(m, s * (-x), 2 * (u * y) + k * (-z))
    ensures Eq(m, (-s) * x, -2 * (u * (-y)) - k * z)
  {
    hide *;
    NegatedProduct(s, x);
    NegatedProduct(u, y);
    NegatedProduct(k, z);
  }

  lemma SixTurned(c: Curve, a: Affine, b: Affine, e: Affine)
    requires c.m > 0 && CurveEquation(c, a.x, a.y) && CurveEquation(c, b.x, b.y) && CurveEquation(c, e.x, e.y)
    ensures Turned(c.m, SizesOf(c.d, a, b, e), SixOf(a, b, e))
    ensures Turned(c.m, Opposite(SizesOf(c.d, a, b, e)), Crossed(SixOf(a, b, e)))
  {
    hide *;
    var z, v := SizesOf(c.d, a, b, e), SixOf(a, b, e);
    var m, k1, k2, k3 := c.m, Level(c.d, a.x * a.y), Level(c.d, b.x * b.y), Level(c.d, e.x * e.y);
    NormTurns(c, a);
    NormTurns(c, b);
    NormTurns(c, e);
    OuterTurns(m, Norm(e), e.x * e.y, k3, e.x, e.y, Alpha(a, b), Beta(a, b));
    OuterTurns(m, Norm(a), a.x * a.y, k1, a.x, a.y, Alpha(e, b), Beta(e, b));
    SixFromOthers(a, b, e);
    MiddleTurns(m, Norm(b), b.x * b.y, k2, b.x, b.y, a.y * e.x - a.x * e.y, a.x * e.x - a.y * e.y, v);
    SixMeans(a, b, e);
    SizesMeans(c.d, a, b, e);
    TurnedFromPoints(m, z, v);
  }

  lemma SixMeans(a: Affine, b: Affine, e: Affine)
    ensures var (v, p, q, p', q') := (SixOf(a, b, e), Alpha(a, b), Beta(a, b), Alpha(e, b), Beta(e, b));
            && v.s == p * e.y + q * e.x && v.l == q * e.x - p * e.y && v.r == q' * a.x - p' * a.y
            && v.t == p * e.x + q * e.y && v.k == q * e.y - p * e.x && v.j == q' * a.y - p' * a.x
  {
  }

  lemma SizesMeans(d: int, a: Affine, b: Affine, e: Affine)
    ensures var z := SizesOf(d, a, b, e);
            && z.d == d && z.u1 == a.x * a.y && z.u2 == b.x * b.y && z.u3 == e.x * e.y
            && z.s1 == Norm(a) && z.s2 == Norm(b) && z.s3 == Norm(e)
  {
  }

  lemma TurnedFromPoints(m: nat, z: Sizes, v: Six)
    requires m > 0
    requires OuterTurned(m, z.s3, z.u3, Level(z.d, z.u3), v.s, v.l, v.t, v.k)
    requires OuterTurned(m, z.s1, z.u1, Level(z.d, z.u1), v.s, v.r, v.t, v.j)
    requires MiddleTurned(m, z.s2, z.u2, Level(z.d, z.u2), v)
    ensures Turned(m, z, v) && Turned(m, Opposite(z), Crossed(v))
  {
    hide Eq, Level;
  }

  // ---------------------------------------------------------------- the sum of a sum

  /** With p = alpha / g and q = beta / f for 1 + w and 1 - w over f g: both
      coordinates of the second sum, over f g. */
  lemma ScaledTops(m: nat, f: int, g: int, p: int, q: int, alpha: int, beta: int, x: int, y: int)
    requires m > 0 && Eq(m, p * g, alpha) && Eq(m, q * f, beta)
    ensures Eq(m, (p * y + q * x) * (f * g), (alpha * f) * y + (beta * g) * x)
    ensures Eq(m, (q * y + p * x) * (f * g), (beta * g) * y + (alpha * f) * x)
  {
    hide *;
    EqSelf(m, x);
    EqSelf(m, y);
    EqSelf(m, f);
    EqSelf(m, g);
    EqMul(m, p * g, alpha, f, f);
    EqMul(m, q * f, beta, g, g);
    EqMul(m, (p * g) * f, alpha * f, x, x);
    EqMul(m, (p * g) * f, alpha * f, y, y);
    EqMul(m, (q * f) * g, beta * g, x, x);
    EqMul(m, (q * f) * g, beta * g, y, y);
    EqAdd(m, ((p * g) * f) * y, (alpha * f) * y, ((q * f) * g) * x, (beta * g) * x);
    EqAdd(m, ((q * f) * g) * y, (beta * g) * y, ((p * g) * f) * x, (alpha * f) * x);
    TopsMoved(f, g, p, q, x, y);
    TopsMoved(f, g, p, q, y, x);
  }

  lemma TopsMoved(f: int, g: int, p: int, q: int, x: int, y: int)
    ensures (p * y + q * x) * (f * g) == ((p * g) * f) * y + ((q * f) * g) * x
    ensures (q * x + p * y) * (f * g) == ((q * f) * g) * x + ((p * g) * f) * y
  {
    Spread(f * g, p * y, q * x);
    ThreeMoved(p, y, f, g);
    ThreeMoved(q, x, g, f);
    assert f * g == g * f;
  }

  lemma ThreeMoved(p: int, y: int, f: int, g: int)
    ensures (f * g) * (p * y) == ((p * g) * f) * y
  {
    assert (p * g) * f == p * (f * g);
    Regrouped(p, f * g, y);
    MovedIn(f * g, p, y);
  }

  /** The second denominators, over f g. */
  lemma ScaledBottoms(m: nat, d: int, f: int, g: int, p: int, q: int, alpha: int, beta: int, u: int)
    requires m > 0 && Eq(m, p * g, alpha) && Eq(m, q * f, beta)
    ensures var w := d * (p * q) * u;
            && Eq(m, (1 + w) * (f * g), f * g + (d * u) * (alpha * beta))
            && Eq(m, (1 - w) * (f * g), f * g - (d * u) * (alpha * beta))
  {
    hide *;
    var w := d * (p * q) * u;
    EqSelf(m, d * u);
    EqSelf(m, f * g);
    EqMul(m, p * g, alpha, q * f, beta);
    EqMul(m, d * u, d * u, (p * g) * (q * f), alpha * beta);
    EqAdd(m, f * g, f * g, (d * u) * ((p * g) * (q * f)), (d * u) * (alpha * beta));
    BottomMoved(d, f, g, p, q, u);
    OneMore(f * g, w);
    assert (1 + w) * (f * g) == (f * g) * (1 + w) && (1 - w) * (f * g) == (f * g) * (1 - w);
  }

  lemma BottomMoved(d: int, f: int, g: int, p: int, q: int, u: int)
    ensures (f * g) * (d * (p * q) * u) == (d * u) * ((p * g) * (q * f))
  {
    Swap(p, g, q, f);
    assert g * f == f * g;
    assert d * (p * q) * u == (d * u) * (p * q);
    MovedIn(f * g, d * u, p * q);
    assert (f * g) * (p * q) == (p * q) * (f * g);
  }

  /** x n = t, n k = b and t k = s: then x b = s. */
  lemma OverCommon(m: nat, x: int, n: int, t: int, k: int, b: int, s: int)
    requires m > 0 && Eq(m, x * n, t) && Eq(m, n * k, b) && Eq(m, t * k, s)
    ensures Eq(m, x * b, s)
  {
    hide *;
    EqSelf(m, x);
    EqSelf(m, k);
    EqMul(m, x, x, n * k, b);
    EqMul(m, x * n, t, k, k);
    Regrouped(x, n, k);
    EqSym(m, x * (n * k), x * b);
    EqTrans(m, x * b, (x * n) * k, t * k);
    EqTrans(m, x * b, t * k, s);
  }

  /** The parts of both sums in terms of the sizes and the combinations. */
  lemma TopsAre(c: Curve, a: Affine, b: Affine, e: Affine)
    ensures var (z, v) := (SizesOf(c.d, a, b, e), SixOf(a, b, e));
            var (f, g) := (1 - Delta(c, a, b), 1 + Delta(c, a, b));
            && (Alpha(a, b) * f) * e.y + (Beta(a, b) * g) * e.x == LeftTop(z, v)
            && (Beta(a, b) * g) * e.y + (Alpha(a, b) * f) * e.x == LeftTop(Opposite(z), Crossed(v))
  {
    var delta, p, q := Delta(c, a, b), Alpha(a, b), Beta(a, b);
    DeltaIs(c, a, b);
    OneMore(p, delta);
    OneMore(q, delta);
    hide Delta, Alpha, Beta;
    TopCollected(delta, p, q, e.x, e.y);
  }

  lemma TopCollected(w: int, p: int, q: int, x: int, y: int)
    ensures (p * (1 - w)) * y + (q * (1 + w)) * x == (p * y + q * x) + w * (q * x - p * y)
    ensures (q * (1 + w)) * y + (p * (1 - w)) * x == (p * x + q * y) + w * (q * y - p * x)
  {
    OneMore(p, w);
    OneMore(q, w);
    LessFactored(w, q * x, p * y);
    LessFactored(w, q * y, p * x);
    LessOneTimes(p, w, y);
    LessOneTimes(p, w, x);
    LessOneTimes(q, w, x);
    LessOneTimes(q, w, y);
  }

  lemma LessOneTimes(p: int, w: int, y: int)
    ensures (p - p * w) * y == p * y - w * (p * y) && (p + p * w) * y == p * y + w * (p * y)
  {
    assert (p * w) * y == w * (p * y);
  }

  lemma BottomsAre(c: Curve, a: Affine, b: Affine, e: Affine)
    ensures var (z, u) := (SizesOf(c.d, a, b, e), e.x * e.y);
            var (f, g) := (1 - Delta(c, a, b), 1 + Delta(c, a, b));
            && f * g + (c.d * u) * (Alpha(a, b) * Beta(a, b)) == LeftBottom(z)
            && f * g - (c.d * u) * (Alpha(a, b) * Beta(a, b)) == LeftBottom(Opposite(z))
  {
    var u1, u2, u, delta := a.x * a.y, b.x * b.y, e.x * e.y, Delta(c, a, b);
    DeltaIs(c, a, b);
    ProductOfNumerators(a, b);
    hide Delta, Alpha, Beta, Norm;
    ProductOfDifferences(1, delta, 1, -delta);
    Spread(c.d * u, u1 * Norm(b), u2 * Norm(a));
    assert (c.d * u) * (u1 * Norm(b)) == (c.d * (u1 * u)) * Norm(b);
    assert (c.d * u) * (u2 * Norm(a)) == (c.d * (u2 * u)) * Norm(a);
    NegatedProduct(c.d * (u1 * u), Norm(b));
    NegatedProduct(c.d * (u2 * u), Norm(a));
  }

  lemma ProductOfNumerators(a: Affine, b: Affine)
    ensures Alpha(a, b) * Beta(a, b) == (a.x * a.y) * Norm(b) + (b.x * b.y) * Norm(a)
  {
    var p, q, r, s := a.x, a.y, b.x, b.y;
    Spread(p * s + q * r, q * s, p * r);
    Spread(q * s, p * s, q * r);
    Spread(p * r, p * s, q * r);
    FourFactors(q, s, p, s);
    FourFactors(q, s, q, r);
    FourFactors(p, r, p, s);
    FourFactors(p, r, q, r);
    Spread(p * q, r * r, s * s);
    Spread(r * s, p * p, q * q);
  }

  lemma SumOfSum(c: Curve, a: Affine, b: Affine, e: Affine)
    requires Sound(c) && OnCurve(c, a) && OnCurve(c, b) && OnCurve(c, e)
    ensures var (z, v, sum) := (SizesOf(c.d, a, b, e), SixOf(a, b, e), Add(c, Add(c, a, b), e));
            && !Eq(c.m, LeftBottom(z), 0) && Eq(c.m, sum.x * LeftBottom(z), LeftTop(z, v))
            && !Eq(c.m, LeftBottom(Opposite(z)), 0)
            && Eq(c.m, sum.y * LeftBottom(Opposite(z)), LeftTop(Opposite(z), Crossed(v)))
  {
    hide *;
    CurveMeans(c, a);
    CurveMeans(c, b);
    CurveMeans(c, e);
    AddOnCurve(c, a, b);
    var m, ab := c.m, Add(c, a, b);
    CurveMeans(c, ab);
    DenominatorsAreNotZero(c, a, b);
    DenominatorsAreNotZero(c, ab, e);
    SumQuotients(c, a, b);
    SumQuotients(c, ab, e);
    SumsMean(c, ab, e);
    var f, g, w := 1 - Delta(c, a, b), 1 + Delta(c, a, b), Delta(c, ab, e);
    ScaledTops(m, f, g, ab.x, ab.y, Alpha(a, b), Beta(a, b), e.x, e.y);
    ScaledBottoms(m, c.d, f, g, ab.x, ab.y, Alpha(a, b), Beta(a, b), e.x * e.y);
    TopsAre(c, a, b, e);
    BottomsAre(c, a, b, e);
    var z, v, sum := SizesOf(c.d, a, b, e), SixOf(a, b, e), Add(c, ab, e);
    OverCommon(m, sum.x, 1 + w, Alpha(ab, e), f * g, LeftBottom(z), LeftTop(z, v));
    OverCommon(m, sum.y, 1 - w, Beta(ab, e), f * g, LeftBottom(Opposite(z)), LeftTop(Opposite(z), Crossed(v)));
    ProductIsNotZero(m, f, g);
    ProductIsNotZero(m, 1 + w, f * g);
    ProductIsNotZero(m, 1 - w, f * g);
    EqSym(m, (1 + w) * (f * g), LeftBottom(z));
    EqSym(m, (1 - w) * (f * g), LeftBottom(Opposite(z)));
    NotZeroBoth(m, LeftBottom(z), (1 + w) * (f * g));
    NotZeroBoth(m, LeftBottom(Opposite(z)), (1 - w) * (f * g));
  }

  lemma SumsMean(c: Curve, a: Affine, b: Affine)
    ensures Delta(c, a, b) == c.d * (a.x * a.y) * (b.x * b.y)
    ensures Alpha(a, b) == a.x * b.y + a.y * b.x && Beta(a, b) == a.y * b.y + a.x * b.x
  {
  }

  /** Adding from the right is adding from the left with the points in the other order. */
  lemma SeenFromTheRight(c: Curve, a: Affine, b: Affine, e: Affine)
    ensures var (z, v, z', v') := (SizesOf(c.d, a, b, e), SixOf(a, b, e), SizesOf(c.d, e, b, a), SixOf(e, b, a));
            && LeftTop(z', v') == RightTop(z, v) && LeftBottom(z') == RightBottom(z)
            && LeftTop(Opposite(z'), Crossed(v')) == RightTop(Opposite(z), Crossed(v))
            && LeftBottom(Opposite(z')) == RightBottom(Opposite(z))
  {
    var z, v, z', v' := SizesOf(c.d, a, b, e), SixOf(a, b, e), SizesOf(c.d, e, b, a), SixOf(e, b, a);
    SixFromOthers(a, b, e);
    SixMeans(a, b, e);
    SixMeans(e, b, a);
    assert v'.s == v.s && v'.l == v.r && v'.t == v.t && v'.k == v.j;
    hide SixOf, Norm;
    assert z'.A() == z.B() && z'.B() == z.A() && z'.G() == z.G();
  }

  /** x = s / b and y = t / e where s e = t b. */
  lemma SameQuotient(m: nat, x: int, b: int, s: int, y: int, e: int, t: int)
    requires m > 1 && Fermat(m) && !Eq(m, b, 0) && !Eq(m, e, 0)
    requires Eq(m, x * b, s) && Eq(m, y * e, t) && Eq(m, s * e, t * b)
    ensures Eq(m, x, y)
  {
    hide *;
    EqSelf(m, b);
    EqSelf(m, e);
    EqMul(m, x * b, s, e, e);
    EqMul(m, y * e, t, b, b);
    EqTrans(m, (x * b) * e, s * e, t * b);
    EqSym(m, (y * e) * b, t * b);
    EqTrans(m, (x * b) * e, t * b, (y * e) * b);
    BottomsOut(x, y, b, e);
    ProductIsNotZero(m, b, e);
    Cancel(m, b * e, x, y);
  }

  lemma BottomsOut(x: int, y: int, b: int, e: int)
    ensures (x * b) * e == (b * e) * x && (y * e) * b == (b * e) * y
  {
  }

  /** The law is associative. */
  lemma AddAssociates(c: Curve, a: Affine, b: Affine, e: Affine)
    requires Sound(c) && OnCurve(c, a) && OnCurve(c, b) && OnCurve(c, e)
    ensures Add(c, Add(c, a, b), e) == Add(c, a, Add(c, b, e))
  {
    hide *;
    CurveMeans(c, a);
    CurveMeans(c, b);
    CurveMeans(c, e);
    var m, z, v := c.m, SizesOf(c.d, a, b, e), SixOf(a, b, e);
    var left, right := Add(c, Add(c, a, b), e), Add(c, Add(c, e, b), a);
    SumOfSum(c, a, b, e);
    SumOfSum(c, e, b, a);
    SeenFromTheRight(c, a, b, e);
    SixTurned(c, a, b, e);
    Balanced(m, z, v);
    Balanced(m, Opposite(z), Crossed(v));
    SameQuotient(m, left.x, LeftBottom(z), LeftTop(z, v), right.x, RightBottom(z), RightTop(z, v));
    SameQuotient(m, left.y, LeftBottom(Opposite(z)), LeftTop(Opposite(z), Crossed(v)),
                 right.y, RightBottom(Opposite(z)), RightTop(Opposite(z), Crossed(v)));
    AddIsReduced(c, Add(c, a, b), e);
    AddIsReduced(c, Add(c, e, b), a);
    EqSmall(m, left.x, right.x);
    EqSmall(m, left.y, right.y);
    AddCommutes(c, e, b);
    AddCommutes(c, Add(c, b, e), a);
  }

  lemma AddIsReduced(c: Curve, a: Affine, b: Affine)
    requires c.m > 1
    ensures 0 <= Add(c, a, b).x < c.m && 0 <= Add(c, a, b).y < c.m
  {
    hide Inv, Delta;
  }
}
