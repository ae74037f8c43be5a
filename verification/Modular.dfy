/** Integers modulo m: congruence, powers, and what follows when every nonzero
    element raised to m - 1 is one. */
module Modular {

  predicate Eq(m: nat, a: int, b: int)
    requires m > 0
  {
    (a - b) % m == 0
  }

  lemma MultipleIsZero(m: nat, k: int)
    requires m > 0
    ensures (m * k) % m == 0
  {
    var q, r := (m * k) / m, (m * k) % m;
    assert m * k == m * q + r;
    assert m * (k - q) == r;
    assert k - q >= 1 ==> m * (k - q) >= m * 1;
    assert k - q <= -1 ==> m * (k - q) <= m * (-1);
  }

  lemma EqOfMultiple(m: nat, a: int, b: int, k: int)
    requires m > 0 && a - b == m * k
    ensures Eq(m, a, b)
  {
    MultipleIsZero(m, k);
  }

  function Quotient(m: nat, a: int, b: int): (k: int)
    requires m > 0 && Eq(m, a, b)
    ensures a - b == m * k
  {
    (a - b) / m
  }

  lemma EqSym(m: nat, a: int, b: int)
    requires m > 0 && Eq(m, a, b)
    ensures Eq(m, b, a)
  {
    var k := Quotient(m, a, b);
    assert b - a == m * (-k);
    EqOfMultiple(m, b, a, -k);
  }

  lemma EqTrans(m: nat, a: int, b: int, c: int)
    requires m > 0 && Eq(m, a, b) && Eq(m, b, c)
    ensures Eq(m, a, c)
  {
    var j, k := Quotient(m, a, b), Quotient(m, b, c);
    assert a - c == m * (j + k);
    EqOfMultiple(m, a, c, j + k);
  }

  lemma EqAdd(m: nat, a: int, b: int, c: int, d: int)
    requires m > 0 && Eq(m, a, b) && Eq(m, c, d)
    ensures Eq(m, a + c, b + d) && Eq(m, a - c, b - d)
  {
    var j, k := Quotient(m, a, b), Quotient(m, c, d);
    assert (a + c) - (b + d) == m * (j + k);
    assert (a - c) - (b - d) == m * (j - k);
    EqOfMultiple(m, a + c, b + d, j + k);
    EqOfMultiple(m, a - c, b - d, j - k);
  }

  lemma EqMul(m: nat, a: int, b: int, c: int, d: int)
    requires m > 0 && Eq(m, a, b) && Eq(m, c, d)
    ensures Eq(m, a * c, b * d)
  {
    var j, k := Quotient(m, a, b), Quotient(m, c, d);
    assert a * c - b * d == (a - b) * c + b * (c - d);
    assert (a - b) * c == m * (j * c);
    assert b * (c - d) == m * (b * k);
    assert a * c - b * d == m * (j * c + b * k);
    EqOfMultiple(m, a * c, b * d, j * c + b * k);
  }

  lemma EqMod(m: nat, a: int)
    requires m > 0
    ensures Eq(m, a % m, a) && Eq(m, a, a % m) && 0 <= a % m < m
  {
    assert a % m - a == m * (-(a / m));
    EqOfMultiple(m, a % m, a, -(a / m));
    EqSym(m, a % m, a);
  }

  lemma EqSmall(m: nat, a: int, b: int)
    requires m > 0 && Eq(m, a, b) && 0 <= a < m && 0 <= b < m
    ensures a == b
  {
    var k := Quotient(m, a, b);
    assert k >= 1 ==> m * k >= m * 1;
    assert k <= -1 ==> m * k <= m * (-1);
  }

  lemma EqModIff(m: nat, a: int, b: int)
    requires m > 0
    ensures Eq(m, a, b) <==> a % m == b % m
  {
    EqMod(m, a);
    EqMod(m, b);
    if Eq(m, a, b) {
      EqTrans(m, a % m, a, b);
      EqTrans(m, a % m, b, b % m);
      EqSmall(m, a % m, b % m);
    } else if a % m == b % m {
      EqTrans(m, a, a % m, b);
    }
  }

  // ---------------------------------------------------------------- powers

  function Pow(b: int, e: nat): int {
    if e == 0 then 1 else b * Pow(b, e - 1)
  }

  lemma {:induction false} PowAdd(b: int, d: nat, e: nat)
    ensures Pow(b, d + e) == Pow(b, d) * Pow(b, e)
  {
    if d > 0 {
      PowAdd(b, d - 1, e);
      assert b * (Pow(b, d - 1) * Pow(b, e)) == (b * Pow(b, d - 1)) * Pow(b, e);
    }
  }

  lemma {:induction false} PowOfSquare(b: int, e: nat)
    ensures Pow(b * b, e) == Pow(b, 2 * e)
  {
    if e > 0 {
      PowOfSquare(b, e - 1);
      assert Pow(b, 2 * e) == b * Pow(b, 2 * e - 1) == b * (b * Pow(b, 2 * e - 2));
      assert b * (b * Pow(b, 2 * e - 2)) == (b * b) * Pow(b, 2 * e - 2);
    }
  }

  lemma {:induction false} EqPow(m: nat, a: int, b: int, e: nat)
    requires m > 0 && Eq(m, a, b)
    ensures Eq(m, Pow(a, e), Pow(b, e))
  {
    if e > 0 {
      EqPow(m, a, b, e - 1);
      EqMul(m, a, b, Pow(a, e - 1), Pow(b, e - 1));
    }
  }

  // ---------------------------------------------------------------- inverses

  /** Fermat's little theorem for this modulus: what its primality gives. */
  ghost predicate Fermat(m: nat)
    requires m > 0
  {
    forall z: int :: !Eq(m, z, 0) ==> Eq(m, Pow(z, m - 1), 1)
  }

  function Inv(m: nat, z: int): int
    requires m > 1
  {
    Pow(z, m - 2) % m
  }

  lemma InvIsInverse(m: nat, z: int)
    requires m > 1 && Fermat(m) && !Eq(m, z, 0)
    ensures Eq(m, z * Inv(m, z), 1)
  {
    EqMod(m, Pow(z, m - 2));
    EqMul(m, z, z, Inv(m, z), Pow(z, m - 2));
    assert z * Pow(z, m - 2) == Pow(z, m - 1);
    EqTrans(m, z * Inv(m, z), Pow(z, m - 1), 1);
  }

  /** A factor that is not zero cancels. */
  lemma Cancel(m: nat, z: int, a: int, b: int)
    requires m > 1 && Fermat(m) && !Eq(m, z, 0) && Eq(m, z * a, z * b)
    ensures Eq(m, a, b)
  {
    var i := Inv(m, z);
    InvIsInverse(m, z);
    Scaled(m, z, i, a);
    Scaled(m, z, i, b);
    EqMul(m, i, i, z * a, z * b);
    EqTrans(m, a, i * (z * a), i * (z * b));
    EqSym(m, b, i * (z * b));
    EqTrans(m, a, i * (z * b), b);
  }

  lemma Scaled(m: nat, z: int, i: int, a: int)
    requires m > 0 && Eq(m, z * i, 1)
    ensures Eq(m, a, i * (z * a))
  {
    EqMul(m, z * i, 1, a, a);
    assert (z * i) * a == i * (z * a);
    EqSym(m, i * (z * a), a);
  }

  /** No two nonzero factors make zero. */
  lemma NoZeroDivisors(m: nat, a: int, b: int)
    requires m > 1 && Fermat(m) && Eq(m, a * b, 0)
    ensures Eq(m, a, 0) || Eq(m, b, 0)
  {
    if !Eq(m, a, 0) {
      assert a * 0 == 0;
      Cancel(m, a, b, 0);
    }
  }

  /** Equal squares come from equal or opposite numbers. */
  lemma EqualSquares(m: nat, a: int, b: int)
    requires m > 1 && Fermat(m) && Eq(m, a * a, b * b)
    ensures Eq(m, a, b) || Eq(m, a, -b)
  {
    assert (a - b) * (a + b) == a * a - b * b;
    NoZeroDivisors(m, a - b, a + b);
    assert a - b - 0 == a - b && a + b - 0 == a - (-b);
  }
}
