/** The smallest curve of the kind the tool's is: modulo 5, with four points.
    What the signature theorems ask of their parameters can be met. */
module SmallCurve {
  import opened Modular
  import opened Edwards
  import opened EdwardsGroup
  import opened Multiples
  import opened Ed25519
  import opened Ed25519Theorems

  const FIVE := Curve(5, 2, 2)

  function PointAt(k: nat): Affine {
    if k == 0 then Affine(0, 1) else if k == 1 then Affine(2, 0) else if k == 2 then Affine(0, 4) else Affine(3, 0)
  }

  lemma RemainderDecides(z: int)
    ensures 0 <= z % 5 < 5 && Eq(5, z, z % 5) && Eq(5, z * z, (z % 5) * (z % 5))
  {
    EqMod(5, z);
    EqMul(5, z, z % 5, z, z % 5);
  }

  lemma FourthPowers(r: nat)
    requires 0 < r < 5
    ensures Eq(5, Pow(r, 4), 1)
  {
    assert Pow(r, 1) == r * Pow(r, 0) == r;
    assert Pow(r, 2) == r * Pow(r, 1) == r * r;
    assert Pow(r, 4) == r * Pow(r, 3) == r * (r * Pow(r, 2));
    assert r == 1 || r == 2 || r == 3 || r == 4;
  }

  lemma FivePassesFermat()
    ensures Fermat(5)
  {
    forall z: int | !Eq(5, z, 0)
      ensures Eq(5, Pow(z, 5 - 1), 1)
    {
      RemainderDecides(z);
      EqPow(5, z, z % 5, 4);
      FourthPowers(z % 5);
      EqTrans(5, Pow(z, 4), Pow(z % 5, 4), 1);
    }
  }

  lemma FiveIsSound()
    ensures Sound(FIVE)
  {
    FivePassesFermat();
    forall s: int
      ensures !Eq(5, s * s, 2)
    {
      RemainderDecides(s);
      var r := s % 5;
      assert r == 0 || r == 1 || r == 2 || r == 3 || r == 4;
      if Eq(5, s * s, 2) {
        EqSym(5, s * s, r * r);
        EqTrans(5, r * r, s * s, 2);
        assert false;
      }
    }
  }

  lemma BaseIsOnCurve()
    ensures OnCurve(FIVE, PointAt(1))
  {
  }

  lemma AddWithoutDelta(a: Affine, b: Affine)
    requires a.x * a.y == 0
    ensures Add(FIVE, a, b) == Affine((a.x * b.y + a.y * b.x) % 5, (a.y * b.y + a.x * b.x) % 5)
  {
    hide Inv;
    InverseOfOne(5);
    assert Delta(FIVE, a, b) == 0;
  }

  /** They add like the integers modulo 4. */
  lemma AddsModuloFour(j: nat, k: nat)
    requires j < 4 && k < 4
    ensures Add(FIVE, PointAt(j), PointAt(k)) == PointAt((j + k) % 4)
  {
    hide Add;
    AddWithoutDelta(PointAt(j), PointAt(k));
    assert j == 0 || j == 1 || j == 2 || j == 3;
    assert k == 0 || k == 1 || k == 2 || k == 3;
  }

  lemma {:induction false} MultiplesOfOne(n: nat)
    ensures Multiple(FIVE, n, PointAt(1)) == PointAt(n % 4)
  {
    hide Add;
    if n > 0 {
      MultiplesOfOne(n - 1);
      AddsModuloFour((n - 1) % 4, 1);
    }
  }

  /** A point of order 4 on it: the theorems about signatures speak of something. */
  lemma SmallCurveSuits()
    ensures Suits(Params(FIVE, PointAt(1), 4))
  {
    hide Add, OnCurve, Sound, Multiple;
    FiveIsSound();
    BaseIsOnCurve();
    MultiplesOfOne(4);
  }
}
