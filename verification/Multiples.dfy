/** Multiples of a point, and the loop that computes them by doubling and adding. */
module Multiples {
  import opened Modular
  import opened Edwards
  import opened EdwardsGroup
  import EdwardsAssociates

  /** n-fold addition. */
  function Multiple(c: Curve, n: nat, a: Affine): Affine
    requires c.m > 1
  {
    if n == 0 then ZERO else Add(c, Multiple(c, n - 1, a), a)
  }

  lemma {:induction false} MultipleOnCurve(c: Curve, n: nat, a: Affine)
    requires Sound(c) && OnCurve(c, a)
    ensures OnCurve(c, Multiple(c, n, a))
  {
    hide Add, OnCurve, Sound;
    CurveMeans(c, a);
    if n == 0 {
      ZeroIsNeutral(c, a);
    } else {
      MultipleOnCurve(c, n - 1, a);
      AddOnCurve(c, Multiple(c, n - 1, a), a);
    }
  }

  lemma {:induction false} MultipleAdds(c: Curve, j: nat, k: nat, a: Affine)
    requires Sound(c) && OnCurve(c, a)
    ensures Multiple(c, j + k, a) == Add(c, Multiple(c, j, a), Multiple(c, k, a))
  {
    hide Add, OnCurve, Sound;
    CurveMeans(c, a);
    MultipleOnCurve(c, j, a);
    if k == 0 {
      ZeroIsNeutral(c, Multiple(c, j, a));
    } else {
      MultipleAdds(c, j, k - 1, a);
      MultipleOnCurve(c, k - 1, a);
      EdwardsAssociates.AddAssociates(c, Multiple(c, j, a), Multiple(c, k - 1, a), a);
    }
  }

  lemma {:induction false} MultipleOfMultiple(c: Curve, j: nat, k: nat, a: Affine)
    requires Sound(c) && OnCurve(c, a)
    ensures Multiple(c, j, Multiple(c, k, a)) == Multiple(c, j * k, a)
  {
    hide Add, OnCurve, Sound;
    CurveMeans(c, a);
    if j > 0 {
      MultipleOfMultiple(c, j - 1, k, a);
      assert (j - 1) * k + k == j * k;
      MultipleAdds(c, (j - 1) * k, k, a);
    }
  }

  lemma {:induction false} MultipleOfOrder(c: Curve, n: nat, order: nat, a: Affine)
    requires Sound(c) && OnCurve(c, a) && order > 0 && Multiple(c, order, a) == ZERO
    ensures Multiple(c, n % order, a) == Multiple(c, n, a)
    decreases n
  {
    hide *;
    if n >= order {
      CurveMeans(c, a);
      MultipleOfOrder(c, n - order, order, a);
      LessOneModulus(n, order);
      MultipleAdds(c, n - order, order, a);
      MultipleOnCurve(c, n - order, a);
      ZeroIsNeutral(c, Multiple(c, n - order, a));
    } else {
      assert n % order == n;
    }
  }

  lemma LessOneModulus(n: nat, m: nat)
    requires 0 < m <= n
    ensures (n - m) % m == n % m
  {
    assert n - (n - m) == m * 1;
    EqOfMultiple(m, n, n - m, 1);
    EqModIff(m, n, n - m);
  }

  // ---------------------------------------------------------------- double and add

  function DoubleAndAdd(c: Curve, result: Point, point: Point, n: nat): Point
    requires c.m > 0
    decreases n
  {
    hide EdwardsAdd;
    if n == 0 then result
    else
      DoubleAndAdd(c, if n % 2 == 1 then EdwardsAdd(c, result, point) else result, EdwardsAdd(c, point, point), n / 2)
  }

  method ScalarMult(c: Curve, start: Point, times: nat) returns (result: Point)
    requires c.m > 0
    ensures result == DoubleAndAdd(c, NEUTRAL, start, times)
  {
    hide EdwardsAdd;
    result := NEUTRAL;
    var point, n := start, times;
    while n > 0
      invariant DoubleAndAdd(c, result, point, n) == DoubleAndAdd(c, NEUTRAL, start, times)
    {
      if n % 2 == 1 {
        result := EdwardsAdd(c, result, point);
      }
      point := EdwardsAdd(c, point, point);
      n := n / 2;
    }
  }

  /** The loop from any of its states: what is accumulated plus n times what the point stands for. */
  lemma {:induction false} DoubleAndAddIsMultiple(c: Curve, result: Point, point: Point, n: nat, r: Affine, a: Affine)
    requires Sound(c) && OnCurve(c, r) && OnCurve(c, a) && Represents(c, result, r) && Represents(c, point, a)
    ensures Represents(c, DoubleAndAdd(c, result, point, n), Add(c, r, Multiple(c, n, a)))
    decreases n
  {
    hide EdwardsAdd, Add, Represents, OnCurve, Sound;
    CurveMeans(c, a);
    if n == 0 {
      ZeroIsNeutral(c, r);
    } else {
      var double, half := Add(c, a, a), n / 2;
      AddRepresents(c, point, point, a, a);
      AddOnCurve(c, a, a);
      DoublingMultiple(c, half, a);
      MultipleOnCurve(c, 2 * half, a);
      if n % 2 == 1 {
        AddRepresents(c, result, point, r, a);
        AddOnCurve(c, r, a);
        DoubleAndAddIsMultiple(c, EdwardsAdd(c, result, point), EdwardsAdd(c, point, point), half, Add(c, r, a), double);
        AddCommutes(c, a, Multiple(c, 2 * half, a));
        EdwardsAssociates.AddAssociates(c, r, a, Multiple(c, 2 * half, a));
      } else {
        DoubleAndAddIsMultiple(c, result, EdwardsAdd(c, point, point), half, r, double);
      }
    }
  }

  lemma {:induction false} DoublingMultiple(c: Curve, n: nat, a: Affine)
    requires Sound(c) && OnCurve(c, a)
    ensures Multiple(c, n, Add(c, a, a)) == Multiple(c, 2 * n, a)
  {
    hide Add, OnCurve, Sound;
    CurveMeans(c, a);
    ZeroIsNeutral(c, a);
    assert Multiple(c, 1, a) == Add(c, Multiple(c, 0, a), a);
    assert Multiple(c, 2, a) == Add(c, Multiple(c, 1, a), a);
    MultipleOfMultiple(c, n, 2, a);
  }

  /** Double-and-add is n-fold addition. */
  lemma ScalarMultIsMultiple(c: Curve, point: Point, n: nat, a: Affine)
    requires Sound(c) && OnCurve(c, a) && Represents(c, point, a)
    ensures Represents(c, DoubleAndAdd(c, NEUTRAL, point, n), Multiple(c, n, a))
  {
    NeutralIsZero(c);
    ZeroIsNeutral(c, a);
    DoubleAndAddIsMultiple(c, NEUTRAL, point, n, ZERO, a);
    MultipleOnCurve(c, n, a);
    ZeroIsNeutral(c, Multiple(c, n, a));
  }
}
