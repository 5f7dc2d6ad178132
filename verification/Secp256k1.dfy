/** secp256k1: the curve constants, scalar multiplication of any curve point, and the cached
    generator tables behind the single-inversion sum `point + scalar * G`. */
module Secp256k1 {
  import opened ModularArithmetic
  import opened CurveArithmetic
  import opened Outcomes
  import opened ScalarMultiplication

  const P: int := 0xFFFFFFFFFFFFFFFFFFFFFFFFFFFFFFFFFFFFFFFFFFFFFFFFFFFFFFFEFFFFFC2F
  const N: int := 0xFFFFFFFFFFFFFFFFFFFFFFFFFFFFFFFEBAAEDCE6AF48A03BBFD25E8CD0364141
  const GX: int := 0x79BE667EF9DCBBAC55A06295CE870B07029BFCDB2DCE28D959F2815B16F81798
  const GY: int := 0x483ADA7726A3C4655DA4FBFC0E1108A8FD17B448A68554199C47D08FFB10D4B8
  const G: Point := Affine(GX, GY)

  lemma GeneratorOnCurve()
    ensures OnCurve(G, P)
  {
  }

  /** The one group law taken as a hypothesis; identity, closure and the formulas are proved. */
  ghost predicate Associative(p: int)
    requires p > 3
  {
    forall a, b, c {:trigger Three(a, b, c)} :: Three(a, b, c) && OnCurve(a, p) && OnCurve(b, p) && OnCurve(c, p) ==>
      PointAdd(PointAdd(a, b, p), c, p) == PointAdd(a, PointAdd(b, c, p), p)
  }

  /** What the arithmetic assumes: a prime modulus and an associative addition. */
  ghost predicate GroupHypotheses(p: int)
  {
    p > 3 && Prime(p) && Associative(p)
  }

  function Lift(point: Point): Jacobian
  {
    if point.Infinity? then AtInfinity else Triple(point.x, point.y, 1)
  }

  /** The Jacobian formulas over the field of size p, as the scalar loops use them. */
  function Formulas(p: int): Operations
    requires p > 3
  {
    Operations(
      AtInfinity, Lift,
      q => JacobianDouble(q, p),
      (q, r) => JacobianAdd(q, r, p),
      (q, a) => JacobianAddMixed(q, a, p),
      q => ToAffine(q, p),
      Infinity,
      (a, b) => PointAdd(a, b, p),
      q => JacobianOnCurve(q, p),
      a => OnCurve(a, p))
  }

  lemma FormulasProject(p: int)
    requires p > 3 && Prime(p)
    ensures Projecting(Formulas(p))
  {
    FormulasLift(p);
    FormulasAdd(p);
  }

  lemma FormulasLift(p: int)
    requires p > 3 && Prime(p)
    ensures var o := Formulas(p);
            && (forall a :: o.plainPoint(a) ==> o.fastPoint(o.lift(a)) && o.project(o.lift(a)) == a)
            && (forall q :: o.fastPoint(q) ==>
                  o.fastPoint(o.double(q)) && o.project(o.double(q)) == o.sum(o.project(q), o.project(q)))
  {
    var o := Formulas(p);
    forall a | o.plainPoint(a) ensures o.fastPoint(o.lift(a)) && o.project(o.lift(a)) == a {
      LiftProjects(a, p);
    }
    forall q | o.fastPoint(q)
      ensures o.fastPoint(o.double(q)) && o.project(o.double(q)) == o.sum(o.project(q), o.project(q))
    {
      DoubleHolds(q, p);
    }
  }

  lemma FormulasAdd(p: int)
    requires p > 3 && Prime(p)
    ensures var o := Formulas(p);
            && (forall q, r :: o.fastPoint(q) && o.fastPoint(r) ==>
                  o.fastPoint(o.add(q, r)) && o.project(o.add(q, r)) == o.sum(o.project(q), o.project(r)))
            && (forall q, a :: o.fastPoint(q) && o.plainPoint(a) ==>
                  o.fastPoint(o.addMixed(q, a)) && o.project(o.addMixed(q, a)) == o.sum(o.project(q), a))
  {
    var o := Formulas(p);
    forall q, r | o.fastPoint(q) && o.fastPoint(r)
      ensures o.fastPoint(o.add(q, r)) && o.project(o.add(q, r)) == o.sum(o.project(q), o.project(r))
    {
      AddHolds(q, r, p);
    }
    forall q, a | o.fastPoint(q) && o.plainPoint(a)
      ensures o.fastPoint(o.addMixed(q, a)) && o.project(o.addMixed(q, a)) == o.sum(o.project(q), a)
    {
      MixedHolds(q, a, p);
    }
  }

  lemma DoubleHolds(q: Jacobian, p: int)
    requires p > 3 && Prime(p) && JacobianOnCurve(q, p)
    ensures JacobianOnCurve(JacobianDouble(q, p), p)
    ensures ToAffine(JacobianDouble(q, p), p) == PointAdd(ToAffine(q, p), ToAffine(q, p), p)
  {
    DoubleProjects(q, p);
    JacobianCloses(q, q, Infinity, p);
  }

  lemma AddHolds(q: Jacobian, r: Jacobian, p: int)
    requires p > 3 && Prime(p) && JacobianOnCurve(q, p) && JacobianOnCurve(r, p)
    ensures JacobianOnCurve(JacobianAdd(q, r, p), p)
    ensures ToAffine(JacobianAdd(q, r, p), p) == PointAdd(ToAffine(q, p), ToAffine(r, p), p)
  {
    AddProjects(q, r, p);
    JacobianCloses(q, r, Infinity, p);
  }

  lemma MixedHolds(q: Jacobian, a: Point, p: int)
    requires p > 3 && Prime(p) && JacobianOnCurve(q, p) && OnCurve(a, p)
    ensures JacobianOnCurve(JacobianAddMixed(q, a, p), p)
    ensures ToAffine(JacobianAddMixed(q, a, p), p) == PointAdd(ToAffine(q, p), a, p)
  {
    AddMixedProjects(q, a, p);
    JacobianCloses(q, q, a, p);
  }

  lemma FormulasMonoid(p: int)
    requires GroupHypotheses(p)
    ensures Monoid(Formulas(p))
  {
    var o := Formulas(p);
    forall a, b | o.plainPoint(a) && o.plainPoint(b) ensures o.plainPoint(o.sum(a, b)) {
      PointAddCloses(a, b, p);
    }
  }

  lemma LiftProjects(point: Point, p: int)
    requires p > 3 && Prime(p) && OnCurve(point, p)
    ensures ToAffine(Lift(point), p) == point && JacobianOnCurve(Lift(point), p)
  {
    AddMixedProjects(AtInfinity, point, p);
  }

  lemma FormulasSound(p: int, point: Point)
    requires GroupHypotheses(p) && OnCurve(point, p)
    ensures Sound(Formulas(p)) && Formulas(p).plainPoint(point)
  {
    FormulasProject(p);
    FormulasMonoid(p);
  }

  /** Double-and-add: scalar * point, with the scalar reduced by the group order first. */
  method PointMul(scalar: int, point: Point) returns (r: Point)
    requires GroupHypotheses(P) && OnCurve(point, P)
    ensures r == Times(scalar % N, point, Formulas(P))
  {
    r := MulModulo(scalar, point, P, N);
  }

  method MulModulo(scalar: int, point: Point, p: int, n: int) returns (r: Point)
    requires GroupHypotheses(p) && OnCurve(point, p) && n > 0
    ensures r == Times(scalar % n, point, Formulas(p))
  {
    FormulasSound(p, point);
    r := DoubleAndAdd(scalar % n, point, Formulas(p));
  }

  lemma Pow16Big()
    ensures Pow16(64) > N
  {
    assert Pow16(4) == 0x1_0000;
    Pow16Add(4, 4);
    Pow16Add(8, 8);
    Pow16Add(16, 16);
    Pow16Add(32, 32);
  }

  lemma {:induction false} Pow16Add(a: nat, b: nat)
    ensures Pow16(a + b) == Pow16(a) * Pow16(b)
  {
    if a > 0 {
      Pow16Add(a - 1, b);
      assert 16 * (Pow16(a - 1) * Pow16(b)) == (16 * Pow16(a - 1)) * Pow16(b);
    }
  }

  /** The module-level table cache together with the operations that use it. */
  class Generator {
    var windows: Option<seq<seq<Point>>>

    ghost predicate Valid()
      reads this
    {
      windows.Some? ==> WindowTables(windows.value, G, Formulas(P))
    }

    constructor ()
      ensures Valid() && windows == None
    {
      windows := None;
    }

    method Windows() returns (tables: seq<seq<Point>>)
      requires GroupHypotheses(P) && Valid()
      modifies this
      ensures Valid() && windows == Some(tables)
      ensures old(windows).Some? ==> windows == old(windows)
    {
      if windows.Some? {
        return windows.value;
      }
      GeneratorOnCurve();
      FormulasSound(P, G);
      tables := BuildTables(G, Formulas(P));
      windows := Some(tables);
    }

    /** point + scalar * G for every scalar in [0, N); any other scalar is refused. */
    method PointPlusGeneratorMul(point: Point, scalar: int) returns (r: Result<Point>)
      requires GroupHypotheses(P) && Valid() && OnCurve(point, P)
      modifies this
      ensures Valid()
      ensures r.Ok? <==> 0 <= scalar < N
      ensures r.Ok? ==> r.value == PointAdd(point, Times(scalar, G, Formulas(P)), P)
    {
      if !(0 <= scalar < N) {
        return Refused;
      }
      var tables := Windows();
      GeneratorOnCurve();
      FormulasSound(P, G);
      Pow16Big();
      var sum := WindowSum(point, scalar, tables, G, Formulas(P));
      r := Ok(sum);
    }
  }
}
