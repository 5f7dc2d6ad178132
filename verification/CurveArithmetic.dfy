/** Points of y^2 = x^3 + 7 over a prime field: the affine addition, the inversion-free Jacobian
    formulas, and the proof that each Jacobian formula projects to the affine addition. */
module CurveArithmetic {
  import opened ModularArithmetic

  datatype Point = Infinity | Affine(x: int, y: int)
  datatype Jacobian = AtInfinity | Triple(x: int, y: int, z: int)

  /** `pow(a, P - 2, P)`. */
  function Inverse(a: int, p: int): int
    requires p > 3
  {
    ModPow(a, p - 2, p)
  }

  function PointAdd(left: Point, right: Point, p: int): Point
    requires p > 3
  {
    if left.Infinity? then right
    else if right.Infinity? then left
    else
      var (x1, y1, x2, y2) := (left.x, left.y, right.x, right.y);
      if x1 == x2 && (y1 + y2) % p == 0 then Infinity
      else
        var slope := if x1 == x2 then (3 * x1 * x1) * Inverse(2 * y1, p) % p
                     else (y2 - y1) * Inverse((x2 - x1) % p, p) % p;
        var x3 := (slope * slope - x1 - x2) % p;
        Affine(x3, (slope * (x1 - x3) - y1) % p)
  }

  function JacobianDouble(point: Jacobian, p: int): Jacobian
    requires p > 3
  {
    if point.AtInfinity? || point.y == 0 then AtInfinity
    else
      var Triple(x, y, z) := point;
      var yy := y * y % p;
      var s := 4 * x * yy % p;
      var m := 3 * x * x % p;
      var x3 := (m * m - 2 * s) % p;
      var y3 := (m * (s - x3) - 8 * yy * yy) % p;
      Triple(x3, y3, 2 * y * z % p)
  }

  function JacobianAddMixed(left: Jacobian, right: Point, p: int): Jacobian
    requires p > 3
  {
    if left.AtInfinity? then
      if right.Infinity? then AtInfinity else Triple(right.x, right.y, 1)
    else if right.Infinity? then left
    else
      var Triple(x1, y1, z1) := left;
      var Affine(x2, y2) := right;
      var z1z1 := z1 * z1 % p;
      var u2 := x2 * z1z1 % p;
      var s2 := y2 * z1 * z1z1 % p;
      var h := (u2 - x1) % p;
      var r := (s2 - y1) % p;
      if h == 0 then
        if r == 0 then JacobianDouble(left, p) else AtInfinity
      else
        var hh := h * h % p;
        var hhh := h * hh % p;
        var v := x1 * hh % p;
        var x3 := (r * r - hhh - 2 * v) % p;
        var y3 := (r * (v - x3) - y1 * hhh) % p;
        Triple(x3, y3, z1 * h % p)
  }

  function JacobianAdd(left: Jacobian, right: Jacobian, p: int): Jacobian
    requires p > 3
  {
    if left.AtInfinity? then right
    else if right.AtInfinity? then left
    else
      var Triple(x1, y1, z1) := left;
      var Triple(x2, y2, z2) := right;
      var z1z1 := z1 * z1 % p;
      var z2z2 := z2 * z2 % p;
      var u1 := x1 * z2z2 % p;
      var u2 := x2 * z1z1 % p;
      var s1 := y1 * z2 * z2z2 % p;
      var s2 := y2 * z1 * z1z1 % p;
      if u1 == u2 then
        if s1 == s2 then JacobianDouble(left, p) else AtInfinity
      else
        var h := (u2 - u1) % p;
        var i := (2 * h) * (2 * h) % p;
        var j := h * i % p;
        var r := 2 * (s2 - s1) % p;
        var v := u1 * i % p;
        var x3 := (r * r - j - 2 * v) % p;
        var y3 := (r * (v - x3) - 2 * s1 * j) % p;
        var z3 := ((z1 + z2) * (z1 + z2) - z1z1 - z2z2) * h % p;
        Triple(x3, y3, z3)
  }

  function ToAffine(point: Jacobian, p: int): Point
    requires p > 3
  {
    if point.AtInfinity? then Infinity
    else
      var inverse := Inverse(point.z, p);
      var inverse2 := inverse * inverse % p;
      Affine(point.x * inverse2 % p, point.y * inverse2 * inverse % p)
  }

  /** Coordinates are reduced and satisfy the curve equation. */
  predicate OnCurve(pt: Point, p: int)
    requires p > 3
  {
    pt.Affine? ==> 0 <= pt.x < p && 0 <= pt.y < p && Cong(pt.y * pt.y, pt.x * pt.x * pt.x + 7, p)
  }

  /** A reduced triple with an invertible z whose projection is on the curve. */
  predicate JacobianOnCurve(q: Jacobian, p: int)
    requires p > 3
  {
    q.Triple? ==>
      0 <= q.x < p && 0 <= q.y < p && 0 < q.z < p && OnCurve(ToAffine(q, p), p)
  }

  // ---- Projection, characterised without division ----

  /** (x, y, z) stands for the affine point (X, Y): x = X z^2 and y = Y z^3. */
  ghost predicate Projects(x: int, y: int, z: int, X: int, Y: int, p: int)
    requires p > 3
  {
    z % p != 0 && 0 <= X < p && 0 <= Y < p &&
    Cong(X * (z * z), x, p) && Cong(Y * (z * z * z), y, p)
  }

  lemma InverseCong(a: int, p: int)
    requires p > 3 && Prime(p) && a % p != 0
    ensures Cong(a * Inverse(a, p), 1, p)
  {
    InverseByPower(a, p);
    ModSmall(1, p);
  }

  lemma InversePowers(z: int, p: int)
    requires p > 3 && Prime(p) && z % p != 0
    ensures var i := Inverse(z, p); Cong((i * i) * (z * z), 1, p) && Cong((i * i * i) * (z * z * z), 1, p)
  {
    var i := Inverse(z, p);
    InverseCong(z, p);
    CongMul(z * i, 1, z * i, 1, p);
    assert (z * i) * (z * i) == (i * i) * (z * z);
    CongMul((i * i) * (z * z), 1, z * i, 1, p);
    assert ((i * i) * (z * z)) * (z * i) == (i * i * i) * (z * z * z);
  }

  /** A coordinate scaled down and up again is itself. */
  lemma Unscale(a: int, down: int, up: int, A: int, p: int)
    requires p > 3 && Cong(down * up, 1, p) && Cong(A, a * down, p)
    ensures Cong(A * up, a, p)
  {
    CongMul(A, a * down, up, up, p);
    assert (a * down) * up == a * (down * up);
    CongMul(a, a, down * up, 1, p);
  }

  lemma ReducedX(x: int, i: int, p: int)
    requires p > 3
    ensures Cong(x * (i * i % p) % p, x * (i * i), p)
  {
    CongMod(i * i, p);
    CongMul(x, x, i * i % p, i * i, p);
    CongMod(x * (i * i % p), p);
  }

  lemma ReducedY(y: int, i: int, p: int)
    requires p > 3
    ensures Cong(y * (i * i % p) * i % p, y * (i * i * i), p)
  {
    var i2 := i * i % p;
    ReducedX(y, i, p);
    CongMod(y * i2, p);
    CongMul(y * i2, y * (i * i), i, i, p);
    assert y * (i * i) * i == y * (i * i * i);
    CongMod(y * i2 * i, p);
  }

  lemma ProjectsToAffine(q: Jacobian, p: int)
    requires p > 3 && Prime(p) && q.Triple? && q.z % p != 0
    ensures ToAffine(q, p).Affine?
    ensures Projects(q.x, q.y, q.z, ToAffine(q, p).x, ToAffine(q, p).y, p)
  {
    var Triple(x, y, z) := q;
    var i := Inverse(z, p);
    InversePowers(z, p);
    ReducedX(x, i, p);
    Unscale(x, i * i, z * z, ToAffine(q, p).x, p);
    ReducedY(y, i, p);
    Unscale(y, i * i * i, z * z * z, ToAffine(q, p).y, p);
  }

  lemma SquareCubeNonzero(z: int, p: int)
    requires Prime(p) && z % p != 0
    ensures (z * z) % p != 0 && (z * z * z) % p != 0
  {
    CongMod(z, p);
    if (z * z) % p == 0 {
      CongMul(z % p, z, z, z, p);
      PrimeNoZeroDivisors(z % p, z, p);
    }
    if (z * z * z) % p == 0 {
      CongMul(z % p, z, z * z, z * z, p);
      assert z * (z * z) == z * z * z;
      PrimeNoZeroDivisors(z % p, z * z, p);
    }
  }

  lemma ScaledEqual(c: int, A: int, B: int, p: int)
    requires Prime(p) && c % p != 0 && 0 <= A < p && 0 <= B < p && Cong(A * c, B * c, p)
    ensures A == B
  {
    assert A * c == c * A && B * c == c * B;
    CancelFactor(c, A, B, p);
    ModSmall(A, p);
    ModSmall(B, p);
  }

  lemma ProjectsUnique(q: Jacobian, X: int, Y: int, p: int)
    requires p > 3 && Prime(p) && q.Triple? && Projects(q.x, q.y, q.z, X, Y, p)
    ensures ToAffine(q, p) == Affine(X, Y)
  {
    ProjectsToAffine(q, p);
    SquareCubeNonzero(q.z, p);
    ScaledEqual(q.z * q.z, ToAffine(q, p).x, X, p);
    ScaledEqual(q.z * q.z * q.z, ToAffine(q, p).y, Y, p);
  }

  // ---- The common shape of the three formulas ----

  /** When z3 = D, r = slope*D, v = X1*D^2, q = (X2-X1)*D^2 and t = Y1*D^3, the triple built
      from them projects to the chord-and-tangent result. */
  lemma ChordX(slope: int, X1: int, X2: int, D: int, r: int, v: int, q: int, p: int)
    requires p > 3
    requires Cong(r, slope * D, p) && Cong(v, X1 * (D * D), p) && Cong(q, (X2 - X1) * (D * D), p)
    ensures Cong(r * r - q - 2 * v, (slope * slope - X1 - X2) * (D * D), p)
  {
    var E := D * D;
    CongMul(r, slope * D, r, slope * D, p);
    assert (slope * D) * (slope * D) == (slope * slope) * E;
    CongSub(r * r, (slope * slope) * E, q, (X2 - X1) * E, p);
    CongMul(2, 2, v, X1 * E, p);
    CongSub(r * r - q, (slope * slope) * E - (X2 - X1) * E, 2 * v, 2 * (X1 * E), p);
    assert (slope * slope) * E - (X2 - X1) * E - 2 * (X1 * E) == (slope * slope - X1 - X2) * E;
  }

  lemma ChordY(slope: int, X1: int, Y1: int, X3: int, D: int, r: int, v: int, t: int, x3: int, p: int)
    requires p > 3
    requires Cong(r, slope * D, p) && Cong(v, X1 * (D * D), p) && Cong(t, Y1 * (D * D * D), p)
    requires Cong(x3, X3 * (D * D), p)
    ensures Cong(r * (v - x3) - t, (slope * (X1 - X3) - Y1) * (D * D * D), p)
  {
    var E, C := D * D, D * D * D;
    CongSub(v, X1 * E, x3, X3 * E, p);
    assert X1 * E - X3 * E == (X1 - X3) * E;
    CongMul(r, slope * D, v - x3, (X1 - X3) * E, p);
    assert (slope * D) * ((X1 - X3) * E) == (slope * (X1 - X3)) * C;
    CongSub(r * (v - x3), (slope * (X1 - X3)) * C, t, Y1 * C, p);
    assert (slope * (X1 - X3)) * C - Y1 * C == (slope * (X1 - X3) - Y1) * C;
  }

  lemma ChordResult(slope: int, X1: int, Y1: int, X2: int, D: int,
                    r: int, v: int, q: int, t: int, z3: int, p: int)
    requires p > 3 && Prime(p) && D % p != 0 && Cong(z3, D, p)
    requires Cong(r, slope * D, p) && Cong(v, X1 * (D * D), p)
    requires Cong(q, (X2 - X1) * (D * D), p) && Cong(t, Y1 * (D * D * D), p)
    ensures var x3 := (r * r - q - 2 * v) % p;
            var y3 := (r * (v - x3) - t) % p;
            var X3 := (slope * slope - X1 - X2) % p;
            var Y3 := (slope * (X1 - X3) - Y1) % p;
            Projects(x3, y3, z3, X3, Y3, p)
  {
    var x3 := (r * r - q - 2 * v) % p;
    var y3 := (r * (v - x3) - t) % p;
    var X3 := (slope * slope - X1 - X2) % p;
    var Y3 := (slope * (X1 - X3) - Y1) % p;
    var E, C := D * D, D * D * D;
    ChordX(slope, X1, X2, D, r, v, q, p);
    CongMod(r * r - q - 2 * v, p);
    CongMod(slope * slope - X1 - X2, p);
    CongMul(X3, slope * slope - X1 - X2, E, E, p);
    ChordY(slope, X1, Y1, X3, D, r, v, t, x3, p);
    CongMod(r * (v - x3) - t, p);
    CongMod(slope * (X1 - X3) - Y1, p);
    CongMul(Y3, slope * (X1 - X3) - Y1, C, C, p);
    CongMul(z3, D, z3, D, p);
    CongMul(z3 * z3, E, z3, D, p);
    CongMul(X3, X3, z3 * z3, E, p);
    CongMul(Y3, Y3, z3 * z3 * z3, C, p);
  }

  lemma NonzeroProduct(a: int, b: int, p: int)
    requires Prime(p) && a % p != 0 && b % p != 0
    ensures (a * b) % p != 0
  {
    if (a * b) % p == 0 {
      CongMod(a, p);
      CongMul(a % p, a, b, b, p);
      PrimeNoZeroDivisors(a % p, b, p);
    }
  }

  /** The slope of `PointAdd` solves the linear equation that defines it. */
  lemma SlopeEquation(num: int, den: int, p: int)
    requires p > 3 && Prime(p) && den % p != 0
    ensures var slope := num * Inverse(den, p) % p; Cong(slope * den, num, p)
  {
    var i := Inverse(den, p);
    InverseCong(den, p);
    CongMod(num * i, p);
    CongMul(num * i % p, num * i, den, den, p);
    assert (num * i) * den == num * (den * i);
    CongMul(num, num, den * i, 1, p);
  }

  // ---- Doubling ----

  lemma DoubleYY(y: int, z: int, Y: int, p: int)
    requires p > 3 && Cong(Y * (z * z * z), y, p)
    ensures var w := z * z; Cong(y * y % p, (Y * Y) * (w * w * w), p)
  {
    CongMod(y * y, p);
    CongMul(Y * (z * z * z), y, Y * (z * z * z), y, p);
    SquareOfCube(Y, z);
  }

  lemma DoubleM(x: int, X: int, w: int, p: int)
    requires p > 3 && Cong(X * w, x, p)
    ensures Cong(3 * x * x % p, (3 * X * X) * (w * w), p)
  {
    CongMod(3 * x * x, p);
    CongMul(3, 3, X * w, x, p);
    CongMul(3 * (X * w), 3 * x, X * w, x, p);
    assert 3 * (X * w) * (X * w) == (3 * X * X) * (w * w);
  }

  lemma DoubleSCong(x: int, yy: int, X: int, Y: int, w: int, p: int)
    requires p > 3 && Cong(X * w, x, p) && Cong(yy, (Y * Y) * (w * w * w), p)
    ensures var D := (2 * Y) * (w * w); Cong(4 * x * yy % p, X * (D * D), p)
  {
    CongMod(4 * x * yy, p);
    CongMul(4, 4, X * w, x, p);
    CongMul(4 * x, 4 * (X * w), yy, (Y * Y) * (w * w * w), p);
    DoubleS(X, Y, w);
  }

  lemma DoubleTCong(yy: int, Y: int, w: int, p: int)
    requires p > 3 && Cong(yy, (Y * Y) * (w * w * w), p)
    ensures var D := (2 * Y) * (w * w); Cong(8 * yy * yy, Y * (D * D * D), p)
  {
    var b := (Y * Y) * (w * w * w);
    CongMul(8, 8, yy, b, p);
    CongMul(8 * yy, 8 * b, yy, b, p);
    DoubleT(Y, w);
  }

  lemma DoubleZ(y: int, z: int, Y: int, p: int)
    requires p > 3 && Cong(Y * (z * z * z), y, p)
    ensures var w := z * z; Cong(2 * y * z % p, (2 * Y) * (w * w), p)
  {
    CongMod(2 * y * z, p);
    CongMul(2, 2, Y * (z * z * z), y, p);
    CongMul(2 * (Y * (z * z * z)), 2 * y, z, z, p);
    assert 2 * (Y * (z * z * z)) * z == (2 * Y) * ((z * z) * (z * z));
  }

  lemma MulSwap(a: int, b: int, c: int, d: int)
    ensures (a * b) * (c * d) == (a * c) * (b * d)
  {
  }

  lemma SquareOfCube(Y: int, z: int)
    ensures var w := z * z; (Y * (z * z * z)) * (Y * (z * z * z)) == (Y * Y) * (w * w * w)
  {
    var w, c := z * z, z * z * z;
    assert (Y * c) * (Y * c) == (Y * Y) * (c * c);
    assert c == w * z;
    assert (w * z) * (w * z) == (w * w) * (z * z);
  }

  lemma DoubleS(X: int, Y: int, w: int)
    ensures var D := (2 * Y) * (w * w); 4 * (X * w) * ((Y * Y) * (w * w * w)) == X * (D * D)
  {
    var W, D := w * w, (2 * Y) * (w * w);
    assert D * D == (4 * (Y * Y)) * (W * W);
    assert w * (w * w * w) == W * W;
    calc {
      4 * (X * w) * ((Y * Y) * (w * w * w));
      (X * (4 * (Y * Y))) * (w * (w * w * w));
      (X * (4 * (Y * Y))) * (W * W);
      X * ((4 * (Y * Y)) * (W * W));
    }
  }

  lemma DoubleT(Y: int, w: int)
    ensures var D := (2 * Y) * (w * w);
            8 * ((Y * Y) * (w * w * w)) * ((Y * Y) * (w * w * w)) == Y * (D * D * D)
  {
    var W, c, YY, e := w * w, w * w * w, Y * Y, 2 * Y;
    var D := e * W;
    CubeOfProduct(e, W);
    MulSwap(YY, c, YY, c);
    assert c * c == W * W * W by { MulSwap(W, w, W, w); }
    assert Y * (e * e * e) == 8 * (YY * YY);
    assert Y * ((e * e * e) * (W * W * W)) == (Y * (e * e * e)) * (W * W * W);
    assert 8 * (YY * c) * (YY * c) == 8 * ((YY * c) * (YY * c));
    assert 8 * ((YY * YY) * (c * c)) == (8 * (YY * YY)) * (c * c);
  }

  lemma CubeOfProduct(a: int, b: int)
    ensures (a * b) * (a * b) * (a * b) == (a * a * a) * (b * b * b)
  {
    MulSwap(a, b, a, b);
    MulSwap(a * a, b * b, a, b);
  }

  lemma TwoNonzero(Y: int, p: int)
    requires p > 3 && Prime(p) && 0 < Y < p
    ensures (2 * Y) % p != 0
  {
    ModSmall(2, p);
    ModSmall(Y, p);
    NonzeroProduct(2, Y, p);
  }

  /** Projecting the doubled triple gives the affine tangent construction. */
  lemma DoubleProjects(q: Jacobian, p: int)
    requires p > 3 && Prime(p) && JacobianReduced(q, p)
    ensures ToAffine(JacobianDouble(q, p), p) == PointAdd(ToAffine(q, p), ToAffine(q, p), p)
    ensures JacobianReduced(JacobianDouble(q, p), p)
  {
    if q.Triple? {
      var Triple(x, y, z) := q;
      ModSmall(z, p);
      ProjectsToAffine(q, p);
      var Affine(X, Y) := ToAffine(q, p);
      YZeroIff(x, y, z, X, Y, p);
      if y == 0 {
        assert (Y + Y) % p == 0 by { ModSmall(0, p); }
      } else {
        TwoNonzero(Y, p);
        assert (Y + Y) % p != 0 by { assert Y + Y == 2 * Y; }
        DoubleFinite(x, y, z, X, Y, p);
        ProjectsUnique(JacobianDouble(q, p), PointAdd(Affine(X, Y), Affine(X, Y), p).x,
                       PointAdd(Affine(X, Y), Affine(X, Y), p).y, p);
      }
    }
  }

  lemma DoubleFinite(x: int, y: int, z: int, X: int, Y: int, p: int)
    requires p > 3 && Prime(p) && Projects(x, y, z, X, Y, p) && 0 < Y && 0 < y < p
    ensures var d := JacobianDouble(Triple(x, y, z), p);
            var slope := (3 * X * X) * Inverse(2 * Y, p) % p;
            var X3 := (slope * slope - X - X) % p;
            Projects(d.x, d.y, d.z, X3, (slope * (X - X3) - Y) % p, p)
  {
    var w := z * z;
    var W := w * w;
    var D := (2 * Y) * W;
    var slope := (3 * X * X) * Inverse(2 * Y, p) % p;
    var yy, s, m := y * y % p, 4 * x * (y * y % p) % p, 3 * x * x % p;
    TwoNonzero(Y, p);
    SlopeEquation(3 * X * X, 2 * Y, p);
    DoubleYY(y, z, Y, p);
    DoubleM(x, X, w, p);
    DoubleSCong(x, yy, X, Y, w, p);
    DoubleTCong(yy, Y, w, p);
    DoubleZ(y, z, Y, p);
    assert Cong(m, slope * D, p) by {
      CongMul(slope * (2 * Y), 3 * X * X, W, W, p);
      assert slope * (2 * Y) * W == slope * D;
    }
    assert D % p != 0 by {
      SquareCubeNonzero(z, p);
      SquareCubeNonzero(w, p);
      NonzeroProduct(2 * Y, W, p);
    }
    assert (X - X) * (D * D) == 0;
    ChordResult(slope, X, Y, X, D, m, s, 0, 8 * yy * yy, 2 * y * z % p, p);
    assert m * m - 0 - 2 * s == m * m - 2 * s;
  }

  /** Reduced coordinates and an invertible z; the curve equation is not required. */
  ghost predicate JacobianReduced(q: Jacobian, p: int)
  {
    q.Triple? ==> 0 <= q.x < p && 0 <= q.y < p && 0 < q.z < p
  }

  lemma YZeroIff(x: int, y: int, z: int, X: int, Y: int, p: int)
    requires p > 3 && Prime(p) && Projects(x, y, z, X, Y, p) && 0 <= y < p
    ensures y == 0 <==> Y == 0
  {
    ModSmall(y, p);
    ModSmall(Y, p);
    SquareCubeNonzero(z, p);
    if Y == 0 {
      assert Y * (z * z * z) == 0;
      ModSmall(0, p);
    } else {
      NonzeroProduct(Y, z * z * z, p);
    }
  }

  // ---- Addition of distinct abscissae: the mixed (k = 1) and general (k = 2) formulas ----

  lemma ChordR(k: int, Z: int, h: int, dX: int, dY: int, slope: int, p: int)
    requires p > 3 && Cong(h, dX * (Z * Z), p) && Cong(slope * dX, dY, p)
    ensures Cong(k * (dY * (Z * Z * Z)), slope * (k * Z * h), p)
  {
    var C := Z * Z * Z;
    CongMul(slope * dX, dY, k * C, k * C, p);
    assert dY * (k * C) == k * (dY * C);
    CongMul(slope * (k * Z), slope * (k * Z), h, dX * (Z * Z), p);
    assert slope * (k * Z) * h == slope * (k * Z * h);
    assert slope * (k * Z) * (dX * (Z * Z)) == (slope * dX) * (k * C);
  }

  lemma ChordV(k: int, Z: int, h: int, X1: int, i: int, p: int)
    requires p > 3 && Cong(i, (k * h) * (k * h), p)
    ensures var D := k * Z * h; Cong(X1 * (Z * Z) * i, X1 * (D * D), p)
  {
    var D, g := k * Z * h, k * h;
    CongMul(X1 * (Z * Z), X1 * (Z * Z), i, g * g, p);
    assert D == Z * g;
    MulSwap(Z, g, Z, g);
    assert X1 * (Z * Z) * (g * g) == X1 * ((Z * Z) * (g * g));
  }

  lemma ChordQ(k: int, Z: int, h: int, dX: int, i: int, p: int)
    requires p > 3 && Cong(h, dX * (Z * Z), p) && Cong(i, (k * h) * (k * h), p)
    ensures var D := k * Z * h; Cong(h * i, dX * (D * D), p)
  {
    CongMul(h, dX * (Z * Z), i, i, p);
    ChordV(k, Z, h, dX, i, p);
  }

  lemma ChordT(k: int, Z: int, h: int, Y1: int, i: int, j: int, p: int)
    requires p > 3 && Cong(i, (k * h) * (k * h), p) && Cong(j, h * i, p)
    ensures var D := k * Z * h; Cong(k * (Y1 * (Z * Z * Z)) * j, Y1 * (D * D * D), p)
  {
    var D, g, C := k * Z * h, k * h, Z * Z * Z;
    CongMul(h, h, i, g * g, p);
    CongMul(k * (Y1 * C), k * (Y1 * C), j, h * (g * g), p);
    assert D == Z * g;
    CubeOfProduct(Z, g);
    assert k * (Y1 * C) * (h * (g * g)) == Y1 * (C * (g * g * g)) by {
      assert k * (h * (g * g)) == g * g * g;
      assert k * (Y1 * C) * (h * (g * g)) == (Y1 * C) * (k * (h * (g * g)));
    }
  }

  lemma ChordDNonzero(k: int, Z: int, h: int, p: int)
    requires p > 3 && Prime(p) && k % p != 0 && Z % p != 0 && h % p != 0
    ensures (k * Z * h) % p != 0
  {
    NonzeroProduct(k, Z, p);
    NonzeroProduct(k * Z, h, p);
  }

  /** The slope `PointAdd` uses for distinct abscissae. */
  lemma ChordSlope(X1: int, Y1: int, X2: int, Y2: int, p: int)
    requires p > 3 && Prime(p) && 0 <= X1 < p && 0 <= X2 < p && X1 != X2
    ensures (X2 - X1) % p != 0
    ensures var slope := (Y2 - Y1) * Inverse((X2 - X1) % p, p) % p;
            Cong(slope * (X2 - X1), Y2 - Y1, p)
  {
    var d := (X2 - X1) % p;
    CongMod(X2 - X1, p);
    if d == 0 {
      CongAdd(X2 - X1, 0, X1, X1, p) by { ModSmall(0, p); }
      ModSmall(X1, p);
      ModSmall(X2, p);
    }
    ModSmall(d, p);
    SlopeEquation(Y2 - Y1, d, p);
    var slope := (Y2 - Y1) * Inverse(d, p) % p;
    CongMul(slope, slope, d, X2 - X1, p);
  }

  lemma DifferenceOfScaled(a: int, A: int, b: int, B: int, c: int, p: int)
    requires p > 3 && Cong(A * c, a, p) && Cong(B * c, b, p)
    ensures Cong(a - b, (A - B) * c, p)
  {
    CongSub(A * c, a, B * c, b, p);
    assert A * c - B * c == (A - B) * c;
  }

  lemma ZeroDifference(d: int, A: int, B: int, c: int, p: int)
    requires p > 3 && Prime(p) && c % p != 0 && Cong(d, (A - B) * c, p)
    requires 0 <= A < p && 0 <= B < p
    ensures d % p == 0 <==> A == B
  {
    if A == B {
      assert (A - B) * c == 0;
      ModSmall(0, p);
    } else if d % p == 0 {
      assert (A - B) * c == A * c - B * c;
      CongAdd((A - B) * c, 0, B * c, B * c, p) by { ModSmall(0, p); }
      ScaledEqual(c, A, B, p);
    }
  }

  // ---- Mixed addition ----

  lemma ScaleX(x: int, z: int, p: int)
    requires p > 3
    ensures Cong(x * (z * z % p) % p, x * (z * z), p)
  {
    CongMod(z * z, p);
    CongMod(x * (z * z % p), p);
    CongMul(x, x, z * z % p, z * z, p);
  }

  lemma ScaleY(y: int, z: int, p: int)
    requires p > 3
    ensures Cong(y * z * (z * z % p) % p, y * (z * z * z), p)
  {
    CongMod(z * z, p);
    CongMod(y * z * (z * z % p), p);
    CongMul(y * z, y * z, z * z % p, z * z, p);
    Regrouped(y, z, z * z);
  }

  lemma Regrouped(a: int, b: int, c: int)
    ensures a * b * c == a * (c * b)
  {
  }

  lemma MixedTerms(x1: int, y1: int, z1: int, X1: int, Y1: int, x2: int, y2: int, p: int)
    requires p > 3 && Projects(x1, y1, z1, X1, Y1, p)
    ensures var z1z1 := z1 * z1 % p;
            Cong((x2 * z1z1 % p - x1) % p, (x2 - X1) * (z1 * z1), p) &&
            Cong((y2 * z1 * z1z1 % p - y1) % p, (y2 - Y1) * (z1 * z1 * z1), p)
  {
    ScaleX(x2, z1, p);
    ScaleY(y2, z1, p);
    var z1z1 := z1 * z1 % p;
    var u2, s2 := x2 * z1z1 % p, y2 * z1 * z1z1 % p;
    DifferenceOfScaled(u2, x2, x1, X1, z1 * z1, p);
    CongMod(u2 - x1, p);
    DifferenceOfScaled(s2, y2, y1, Y1, z1 * z1 * z1, p);
    CongMod(s2 - y1, p);
  }

  lemma MixedFinite(x1: int, y1: int, z1: int, X1: int, Y1: int, x2: int, y2: int, p: int)
    requires p > 3 && Prime(p) && Projects(x1, y1, z1, X1, Y1, p)
    requires 0 <= x2 < p && X1 != x2
    requires (x2 * (z1 * z1 % p) % p - x1) % p != 0
    ensures var a := JacobianAddMixed(Triple(x1, y1, z1), Affine(x2, y2), p);
            var slope := (y2 - Y1) * Inverse((x2 - X1) % p, p) % p;
            var X3 := (slope * slope - X1 - x2) % p;
            a.Triple? && Projects(a.x, a.y, a.z, X3, (slope * (X1 - X3) - Y1) % p, p)
  {
    var z1z1 := z1 * z1 % p;
    var h := (x2 * z1z1 % p - x1) % p;
    var r := (y2 * z1 * z1z1 % p - y1) % p;
    var slope := (y2 - Y1) * Inverse((x2 - X1) % p, p) % p;
    ChordSlope(X1, Y1, x2, y2, p);
    MixedTerms(x1, y1, z1, X1, Y1, x2, y2, p);
    MixedChord(x1, y1, z1, X1, Y1, x2, y2, h, r, slope, p);
  }

  lemma MixedChord(x1: int, y1: int, z1: int, X1: int, Y1: int, x2: int, y2: int, h: int, r: int, slope: int, p: int)
    requires p > 3 && Prime(p) && Projects(x1, y1, z1, X1, Y1, p) && 0 <= h < p && h != 0
    requires Cong(h, (x2 - X1) * (z1 * z1), p) && Cong(r, (y2 - Y1) * (z1 * z1 * z1), p)
    requires Cong(slope * (x2 - X1), y2 - Y1, p)
    ensures var hh := h * h % p;
            var hhh := h * hh % p;
            var v := x1 * hh % p;
            var x3 := (r * r - hhh - 2 * v) % p;
            var X3 := (slope * slope - X1 - x2) % p;
            Projects(x3, (r * (v - x3) - y1 * hhh) % p, z1 * h % p, X3, (slope * (X1 - X3) - Y1) % p, p)
  {
    var hh := h * h % p;
    var hhh := h * hh % p;
    var v := x1 * hh % p;
    var D := 1 * z1 * h;
    assert Cong(r, slope * D, p) by { MixedSlope(z1, x2 - X1, y2 - Y1, h, r, slope, p); }
    assert D % p != 0 && Cong(z1 * h % p, D, p) by { MixedDenominator(z1, h, p); }
    MixedScaled(x1, y1, z1, X1, Y1, h, x2 - X1, p);
    ChordResult(slope, X1, Y1, x2, D, r, v, hhh, y1 * hhh, z1 * h % p, p);
  }

  lemma MixedSlope(z: int, dX: int, dY: int, h: int, r: int, slope: int, p: int)
    requires p > 3 && Cong(h, dX * (z * z), p) && Cong(r, dY * (z * z * z), p) && Cong(slope * dX, dY, p)
    ensures Cong(r, slope * (1 * z * h), p)
  {
    ChordR(1, z, h, dX, dY, slope, p);
    assert 1 * (dY * (z * z * z)) == dY * (z * z * z);
  }

  lemma MixedDenominator(z: int, h: int, p: int)
    requires p > 3 && Prime(p) && z % p != 0 && 0 < h < p
    ensures (1 * z * h) % p != 0 && Cong(z * h % p, 1 * z * h, p)
  {
    ModSmall(1, p);
    ModSmall(h, p);
    ChordDNonzero(1, z, h, p);
    CongMod(z * h, p);
    assert 1 * z * h == z * h;
  }

  lemma MixedScaled(x1: int, y1: int, z1: int, X1: int, Y1: int, h: int, dX: int, p: int)
    requires p > 3 && Projects(x1, y1, z1, X1, Y1, p) && Cong(h, dX * (z1 * z1), p)
    ensures var D := 1 * z1 * h;
            var hh := h * h % p;
            var hhh := h * hh % p;
            Cong(x1 * hh % p, X1 * (D * D), p) && Cong(hhh, dX * (D * D), p) &&
            Cong(y1 * hhh, Y1 * (D * D * D), p)
  {
    var hh := h * h % p;
    CongMod(h * h, p);
    assert (1 * h) * (1 * h) == h * h;
    MixedV(x1, z1, X1, h, hh, p);
    CongMod(h * hh, p);
    ChordQ(1, z1, h, dX, hh, p);
    MixedT(y1, z1, Y1, h, hh, h * hh % p, p);
  }

  lemma MixedV(x1: int, z1: int, X1: int, h: int, hh: int, p: int)
    requires p > 3 && Cong(X1 * (z1 * z1), x1, p) && Cong(hh, (1 * h) * (1 * h), p)
    ensures var D := 1 * z1 * h; Cong(x1 * hh % p, X1 * (D * D), p)
  {
    CongMod(x1 * hh, p);
    CongMul(X1 * (z1 * z1), x1, hh, hh, p);
    ChordV(1, z1, h, X1, hh, p);
  }

  lemma MixedT(y1: int, z1: int, Y1: int, h: int, hh: int, hhh: int, p: int)
    requires p > 3 && Cong(Y1 * (z1 * z1 * z1), y1, p) && Cong(hh, (1 * h) * (1 * h), p) && Cong(hhh, h * hh, p)
    ensures var D := 1 * z1 * h; Cong(y1 * hhh, Y1 * (D * D * D), p)
  {
    ChordT(1, z1, h, Y1, hh, hhh, p);
    CongMul(Y1 * (z1 * z1 * z1), y1, hhh, hhh, p);
    assert 1 * (Y1 * (z1 * z1 * z1)) * hhh == Y1 * (z1 * z1 * z1) * hhh;
  }

  /** Two curve points with one abscissa are equal or opposite. */
  lemma SameAbscissa(a: Point, b: Point, p: int)
    requires p > 3 && Prime(p) && OnCurve(a, p) && OnCurve(b, p)
    requires a.Affine? && b.Affine? && a.x == b.x && a.y != b.y
    ensures (a.y + b.y) % p == 0
  {
    var d, e := a.y - b.y, a.y + b.y;
    CongSub(a.y * a.y, a.x * a.x * a.x + 7, b.y * b.y, a.x * a.x * a.x + 7, p);
    assert d * e == a.y * a.y - b.y * b.y;
    ModSmall(0, p);
    if e % p != 0 {
      if d % p != 0 {
        NonzeroProduct(d, e, p);
      }
      CongAdd(d, 0, b.y, b.y, p);
      ModSmall(a.y, p);
      ModSmall(b.y, p);
    }
  }

  /** Projecting the mixed sum gives the affine sum of the projections. */
  lemma AddMixedProjects(q: Jacobian, right: Point, p: int)
    requires p > 3 && Prime(p) && JacobianOnCurve(q, p) && OnCurve(right, p)
    ensures ToAffine(JacobianAddMixed(q, right, p), p) == PointAdd(ToAffine(q, p), right, p)
    ensures JacobianReduced(JacobianAddMixed(q, right, p), p)
  {
    if q.AtInfinity? {
      if right.Affine? {
        ModSmall(1, p);
        ProjectsUnique(Triple(right.x, right.y, 1), right.x, right.y, p) by {
          assert right.x * (1 * 1) == right.x && right.y * (1 * 1 * 1) == right.y;
        }
      }
    } else if right.Affine? {
      AddMixedFinite(q, right, p);
    }
  }

  lemma AddMixedFinite(q: Jacobian, right: Point, p: int)
    requires p > 3 && Prime(p) && JacobianOnCurve(q, p) && OnCurve(right, p)
    requires q.Triple? && right.Affine?
    ensures ToAffine(JacobianAddMixed(q, right, p), p) == PointAdd(ToAffine(q, p), right, p)
    ensures JacobianReduced(JacobianAddMixed(q, right, p), p)
  {
    var Triple(x1, y1, z1) := q;
    ModSmall(z1, p);
    ProjectsToAffine(q, p);
    var Affine(X1, Y1) := ToAffine(q, p);
    var z1z1 := z1 * z1 % p;
    var h := (right.x * z1z1 % p - x1) % p;
    var r := (right.y * z1 * z1z1 % p - y1) % p;
    MixedTerms(x1, y1, z1, X1, Y1, right.x, right.y, p);
    SquareCubeNonzero(z1, p);
    ZeroDifference(h, right.x, X1, z1 * z1, p);
    ZeroDifference(r, right.y, Y1, z1 * z1 * z1, p);
    ModSmall(h, p);
    ModSmall(r, p);
    if h != 0 {
      MixedFinite(x1, y1, z1, X1, Y1, right.x, right.y, p);
      var sum := PointAdd(Affine(X1, Y1), right, p);
      ProjectsUnique(JacobianAddMixed(q, right, p), sum.x, sum.y, p);
      ReducedNonzero(z1 * h, p);
    } else if r == 0 {
      DoubleProjects(q, p);
    } else {
      SameAbscissa(Affine(X1, Y1), right, p);
    }
  }

  lemma ReducedNonzero(a: int, p: int)
    requires p > 3
    ensures (a % p) % p != 0 <==> 0 < a % p < p
  {
    ModSmall(a % p, p);
  }

  // ---- General addition ----

  lemma CrossScaleX(x: int, X: int, z: int, w: int, p: int)
    requires p > 3 && Cong(X * (z * z), x, p)
    ensures var Z := z * w; Cong(X * (Z * Z), x * (w * w % p) % p, p)
  {
    ScaleX(x, w, p);
    CongMul(X * (z * z), x, w * w, w * w, p);
    MulSwap(z, w, z, w);
    assert X * (z * z) * (w * w) == X * ((z * z) * (w * w));
  }

  lemma CrossScaleY(y: int, Y: int, z: int, w: int, p: int)
    requires p > 3 && Cong(Y * (z * z * z), y, p)
    ensures var Z := z * w; Cong(Y * (Z * Z * Z), y * w * (w * w % p) % p, p)
  {
    ScaleY(y, w, p);
    CongMul(Y * (z * z * z), y, w * w * w, w * w * w, p);
    CubeOfProduct(z, w);
    assert Y * (z * z * z) * (w * w * w) == Y * ((z * z * z) * (w * w * w));
  }

  /** u1 and s1 of the general formula are the coordinates scaled by (z1 z2)^2 and (z1 z2)^3. */
  lemma CrossScale(x: int, y: int, z: int, X: int, Y: int, w: int, p: int)
    requires p > 3 && Projects(x, y, z, X, Y, p)
    ensures var Z := z * w;
            Cong(X * (Z * Z), x * (w * w % p) % p, p) &&
            Cong(Y * (Z * Z * Z), y * w * (w * w % p) % p, p)
  {
    CrossScaleX(x, X, z, w, p);
    CrossScaleY(y, Y, z, w, p);
  }

  lemma GeneralScaled(u1: int, s1: int, h: int, Z: int, X1: int, Y1: int, dX: int, p: int)
    requires p > 3 && Cong(X1 * (Z * Z), u1, p) && Cong(Y1 * (Z * Z * Z), s1, p)
    requires Cong(h, dX * (Z * Z), p)
    ensures var D := 2 * Z * h;
            var i := (2 * h) * (2 * h) % p;
            var j := h * i % p;
            Cong(u1 * i % p, X1 * (D * D), p) && Cong(j, dX * (D * D), p) &&
            Cong(2 * s1 * j, Y1 * (D * D * D), p)
  {
    var i := (2 * h) * (2 * h) % p;
    var j := h * i % p;
    CongMod((2 * h) * (2 * h), p);
    CongMod(u1 * i, p);
    CongMul(X1 * (Z * Z), u1, i, i, p);
    ChordV(2, Z, h, X1, i, p);
    CongMod(h * i, p);
    ChordQ(2, Z, h, dX, i, p);
    ChordT(2, Z, h, Y1, i, j, p);
    CongMul(2, 2, Y1 * (Z * Z * Z), s1, p);
    CongMul(2 * (Y1 * (Z * Z * Z)), 2 * s1, j, j, p);
  }

  lemma GeneralZ(z1: int, z2: int, h: int, p: int)
    requires p > 3
    ensures Cong(((z1 + z2) * (z1 + z2) - z1 * z1 % p - z2 * z2 % p) * h % p, 2 * (z1 * z2) * h, p)
  {
    var t := (z1 + z2) * (z1 + z2);
    CongMod(z1 * z1, p);
    CongMod(z2 * z2, p);
    CongSub(t, t, z1 * z1 % p, z1 * z1, p);
    CongSub(t - z1 * z1 % p, t - z1 * z1, z2 * z2 % p, z2 * z2, p);
    assert t - z1 * z1 - z2 * z2 == 2 * (z1 * z2);
    CongMul(t - z1 * z1 % p - z2 * z2 % p, 2 * (z1 * z2), h, h, p);
    CongMod((t - z1 * z1 % p - z2 * z2 % p) * h, p);
  }

  lemma GeneralFinite(l: Jacobian, q: Jacobian, X1: int, Y1: int, X2: int, Y2: int, p: int)
    requires p > 3 && Prime(p) && l.Triple? && q.Triple?
    requires Projects(l.x, l.y, l.z, X1, Y1, p) && Projects(q.x, q.y, q.z, X2, Y2, p)
    requires X1 != X2
    requires l.x * (q.z * q.z % p) % p != q.x * (l.z * l.z % p) % p
    ensures var a := JacobianAdd(l, q, p);
            var slope := (Y2 - Y1) * Inverse((X2 - X1) % p, p) % p;
            var X3 := (slope * slope - X1 - X2) % p;
            a.Triple? && Projects(a.x, a.y, a.z, X3, (slope * (X1 - X3) - Y1) % p, p)
  {
    var z1, z2 := l.z, q.z;
    CrossScale(l.x, l.y, z1, X1, Y1, z2, p);
    CrossScale(q.x, q.y, z2, X2, Y2, z1, p);
    assert z2 * z1 == z1 * z2;
    GeneralChord(l.x * (z2 * z2 % p) % p, l.y * z2 * (z2 * z2 % p) % p,
                 q.x * (z1 * z1 % p) % p, q.y * z1 * (z1 * z1 % p) % p, z1, z2, X1, Y1, X2, Y2, p);
  }

  /** The formula over coordinates brought to a common z. */
  lemma GeneralChord(u1: int, s1: int, u2: int, s2: int, z1: int, z2: int, X1: int, Y1: int, X2: int, Y2: int, p: int)
    requires p > 3 && Prime(p) && z1 % p != 0 && z2 % p != 0 && 0 <= X1 < p && 0 <= X2 < p && X1 != X2
    requires 0 <= u1 < p && 0 <= u2 < p && u1 != u2
    requires var Z := z1 * z2;
             && Cong(X1 * (Z * Z), u1, p) && Cong(Y1 * (Z * Z * Z), s1, p)
             && Cong(X2 * (Z * Z), u2, p) && Cong(Y2 * (Z * Z * Z), s2, p)
    ensures var h, r := (u2 - u1) % p, 2 * (s2 - s1) % p;
            var i := (2 * h) * (2 * h) % p;
            var j, v := h * i % p, u1 * i % p;
            var x3 := (r * r - j - 2 * v) % p;
            var z3 := ((z1 + z2) * (z1 + z2) - z1 * z1 % p - z2 * z2 % p) * h % p;
            var slope := (Y2 - Y1) * Inverse((X2 - X1) % p, p) % p;
            var X3 := (slope * slope - X1 - X2) % p;
            Projects(x3, (r * (v - x3) - 2 * s1 * j) % p, z3, X3, (slope * (X1 - X3) - Y1) % p, p)
  {
    var Z := z1 * z2;
    var h, r := (u2 - u1) % p, 2 * (s2 - s1) % p;
    var i := (2 * h) * (2 * h) % p;
    var slope := (Y2 - Y1) * Inverse((X2 - X1) % p, p) % p;
    ChordSlope(X1, Y1, X2, Y2, p);
    GeneralDifferences(u1, s1, u2, s2, X1, Y1, X2, Y2, Z, p);
    GeneralScaled(u1, s1, h, Z, X1, Y1, X2 - X1, p);
    ChordR(2, Z, h, X2 - X1, Y2 - Y1, slope, p);
    GeneralZ(z1, z2, h, p);
    NonzeroProduct(z1, z2, p);
    ModSmall(2, p);
    NonzeroReducedDifference(u1, u2, p);
    ChordDNonzero(2, Z, h, p);
    ChordResult(slope, X1, Y1, X2, 2 * Z * h, r, u1 * i % p, h * i % p, 2 * s1 * (h * i % p),
                ((z1 + z2) * (z1 + z2) - z1 * z1 % p - z2 * z2 % p) * h % p, p);
  }

  lemma GeneralDifferences(u1: int, s1: int, u2: int, s2: int,
                           X1: int, Y1: int, X2: int, Y2: int, Z: int, p: int)
    requires p > 3
    requires Cong(X1 * (Z * Z), u1, p) && Cong(Y1 * (Z * Z * Z), s1, p)
    requires Cong(X2 * (Z * Z), u2, p) && Cong(Y2 * (Z * Z * Z), s2, p)
    ensures Cong((u2 - u1) % p, (X2 - X1) * (Z * Z), p)
    ensures Cong(s2 - s1, (Y2 - Y1) * (Z * Z * Z), p)
    ensures Cong(2 * (s2 - s1) % p, 2 * ((Y2 - Y1) * (Z * Z * Z)), p)
  {
    DifferenceOfScaled(u2, X2, u1, X1, Z * Z, p);
    CongMod(u2 - u1, p);
    DifferenceOfScaled(s2, Y2, s1, Y1, Z * Z * Z, p);
    CongMul(2, 2, s2 - s1, (Y2 - Y1) * (Z * Z * Z), p);
    CongMod(2 * (s2 - s1), p);
  }

  lemma NonzeroReducedDifference(a: int, b: int, p: int)
    requires p > 3 && 0 <= a < p && 0 <= b < p && a != b
    ensures ((b - a) % p) % p != 0
  {
    CongMod(b - a, p);
    if (b - a) % p == 0 {
      ModSmall(0, p);
      CongAdd(b - a, 0, a, a, p);
      ModSmall(a, p);
      ModSmall(b, p);
    }
  }

  lemma ReducedEqualIff(a: int, b: int, p: int)
    requires p > 3 && 0 <= a < p && 0 <= b < p
    ensures (b - a) % p == 0 <==> a == b
  {
    ModSmall(0, p);
    if a != b {
      NonzeroReducedDifference(a, b, p);
    }
  }

  /** Projecting the general sum gives the affine sum of the projections. */
  lemma AddProjects(l: Jacobian, q: Jacobian, p: int)
    requires p > 3 && Prime(p) && JacobianOnCurve(l, p) && JacobianOnCurve(q, p)
    ensures ToAffine(JacobianAdd(l, q, p), p) == PointAdd(ToAffine(l, p), ToAffine(q, p), p)
    ensures JacobianReduced(JacobianAdd(l, q, p), p)
  {
    if l.Triple? && q.Triple? {
      ModSmall(l.z, p);
      ModSmall(q.z, p);
      ProjectsToAffine(l, p);
      ProjectsToAffine(q, p);
      var Affine(X1, Y1) := ToAffine(l, p);
      var Affine(X2, Y2) := ToAffine(q, p);
      AddCases(l, q, X1, Y1, X2, Y2, p);
      var u1, u2 := l.x * (q.z * q.z % p) % p, q.x * (l.z * l.z % p) % p;
      if u1 != u2 {
        GeneralFinite(l, q, X1, Y1, X2, Y2, p);
        var sum := PointAdd(Affine(X1, Y1), Affine(X2, Y2), p);
        ProjectsUnique(JacobianAdd(l, q, p), sum.x, sum.y, p);
        ReducedNonzero(((l.z + q.z) * (l.z + q.z) - l.z * l.z % p - q.z * q.z % p) * ((u2 - u1) % p), p);
      } else if Y1 == Y2 {
        DoubleProjects(l, p);
      } else {
        SameAbscissa(Affine(X1, Y1), Affine(X2, Y2), p);
      }
    }
  }

  lemma AddCases(l: Jacobian, q: Jacobian, X1: int, Y1: int, X2: int, Y2: int, p: int)
    requires p > 3 && Prime(p) && l.Triple? && q.Triple?
    requires Projects(l.x, l.y, l.z, X1, Y1, p) && Projects(q.x, q.y, q.z, X2, Y2, p)
    ensures l.x * (q.z * q.z % p) % p == q.x * (l.z * l.z % p) % p <==> X1 == X2
    ensures l.y * q.z * (q.z * q.z % p) % p == q.y * l.z * (l.z * l.z % p) % p <==> Y1 == Y2
  {
    var Z := l.z * q.z;
    assert q.z * l.z == Z;
    var u1, u2 := l.x * (q.z * q.z % p) % p, q.x * (l.z * l.z % p) % p;
    var s1, s2 := l.y * q.z * (q.z * q.z % p) % p, q.y * l.z * (l.z * l.z % p) % p;
    CrossScale(l.x, l.y, l.z, X1, Y1, q.z, p);
    CrossScale(q.x, q.y, q.z, X2, Y2, l.z, p);
    NonzeroProduct(l.z, q.z, p);
    SquareCubeNonzero(Z, p);
    DifferenceOfScaled(u2, X2, u1, X1, Z * Z, p);
    DifferenceOfScaled(s2, Y2, s1, Y1, Z * Z * Z, p);
    ZeroDifference(u2 - u1, X2, X1, Z * Z, p);
    ZeroDifference(s2 - s1, Y2, Y1, Z * Z * Z, p);
    ReducedEqualIff(u1, u2, p);
    ReducedEqualIff(s1, s2, p);
  }

  // ---- Closure: sums of curve points are on the curve ----

  /** The quotient of the line-minus-cubic by (X - x1). */
  ghost function LineQuotient(X: int, x1: int, y1: int, slope: int): int
  {
    X * X + X * x1 + x1 * x1 - (slope * slope) * (X - x1) - 2 * (slope * y1)
  }

  ghost function LineMinusCubic(X: int, x1: int, y1: int, slope: int): int
  {
    var line := slope * (X - x1) + y1;
    X * X * X + 7 - line * line
  }

  lemma LineFactor(X: int, x1: int, y1: int, slope: int)
    ensures LineMinusCubic(X, x1, y1, slope) ==
            x1 * x1 * x1 + 7 - y1 * y1 + (X - x1) * LineQuotient(X, x1, y1, slope)
  {
    var d, u := X - x1, slope * (X - x1);
    assert (u + y1) * (u + y1) == u * u + 2 * (u * y1) + y1 * y1;
    assert X * X * X - x1 * x1 * x1 == d * (X * X + X * x1 + x1 * x1) by { CubeDifference(X, x1); }
    assert u * u == d * ((slope * slope) * d) by { MulSwap(slope, d, slope, d); }
    assert 2 * (u * y1) == d * (2 * (slope * y1));
    var A, B, C := X * X + X * x1 + x1 * x1, (slope * slope) * d, 2 * (slope * y1);
    assert d * (A - B - C) == d * A - d * B - d * C;
  }

  lemma CubeDifference(a: int, b: int)
    ensures a * a * a - b * b * b == (a - b) * (a * a + a * b + b * b)
  {
    var q := a * a + a * b + b * b;
    assert (a - b) * q == a * q - b * q;
    assert a * q == a * (a * a) + a * (a * b) + a * (b * b);
    assert b * q == b * (a * a) + b * (a * b) + b * (b * b);
    assert a * (a * b) == b * (a * a) && a * (b * b) == b * (a * b);
  }

  lemma QuotientDifference(X: int, x1: int, x2: int, y1: int, slope: int)
    ensures LineQuotient(X, x1, y1, slope) ==
            LineQuotient(x2, x1, y1, slope) + (X - x2) * (X + x2 + x1 - slope * slope)
  {
    var s2, d := slope * slope, X - x2;
    assert d * (X + x2 + x1 - s2) == d * (X + x2) + d * x1 - d * s2;
    assert d * (X + x2) == X * X - x2 * x2;
    assert d * x1 == X * x1 - x2 * x1;
    assert d * s2 == s2 * (X - x1) - s2 * (x2 - x1);
  }

  /** The third intersection of a line with the cubic is again on the curve. */
  lemma ThirdIntersection(x1: int, y1: int, x2: int, slope: int, p: int)
    requires p > 3 && Cong(y1 * y1, x1 * x1 * x1 + 7, p)
    requires Cong(LineQuotient(x2, x1, y1, slope), 0, p)
    ensures var x3 := (slope * slope - x1 - x2) % p;
            OnCurve(Affine(x3, (slope * (x1 - x3) - y1) % p), p)
  {
    var x3 := (slope * slope - x1 - x2) % p;
    var y3 := (slope * (x1 - x3) - y1) % p;
    var Q2, Q3 := LineQuotient(x2, x1, y1, slope), LineQuotient(x3, x1, y1, slope);
    ModSmall(0, p);
    assert Cong(Q3, 0, p) by {
      QuotientDifference(x3, x1, x2, y1, slope);
      CongMod(slope * slope - x1 - x2, p);
      CongAdd(x3, slope * slope - x1 - x2, x2 + x1 - slope * slope, x2 + x1 - slope * slope, p);
      CongMul(x3 - x2, x3 - x2, x3 + x2 + x1 - slope * slope, 0, p);
      CongAdd(Q2, 0, (x3 - x2) * (x3 + x2 + x1 - slope * slope), 0, p);
    }
    var F := LineMinusCubic(x3, x1, y1, slope);
    assert Cong(F, 0, p) by {
      LineFactor(x3, x1, y1, slope);
      CongMul(x3 - x1, x3 - x1, Q3, 0, p);
      CongSub(x1 * x1 * x1 + 7, x1 * x1 * x1 + 7, y1 * y1, x1 * x1 * x1 + 7, p);
      CongAdd(x1 * x1 * x1 + 7 - y1 * y1, 0, (x3 - x1) * Q3, 0, p);
    }
    ThirdOrdinate(x1, y1, x3, slope, p);
  }

  lemma ThirdOrdinate(x1: int, y1: int, x3: int, slope: int, p: int)
    requires p > 3 && Cong(LineMinusCubic(x3, x1, y1, slope), 0, p)
    ensures var y3 := (slope * (x1 - x3) - y1) % p; Cong(y3 * y3, x3 * x3 * x3 + 7, p)
  {
    var y3 := (slope * (x1 - x3) - y1) % p;
    var line := slope * (x3 - x1) + y1;
    var c := x3 * x3 * x3 + 7;
    CongMod(slope * (x1 - x3) - y1, p);
    assert slope * (x1 - x3) - y1 == -line;
    CongMul(y3, -line, y3, -line, p);
    assert (-line) * (-line) == line * line;
    CongSub(c, c, c - line * line, 0, p);
  }

  lemma ChordQuotientZero(x1: int, y1: int, x2: int, y2: int, slope: int, p: int)
    requires p > 3 && Prime(p) && (x2 - x1) % p != 0
    requires Cong(y1 * y1, x1 * x1 * x1 + 7, p) && Cong(y2 * y2, x2 * x2 * x2 + 7, p)
    requires Cong(slope * (x2 - x1), y2 - y1, p)
    ensures Cong(LineQuotient(x2, x1, y1, slope), 0, p)
  {
    var Q := LineQuotient(x2, x1, y1, slope);
    var line := slope * (x2 - x1) + y1;
    var c1, c2 := x1 * x1 * x1 + 7, x2 * x2 * x2 + 7;
    LineFactor(x2, x1, y1, slope);
    ModSmall(0, p);
    CongAdd(slope * (x2 - x1), y2 - y1, y1, y1, p);
    CongMul(line, y2, line, y2, p);
    CongSub(c2, c2, line * line, c2, p);
    CongSub(c1, c1, y1 * y1, c1, p);
    CongSub(c2 - line * line, 0, c1 - y1 * y1, 0, p);
    assert (x2 - x1) * Q == c2 - line * line - (c1 - y1 * y1);
    assert (x2 - x1) * 0 == 0;
    CancelFactor(x2 - x1, Q, 0, p);
  }

  lemma TangentQuotientZero(x1: int, y1: int, slope: int, p: int)
    requires p > 3 && Cong(slope * (2 * y1), 3 * x1 * x1, p)
    ensures Cong(LineQuotient(x1, x1, y1, slope), 0, p)
  {
    assert LineQuotient(x1, x1, y1, slope) == 3 * x1 * x1 - slope * (2 * y1);
    CongSub(3 * x1 * x1, 3 * x1 * x1, slope * (2 * y1), 3 * x1 * x1, p);
  }

  lemma PointAddCloses(a: Point, b: Point, p: int)
    requires p > 3 && Prime(p) && OnCurve(a, p) && OnCurve(b, p)
    ensures OnCurve(PointAdd(a, b, p), p)
  {
    if a.Affine? && b.Affine? && !(a.x == b.x && (a.y + b.y) % p == 0) {
      if a.x == b.x { TangentCloses(a, b, p); } else { ChordCloses(a, b, p); }
    }
  }

  lemma TangentCloses(a: Point, b: Point, p: int)
    requires p > 3 && Prime(p) && OnCurve(a, p) && OnCurve(b, p)
    requires a.Affine? && b.Affine? && a.x == b.x && (a.y + b.y) % p != 0
    ensures OnCurve(PointAdd(a, b, p), p)
  {
    if a.y != b.y { SameAbscissa(a, b, p); }
    if a.y == 0 { ModSmall(0, p); }
    TwoNonzero(a.y, p);
    SlopeEquation(3 * a.x * a.x, 2 * a.y, p);
    var slope := (3 * a.x * a.x) * Inverse(2 * a.y, p) % p;
    TangentQuotientZero(a.x, a.y, slope, p);
    ThirdIntersection(a.x, a.y, a.x, slope, p);
  }

  lemma ChordCloses(a: Point, b: Point, p: int)
    requires p > 3 && Prime(p) && OnCurve(a, p) && OnCurve(b, p) && a.Affine? && b.Affine? && a.x != b.x
    ensures OnCurve(PointAdd(a, b, p), p)
  {
    ChordSlope(a.x, a.y, b.x, b.y, p);
    var slope := (b.y - a.y) * Inverse((b.x - a.x) % p, p) % p;
    ChordQuotientZero(a.x, a.y, b.x, b.y, slope, p);
    ThirdIntersection(a.x, a.y, b.x, slope, p);
  }

  /** Jacobian doubling and both additions stay on the curve. */
  lemma JacobianCloses(l: Jacobian, q: Jacobian, right: Point, p: int)
    requires p > 3 && Prime(p) && JacobianOnCurve(l, p) && JacobianOnCurve(q, p) && OnCurve(right, p)
    ensures JacobianOnCurve(JacobianDouble(l, p), p)
    ensures JacobianOnCurve(JacobianAdd(l, q, p), p)
    ensures JacobianOnCurve(JacobianAddMixed(l, right, p), p)
  {
    DoubleProjects(l, p);
    AddProjects(l, q, p);
    AddMixedProjects(l, right, p);
    PointAddCloses(ToAffine(l, p), ToAffine(l, p), p);
    PointAddCloses(ToAffine(l, p), ToAffine(q, p), p);
    PointAddCloses(ToAffine(l, p), right, p);
  }
}
