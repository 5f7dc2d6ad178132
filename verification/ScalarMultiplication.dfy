/** The loops of secp256k1 scalar multiplication over any operations on Jacobian
    points that project to one associative addition of affine points. */
module ScalarMultiplication {
  import opened CurveArithmetic
  import opened ModularArithmetic

  /** The operations the loops call, and what they take for valid fast and plain points. */
  datatype Operations = Operations(
    infinity: Jacobian,
    lift: Point -> Jacobian,
    double: Jacobian -> Jacobian,
    add: (Jacobian, Jacobian) -> Jacobian,
    addMixed: (Jacobian, Point) -> Jacobian,
    project: Jacobian -> Point,
    zero: Point,
    sum: (Point, Point) -> Point,
    fastPoint: Jacobian -> bool,
    plainPoint: Point -> bool)

  /** Projection turns every fast operation into the plain sum. */
  ghost predicate Projecting(o: Operations)
  {
    && o.fastPoint(o.infinity) && o.project(o.infinity) == o.zero
    && (forall a {:trigger o.lift(a)} ::
          o.plainPoint(a) ==> o.fastPoint(o.lift(a)) && o.project(o.lift(a)) == a)
    && (forall q {:trigger o.project(q)} :: o.fastPoint(q) ==> o.plainPoint(o.project(q)))
    && (forall q {:trigger o.double(q)} :: o.fastPoint(q) ==>
          o.fastPoint(o.double(q)) && o.project(o.double(q)) == o.sum(o.project(q), o.project(q)))
    && (forall q, r {:trigger o.add(q, r)} :: o.fastPoint(q) && o.fastPoint(r) ==>
          o.fastPoint(o.add(q, r)) && o.project(o.add(q, r)) == o.sum(o.project(q), o.project(r)))
    && (forall q, a {:trigger o.addMixed(q, a)} :: o.fastPoint(q) && o.plainPoint(a) ==>
          o.fastPoint(o.addMixed(q, a)) && o.project(o.addMixed(q, a)) == o.sum(o.project(q), a))
  }

  /** The plain points form a monoid under the plain sum. */
  ghost predicate Monoid(o: Operations)
  {
    && o.plainPoint(o.zero)
    && (forall a {:trigger o.sum(o.zero, a)} {:trigger o.sum(a, o.zero)} ::
          o.sum(o.zero, a) == a && o.sum(a, o.zero) == a)
    && (forall a, b {:trigger o.sum(a, b)} ::
          o.plainPoint(a) && o.plainPoint(b) ==> o.plainPoint(o.sum(a, b)))
    && (forall a, b, c {:trigger Three(a, b, c)} ::
          Three(a, b, c) && o.plainPoint(a) && o.plainPoint(b) && o.plainPoint(c) ==>
          o.sum(o.sum(a, b), c) == o.sum(a, o.sum(b, c)))
  }

  /** Names the instance at which associativity is used. */
  ghost predicate Three(a: Point, b: Point, c: Point)
  {
    true
  }

  lemma Regroup(a: Point, b: Point, c: Point, o: Operations)
    requires Monoid(o) && o.plainPoint(a) && o.plainPoint(b) && o.plainPoint(c)
    ensures o.sum(o.sum(a, b), c) == o.sum(a, o.sum(b, c))
  {
    assert Three(a, b, c);
  }

  ghost predicate Sound(o: Operations)
  {
    Projecting(o) && Monoid(o)
  }

  /** k-fold addition of `a`: the reference every loop is compared with. */
  ghost function Times(k: nat, a: Point, o: Operations): Point
  {
    if k == 0 then o.zero else o.sum(Times(k - 1, a, o), a)
  }

  lemma {:induction false} TimesPlain(k: nat, a: Point, o: Operations)
    requires Monoid(o) && o.plainPoint(a)
    ensures o.plainPoint(Times(k, a, o))
  {
    if k > 0 { TimesPlain(k - 1, a, o); }
  }

  lemma TimesOne(a: Point, o: Operations)
    requires Monoid(o)
    ensures Times(1, a, o) == a
  {
    assert Times(0, a, o) == o.zero;
  }

  lemma {:induction false} TimesAdd(m: nat, n: nat, a: Point, o: Operations)
    requires Monoid(o) && o.plainPoint(a)
    ensures o.sum(Times(m, a, o), Times(n, a, o)) == Times(m + n, a, o)
    decreases n
  {
    if n > 0 {
      TimesAdd(m, n - 1, a, o);
      TimesPlain(m, a, o);
      TimesPlain(n - 1, a, o);
      Regroup(Times(m, a, o), Times(n - 1, a, o), a, o);
    }
  }

  lemma {:induction false} TimesDouble(k: nat, a: Point, o: Operations)
    requires Monoid(o) && o.plainPoint(a)
    ensures Times(k, o.sum(a, a), o) == Times(2 * k, a, o)
  {
    if k > 0 {
      TimesDouble(k - 1, a, o);
      TimesOne(a, o);
      TimesAdd(1, 1, a, o);
      TimesAdd(2 * (k - 1), 2, a, o);
    }
  }

  /** What one iteration of double-and-add keeps: result + scalar * addend. */
  lemma DoubleAndAddStep(result: Point, addend: Point, scalar: nat, o: Operations)
    requires Monoid(o) && o.plainPoint(result) && o.plainPoint(addend) && scalar > 0
    ensures var result' := if scalar % 2 == 1 then o.sum(result, addend) else result;
            o.sum(result', Times(scalar / 2, o.sum(addend, addend), o)) == o.sum(result, Times(scalar, addend, o))
  {
    var half := scalar / 2;
    TimesDouble(half, addend, o);
    if scalar % 2 == 1 {
      TimesPlain(2 * half, addend, o);
      TimesOne(addend, o);
      TimesAdd(1, 2 * half, addend, o);
      Regroup(result, addend, Times(2 * half, addend, o), o);
    }
  }

  method DoubleAndAdd(scalar: nat, point: Point, o: Operations) returns (r: Point)
    requires Sound(o) && o.plainPoint(point)
    ensures r == Times(scalar, point, o)
  {
    var k := scalar;
    var result := o.infinity;
    var addend := o.lift(point);
    while k != 0
      invariant o.fastPoint(result) && o.fastPoint(addend)
      invariant o.sum(o.project(result), Times(k, o.project(addend), o)) == Times(scalar, point, o)
      decreases k
    {
      DoubleAndAddStep(o.project(result), o.project(addend), k, o);
      if k % 2 == 1 {
        result := o.add(result, addend);
      }
      addend := o.double(addend);
      k := k / 2;
    }
    r := o.project(result);
  }

  function Pow16(n: nat): (r: nat)
    ensures r >= 1
  {
    if n == 0 then 1 else 16 * Pow16(n - 1)
  }

  /** Row w of the tables holds 0, 1, ..., 15 times 16^w * g. */
  ghost predicate WindowRow(row: seq<Point>, w: nat, g: Point, o: Operations)
  {
    |row| == 16 && forall d :: 0 <= d < 16 ==> row[d] == Times(d * Pow16(w), g, o)
  }

  ghost predicate WindowTables(tables: seq<seq<Point>>, g: Point, o: Operations)
  {
    |tables| == 64 && forall w :: 0 <= w < 64 ==> WindowRow(tables[w], w, g, o)
  }

  lemma OneMore(n: nat, unit: nat, g: Point, o: Operations)
    requires Monoid(o) && o.plainPoint(g)
    ensures Times((n + 1) * unit, g, o) == o.sum(Times(n * unit, g, o), Times(unit, g, o))
    ensures o.plainPoint(Times(n * unit, g, o))
  {
    TimesAdd(n * unit, unit, g, o);
    TimesPlain(n * unit, g, o);
    assert n * unit + unit == (n + 1) * unit;
  }

  method BuildRow(base: Point, ghost w: nat, ghost g: Point, o: Operations) returns (row: seq<Point>)
    requires Sound(o) && o.plainPoint(g) && base == Times(Pow16(w), g, o)
    ensures WindowRow(row, w, g, o)
  {
    ghost var unit := Pow16(w);
    TimesPlain(unit, g, o);
    row := [o.zero];
    var running := o.infinity;
    var digit := 1;
    while digit < 16
      invariant 1 <= digit <= 16 && |row| == digit
      invariant o.fastPoint(running)
      invariant o.project(running) == Times((digit - 1) * unit, g, o)
      invariant forall d :: 0 <= d < digit ==> row[d] == Times(d * unit, g, o)
    {
      OneMore(digit - 1, unit, g, o);
      running := o.addMixed(running, base);
      row := row + [o.project(running)];
      digit := digit + 1;
    }
  }

  /** Four doublings move the base from 16^w * g to 16^(w+1) * g. */
  method NextBase(base: Point, ghost w: nat, ghost g: Point, o: Operations) returns (next: Point)
    requires Sound(o) && o.plainPoint(g) && base == Times(Pow16(w), g, o)
    ensures next == Times(Pow16(w + 1), g, o)
  {
    ghost var k := Pow16(w);
    TimesPlain(k, g, o);
    var current := o.lift(base);
    var i := 0;
    while i < 4
      invariant 0 <= i <= 4
      invariant k == (if i == 0 then 1 else if i == 1 then 2 else if i == 2 then 4 else if i == 3 then 8 else 16) * Pow16(w)
      invariant o.fastPoint(current) && o.project(current) == Times(k, g, o)
    {
      TimesAdd(k, k, g, o);
      current := o.double(current);
      k := k + k;
      i := i + 1;
    }
    next := o.project(current);
  }

  method BuildTables(g: Point, o: Operations) returns (tables: seq<seq<Point>>)
    requires Sound(o) && o.plainPoint(g)
    ensures WindowTables(tables, g, o)
  {
    tables := [];
    var base := g;
    TimesOne(g, o);
    var w := 0;
    while w < 64
      invariant 0 <= w <= 64 && |tables| == w
      invariant base == Times(Pow16(w), g, o)
      invariant forall v :: 0 <= v < w ==> WindowRow(tables[v], v, g, o)
    {
      var row := BuildRow(base, w, g, o);
      tables := tables + [row];
      base := NextBase(base, w, g, o);
      w := w + 1;
    }
  }

  /** The part of the scalar held by its lowest w four-bit digits. */
  ghost function Low(scalar: nat, w: nat): nat
  {
    scalar % Pow16(w)
  }

  lemma LowStep(scalar: nat, w: nat)
    ensures Low(scalar, w + 1) == Low(scalar, w) + (scalar / Pow16(w) % 16) * Pow16(w)
  {
    DigitStep(scalar, Pow16(w));
  }

  lemma DigitStep(scalar: nat, b: nat)
    requires b >= 1
    ensures scalar % (16 * b) == scalar % b + (scalar / b % 16) * b
  {
    var q, low := scalar / b, scalar % b;
    DigitSplit(q, b);
    assert scalar == b * q + low;
    ModUnique(scalar, q / 16, (q % 16) * b + low, 16 * b);
  }

  /** The lowest digit of a quotient, and the rest of it. */
  lemma DigitSplit(q: nat, b: nat)
    ensures b * q == (q / 16) * (16 * b) + (q % 16) * b && 0 <= (q % 16) * b <= 15 * b
  {
    SplitProduct(q / 16, q % 16, b);
    assert q == 16 * (q / 16) + q % 16;
  }

  lemma SplitProduct(hi: nat, d: nat, b: nat)
    requires d <= 15
    ensures b * (16 * hi + d) == hi * (16 * b) + d * b && d * b <= 15 * b
  {
    assert b * (16 * hi) == hi * (16 * b);
  }

  lemma WindowStep(point: Point, scalar: nat, w: nat, g: Point, o: Operations)
    requires Monoid(o) && o.plainPoint(point) && o.plainPoint(g)
    ensures var digit := scalar / Pow16(w) % 16;
            var sofar := o.sum(point, Times(Low(scalar, w), g, o));
            o.sum(point, Times(Low(scalar, w + 1), g, o)) ==
            if digit == 0 then sofar else o.sum(sofar, Times(digit * Pow16(w), g, o))
  {
    var low, high := Low(scalar, w), (scalar / Pow16(w) % 16) * Pow16(w);
    LowStep(scalar, w);
    TimesPlain(low, g, o);
    TimesPlain(high, g, o);
    TimesAdd(low, high, g, o);
    Regroup(point, Times(low, g, o), Times(high, g, o), o);
  }

  /** One digit of the scalar: its entry of the digit's table, unless it is zero. */
  method AddDigit(ghost point: Point, scalar: nat, w: nat, row: seq<Point>, ghost g: Point, o: Operations,
                  result: Jacobian)
    returns (next: Jacobian)
    requires Sound(o) && o.plainPoint(point) && o.plainPoint(g) && WindowRow(row, w, g, o)
    requires o.fastPoint(result) && o.project(result) == o.sum(point, Times(Low(scalar, w), g, o))
    ensures o.fastPoint(next) && o.project(next) == o.sum(point, Times(Low(scalar, w + 1), g, o))
  {
    var digit := scalar / Pow16(w) % 16;
    WindowStep(point, scalar, w, g, o);
    TimesPlain(digit * Pow16(w), g, o);
    next := if digit != 0 then o.addMixed(result, row[digit]) else result;
  }

  /** Adding one table entry per four-bit digit of the scalar to `point`. */
  method WindowSum(point: Point, scalar: nat, tables: seq<seq<Point>>, ghost g: Point, o: Operations) returns (r: Point)
    requires Sound(o) && o.plainPoint(point) && o.plainPoint(g) && WindowTables(tables, g, o)
    requires scalar < Pow16(|tables|)
    ensures r == o.sum(point, Times(scalar, g, o))
  {
    var result := o.lift(point);
    var w := 0;
    while w < |tables|
      invariant 0 <= w <= |tables|
      invariant o.fastPoint(result)
      invariant o.project(result) == o.sum(point, Times(Low(scalar, w), g, o))
    {
      result := AddDigit(point, scalar, w, tables[w], g, o, result);
      w := w + 1;
    }
    ModSmall(scalar, Pow16(|tables|));
    r := o.project(result);
  }
}
