/** The exact integer part of a sum of fractions, found without a common denominator when a
    fixed-point interval already decides it. */
module FloorTotals {
  import opened Outcomes
  import opened Orders
  import opened Sums

  const SCALE: nat := 0x1_0000000000000000000000000000000000000000000000000000000000000000

  datatype Fraction = Fraction(numerator: int, denominator: int)

  predicate Proper(f: Fraction)
  {
    f.denominator > 0
  }

  function Value(f: Fraction): real
    requires Proper(f)
  {
    f.numerator as real / f.denominator as real
  }

  ghost predicate AllProper(fs: seq<Fraction>)
  {
    forall i :: 0 <= i < |fs| ==> Proper(fs[i])
  }

  /** The sum of the first n values. */
  ghost function TotalTo(fs: seq<Fraction>, n: nat): real
    requires n <= |fs| && AllProper(fs)
  {
    if n == 0 then 0.0 else TotalTo(fs, n - 1) + Value(fs[n - 1])
  }

  ghost function Total(fs: seq<Fraction>): real
    requires AllProper(fs)
  {
    TotalTo(fs, |fs|)
  }

  // ---- Grouping by denominator ----

  ghost predicate Denominators(groups: map<int, int>)
  {
    forall d :: d in groups ==> d > 0 && groups[d] >= 0
  }

  ghost function Ratios(groups: map<int, int>): (m: map<int, real>)
    requires Denominators(groups)
    ensures m.Keys == groups.Keys
  {
    map d | d in groups :: groups[d] as real / d as real
  }

  /** Numerators added up by denominator. */
  function GroupTo(fs: seq<Fraction>, n: nat): map<int, int>
    requires n <= |fs|
  {
    if n == 0 then map[] else AddTo(GroupTo(fs, n - 1), fs[n - 1])
  }

  function AddTo(groups: map<int, int>, f: Fraction): map<int, int>
  {
    groups[f.denominator := f.numerator + if f.denominator in groups then groups[f.denominator] else 0]
  }

  lemma {:induction false} GroupsTotal(fs: seq<Fraction>, n: nat)
    requires n <= |fs| && AllProper(fs) && forall i :: 0 <= i < n ==> fs[i].numerator >= 0
    ensures Denominators(GroupTo(fs, n)) && MapSum(Ratios(GroupTo(fs, n))) == TotalTo(fs, n)
  {
    if n > 0 {
      GroupsTotal(fs, n - 1);
      RatiosAdd(GroupTo(fs, n - 1), fs[n - 1]);
    }
  }

  lemma RatiosAdd(groups: map<int, int>, f: Fraction)
    requires Denominators(groups) && Proper(f) && f.numerator >= 0
    ensures Denominators(AddTo(groups, f)) && MapSum(Ratios(AddTo(groups, f))) == MapSum(Ratios(groups)) + Value(f)
  {
    var d := f.denominator;
    var n := f.numerator + if d in groups then groups[d] else 0;
    assert Ratios(AddTo(groups, f)) == Ratios(groups)[d := n as real / d as real];
    MapSumUpdate(Ratios(groups), d, n as real / d as real);
    if d in groups { OverCommon(f.numerator as real, groups[d] as real, d as real); }
  }

  lemma OverCommon(a: real, b: real, d: real)
    requires d != 0.0
    ensures (a + b) / d == a / d + b / d
  {
  }

  ghost predicate AllNonnegative(fs: seq<Fraction>)
  {
    forall i :: 0 <= i < |fs| ==> fs[i].numerator >= 0
  }

  method Group(fs: seq<Fraction>) returns (r: Result<map<int, int>>)
    ensures r.Ok? <==> AllNonnegative(fs)
    ensures r.Ok? ==> r.value == GroupTo(fs, |fs|)
  {
    var groups: map<int, int> := map[];
    var i := 0;
    while i < |fs|
      invariant 0 <= i <= |fs|
      invariant forall j :: 0 <= j < i ==> fs[j].numerator >= 0
      invariant groups == GroupTo(fs, i)
    {
      if fs[i].numerator < 0 { return Refused; }
      groups := AddTo(groups, fs[i]);
      i := i + 1;
    }
    r := Ok(groups);
  }

  // ---- The fixed-point interval ----

  /** lower and upper enclose the scaled sum; they meet exactly when every term divided evenly. */
  ghost predicate Encloses(b: Bounds, scaled: real)
  {
    if b.inexact then b.lower as real < scaled < b.upper as real
    else b.lower as real == scaled == b.upper as real
  }

  lemma QuotientEncloses(n: int, d: int, scale: nat, q: int, rem: int)
    requires d > 0 && n * scale == q * d + rem && 0 <= rem < d
    ensures Encloses(Bounds(q, if rem != 0 then q + 1 else q, rem != 0), Scaled(n, d, scale))
  {
    var x := scale as real * (n as real / d as real);
    Clear(n as real, d as real, scale as real);
    assert x * d as real == (n * scale) as real;
    assert x * d as real == q as real * d as real + rem as real;
    Between(x, d as real, q as real, rem as real);
  }

  lemma Clear(n: real, d: real, s: real)
    requires d > 0.0
    ensures (s * (n / d)) * d == n * s
  {
    assert (n / d) * d == n;
  }

  lemma Between(x: real, d: real, q: real, rem: real)
    requires d > 0.0 && x * d == q * d + rem && 0.0 <= rem < d
    ensures q <= x < q + 1.0 && (rem == 0.0 <==> x == q)
  {
    assert (x - q) * d == rem && (x - q - 1.0) * d == rem - d;
    SignOfProduct(x - q, d);
    SignOfProduct(x - q - 1.0, d);
  }

  datatype Bounds = Bounds(lower: int, upper: int, inexact: bool)

  function Join(a: Bounds, b: Bounds): Bounds
  {
    Bounds(a.lower + b.lower, a.upper + b.upper, a.inexact || b.inexact)
  }

  /** A group's value at fixed point, before rounding. */
  ghost function Scaled(n: int, d: int, scale: nat): real
    requires d != 0
  {
    scale as real * (n as real / d as real)
  }

  ghost predicate ScaledTerms(terms: map<int, real>, groups: map<int, int>, scale: nat)
    requires Denominators(groups)
  {
    terms.Keys == groups.Keys && forall d :: d in groups ==> terms[d] == Scaled(groups[d], d, scale)
  }

  /** A group's scaled quotient, rounded both ways. */
  method Quotients(n: int, d: int, scale: nat) returns (b: Bounds)
    requires d > 0
    ensures Encloses(b, Scaled(n, d, scale))
  {
    var q, rem := n * scale / d, n * scale % d;
    QuotientEncloses(n, d, scale, q, rem);
    b := Bounds(q, if rem != 0 then q + 1 else q, rem != 0);
  }

  lemma JoinEncloses(a: Bounds, b: Bounds, terms: map<int, real>, order: Order<int>)
    requires order.Then? && Once(order) && Visited(order) <= terms.Keys
    requires Encloses(a, SumKeys(terms, Visited(order.before))) && Encloses(b, terms[order.key])
    ensures Encloses(Join(a, b), SumKeys(terms, Visited(order)))
  {
    SumVisited(terms, order);
  }

  /** Enclosing every term encloses their sum, in any order. */
  method Interval(groups: map<int, int>, scale: nat, ghost terms: map<int, real>) returns (b: Bounds)
    requires Denominators(groups) && ScaledTerms(terms, groups, scale)
    ensures Encloses(b, MapSum(terms))
  {
    b := Bounds(0, 0, false);
    ghost var order: Order<int> := Start;
    var left := groups.Keys;
    while left != {}
      invariant Visited(order) + left == groups.Keys && Visited(order) !! left && Once(order)
      invariant Encloses(b, SumKeys(terms, Visited(order)))
      decreases |left|
    {
      var d := Pick(left);
      var piece := Quotients(groups[d], d, scale);
      Visit(order, d, left);
      JoinEncloses(b, piece, terms, Then(order, d));
      b := Join(b, piece);
      order := Then(order, d);
      left := left - {d};
    }
    assert Visited(order) == terms.Keys;
  }

  lemma TermsTotal(terms: map<int, real>, groups: map<int, int>, scale: nat)
    requires Denominators(groups) && ScaledTerms(terms, groups, scale)
    ensures MapSum(terms) == scale as real * MapSum(Ratios(groups))
  {
    var s := scale as real;
    MapSumScale(Ratios(groups), terms, s, x => s * x);
  }

  /** An enclosed sum's integer part lies between the integer parts of the ends. */
  lemma FloorEnclosed(b: Bounds, scale: nat, x: real)
    requires scale > 0 && Encloses(b, scale as real * x)
    ensures b.lower / scale <= x.Floor <= (if b.inexact then b.upper - 1 else b.upper) / scale
  {
    ScaledFloor(x, scale);
    EndsBound(b.lower, if b.inexact then b.upper - 1 else b.upper, scale, x.Floor, scale as real * x);
  }

  lemma ScaledFloor(x: real, scale: nat)
    requires scale > 0
    ensures (scale * x.Floor) as real <= scale as real * x < (scale * (x.Floor + 1)) as real
  {
    ScaledCompare(x, x.Floor, scale);
    ScaledCompare(x, x.Floor + 1, scale);
  }

  lemma ScaledCompare(x: real, g: int, scale: nat)
    requires scale > 0
    ensures g as real <= x <==> (scale * g) as real <= scale as real * x
  {
    Products(scale, g);
    SignOfProduct(x - g as real, scale as real);
    assert (x - g as real) * scale as real == scale as real * x - scale as real * g as real;
  }

  lemma Products(a: int, b: int)
    ensures (a * b) as real == a as real * b as real
  {
  }

  lemma EndsBound(lower: int, top: int, scale: nat, f: int, y: real)
    requires scale > 0 && (scale * f) as real <= y < (scale * (f + 1)) as real
    requires lower as real <= y < top as real + 1.0
    ensures lower / scale <= f <= top / scale
  {
    QuotientBelow(lower, scale, f);
    QuotientAbove(top, scale, f);
  }

  lemma QuotientBelow(a: int, s: nat, f: int)
    requires s > 0 && a < s * (f + 1)
    ensures a / s <= f
  {
    Monotone(s, f + 1, a / s);
  }

  lemma QuotientAbove(a: int, s: nat, f: int)
    requires s > 0 && s * f <= a
    ensures f <= a / s
  {
    Monotone(s, a / s + 1, f);
  }

  lemma Monotone(s: nat, a: int, b: int)
    ensures a <= b ==> s * a <= s * b
  {
  }

  // ---- Exact summation by pairs ----

  function Plus(a: Fraction, b: Fraction): Fraction
  {
    Fraction(a.numerator * b.denominator + b.numerator * a.denominator, a.denominator * b.denominator)
  }

  /** One pass of balanced addition. */
  function Pairwise(fs: seq<Fraction>): seq<Fraction>
  {
    if |fs| < 2 then fs else [Plus(fs[0], fs[1])] + Pairwise(fs[2..])
  }

  ghost function Sum(fs: seq<Fraction>): real
    requires AllProper(fs)
  {
    if fs == [] then 0.0 else Value(fs[0]) + Sum(fs[1..])
  }

  lemma PlusValue(a: Fraction, b: Fraction)
    requires Proper(a) && Proper(b)
    ensures Proper(Plus(a, b)) && Value(Plus(a, b)) == Value(a) + Value(b)
  {
    CommonDenominator(a.numerator as real, a.denominator as real, b.numerator as real, b.denominator as real);
    assert Plus(a, b).denominator as real == a.denominator as real * b.denominator as real;
    assert Plus(a, b).numerator as real ==
           a.numerator as real * b.denominator as real + b.numerator as real * a.denominator as real;
  }

  lemma CommonDenominator(a: real, b: real, c: real, d: real)
    requires b != 0.0 && d != 0.0
    ensures b * d != 0.0 && (a * d + c * b) / (b * d) == a / b + c / d
  {
    assert (a / b) * b == a && (c / d) * d == c;
    assert (a / b + c / d) * (b * d) == a * d + c * b;
  }

  lemma {:induction false} PairwiseSum(fs: seq<Fraction>)
    requires AllProper(fs)
    ensures AllProper(Pairwise(fs)) && Sum(Pairwise(fs)) == Sum(fs)
    ensures |fs| >= 2 ==> 1 <= |Pairwise(fs)| < |fs|
    ensures |Pairwise(fs)| <= |fs|
    ensures (forall i :: 0 <= i < |fs| ==> fs[i].numerator >= 0) ==>
              forall i :: 0 <= i < |Pairwise(fs)| ==> Pairwise(fs)[i].numerator >= 0
  {
    if |fs| >= 2 {
      PairwiseSum(fs[2..]);
      PlusValue(fs[0], fs[1]);
      assert fs[1..][1..] == fs[2..];
    }
  }

  lemma Prepend(f: Fraction, fs: seq<Fraction>)
    requires Proper(f) && f.numerator >= 0 && AllProper(fs) && AllNonnegative(fs)
    ensures AllProper([f] + fs) && AllNonnegative([f] + fs) && Sum([f] + fs) == Value(f) + Sum(fs)
  {
    assert ([f] + fs)[1..] == fs;
  }

  /** One fraction per group, in whatever order the groups come. */
  method Terms(groups: map<int, int>) returns (fs: seq<Fraction>)
    requires Denominators(groups)
    ensures groups != map[] ==> fs != []
    ensures AllProper(fs) && AllNonnegative(fs) && Sum(fs) == MapSum(Ratios(groups))
  {
    fs := [];
    ghost var ratios := Ratios(groups);
    var keys := Enumerate(groups.Keys);
    var i := 0;
    while i < |keys|
      invariant 0 <= i <= |keys| && |fs| == i
      invariant AllProper(fs) && AllNonnegative(fs)
      invariant Sum(fs) == SumKeys(ratios, Visited(First(keys, i)))
    {
      var d := keys[i];
      SumVisited(ratios, First(keys, i + 1));
      Prepend(Fraction(groups[d], d), fs);
      fs := [Fraction(groups[d], d)] + fs;
      i := i + 1;
    }
    assert keys == [] ==> groups.Keys == {};
  }

  /** Balanced addition down to a single fraction. */
  method SumByPairs(fs: seq<Fraction>) returns (f: Fraction)
    requires fs != [] && AllProper(fs) && AllNonnegative(fs)
    ensures Proper(f) && f.numerator >= 0 && Value(f) == Sum(fs)
  {
    var terms := fs;
    while |terms| > 1
      invariant terms != [] && AllProper(terms) && AllNonnegative(terms) && Sum(terms) == Sum(fs)
      decreases |terms|
    {
      PairwiseSum(terms);
      terms := Pairwise(terms);
    }
    assert terms[1..] == [];
    f := terms[0];
  }

  lemma FloorOfQuotient(n: int, d: int)
    requires d > 0
    ensures (n as real / d as real).Floor == n / d
  {
    var x := n as real / d as real;
    assert x * d as real == n as real;
    assert n == n / d * d + n % d;
    Products(n / d, d);
    Between(x, d as real, (n / d) as real, (n % d) as real);
  }

  /** The integer part of a nonempty group sum: from the interval when both ends agree, else exactly. */
  method FloorOfGroups(groups: map<int, int>, scale: nat) returns (f: int)
    requires Denominators(groups) && groups != map[] && scale > 0
    ensures f == MapSum(Ratios(groups)).Floor
  {
    ghost var terms := map d | d in groups :: Scaled(groups[d], d, scale);
    var b := Interval(groups, scale, terms);
    TermsTotal(terms, groups, scale);
    FloorEnclosed(b, scale, MapSum(Ratios(groups)));
    var minimum := b.lower / scale;
    var maximum := if b.inexact then (b.upper - 1) / scale else b.upper / scale;
    if minimum == maximum { return minimum; }
    var fs := Terms(groups);
    var sum := SumByPairs(fs);
    FloorOfQuotient(sum.numerator, sum.denominator);
    f := sum.numerator / sum.denominator;
  }

  /** The integer part of the exact sum, for every list of entitlements; a negative one is refused. */
  method FloorTotal(fs: seq<Fraction>) returns (r: Result<int>)
    requires AllProper(fs)
    ensures r.Ok? <==> AllNonnegative(fs)
    ensures r.Ok? ==> r.value == Total(fs).Floor
  {
    var g := Group(fs);
    if g.Refused? { return Refused; }
    GroupsTotal(fs, |fs|);
    if g.value == map[] { return Ok(0); }
    var f := FloorOfGroups(g.value, SCALE);
    r := Ok(f);
  }
}
