/** Congruence arithmetic modulo a positive number, Fermat's little theorem, and modular
    powers as Python's three-argument `pow` computes them. */
module ModularArithmetic {
  import opened Integers
  import opened Orders

  predicate Cong(a: int, b: int, p: int)
    requires p > 0
  {
    a % p == b % p
  }

  lemma ModUnique(a: int, q: int, r: int, p: int)
    requires p > 0 && a == q * p + r && 0 <= r < p
    ensures a % p == r && a / p == q
  {
    var q', r' := a / p, a % p;
    var d := q - q';
    assert d * p == r' - r by { assert d * p == q * p - q' * p; }
    if d >= 1 {
      MultipleAtLeast(d, p);
    } else if d <= -1 {
      MultipleAtLeast(-d, p);
    }
  }

  lemma CongIffMultiple(a: int, b: int, k: int, p: int)
    requires p > 0 && a == b + k * p
    ensures Cong(a, b, p)
  {
    assert b == (b / p) * p + b % p;
    assert a == (b / p + k) * p + b % p;
    ModUnique(a, b / p + k, b % p, p);
  }

  lemma CongWitness(a: int, b: int, p: int) returns (k: int)
    requires p > 0 && Cong(a, b, p)
    ensures a == b + k * p
  {
    k := a / p - b / p;
    assert a == (a / p) * p + a % p;
    assert b == (b / p) * p + b % p;
    assert k * p == (a / p) * p - (b / p) * p;
  }

  lemma CongMod(a: int, p: int)
    requires p > 0
    ensures Cong(a % p, a, p)
  {
    ModUnique(a % p, 0, a % p, p);
  }

  lemma ModSmall(a: int, p: int)
    requires 0 <= a < p
    ensures a % p == a
  {
    ModUnique(a, 0, a, p);
  }

  lemma CongAdd(a: int, a': int, b: int, b': int, p: int)
    requires p > 0 && Cong(a, a', p) && Cong(b, b', p)
    ensures Cong(a + b, a' + b', p)
  {
    var k := CongWitness(a, a', p);
    var l := CongWitness(b, b', p);
    assert a + b == a' + b' + (k + l) * p;
    CongIffMultiple(a + b, a' + b', k + l, p);
  }

  lemma CongSub(a: int, a': int, b: int, b': int, p: int)
    requires p > 0 && Cong(a, a', p) && Cong(b, b', p)
    ensures Cong(a - b, a' - b', p)
  {
    var k := CongWitness(a, a', p);
    var l := CongWitness(b, b', p);
    assert a - b == a' - b' + (k - l) * p;
    CongIffMultiple(a - b, a' - b', k - l, p);
  }

  /** Multiplying by one factor; the product of two congruences takes two such steps. */
  lemma CongScale(a: int, a': int, b: int, p: int)
    requires p > 0 && Cong(a, a', p)
    ensures Cong(a * b, a' * b, p)
  {
    var k := CongWitness(a, a', p);
    ScaledMultiple(a', k, p, b);
    CongIffMultiple(a * b, a' * b, k * b, p);
  }

  lemma ScaledMultiple(a: int, k: int, p: int, b: int)
    ensures (a + k * p) * b == a * b + (k * b) * p
  {
    assert (k * p) * b == (k * b) * p;
  }

  lemma CongMul(a: int, a': int, b: int, b': int, p: int)
    requires p > 0 && Cong(a, a', p) && Cong(b, b', p)
    ensures Cong(a * b, a' * b', p)
  {
    CongScale(a, a', b, p);
    CongScale(b, b', a', p);
    assert b * a' == a' * b && b' * a' == a' * b';
  }

  /** `p` has no divisor strictly between 1 and itself. */
  ghost predicate Prime(p: int)
  {
    p >= 2 && forall d: int :: 2 <= d < p ==> p % d != 0
  }

  /** Python's `pow(base, exponent, modulus)`. */
  function ModPow(base: int, exponent: nat, modulus: int): (r: int)
    requires modulus > 0
    ensures 0 <= r < modulus
  {
    if exponent == 0 then 1 % modulus else base * ModPow(base, exponent - 1, modulus) % modulus
  }

  /** Euclid's argument: a prime that divides a product divides a factor. Proved by descent on `a`. */
  lemma {:induction false} PrimeNoZeroDivisors(a: int, b: int, p: int)
    requires Prime(p) && 0 <= a < p && (a * b) % p == 0
    ensures a == 0 || b % p == 0
    decreases a
  {
    if a == 1 {
      assert a * b == b;
    } else if a >= 2 {
      // p = q*a + r with 0 < r < a, and r*b = p*b - q*(a*b) is again a multiple of p.
      var q, r := p / a, p % a;
      assert r != 0;
      assert p == q * a + r;
      assert r * b == p * b - q * (a * b);
      ModUnique(p * b, b, 0, p) by { assert p * b == b * p; }
      assert Cong(a * b, 0, p) by { ModSmall(0, p); }
      CongMul(q, q, a * b, 0, p);
      ModSmall(0, p);
      CongSub(p * b, 0, q * (a * b), 0, p);
      PrimeNoZeroDivisors(r, b, p);
    }
  }

  lemma CancelFactor(c: int, a: int, b: int, p: int)
    requires Prime(p) && c % p != 0 && Cong(c * a, c * b, p)
    ensures Cong(a, b, p)
  {
    CongMod(c, p);
    CongMul(c % p, c, a - b, a - b, p);
    CongSub(c * a, c * b, c * b, c * b, p);
    ModSmall(0, p);
    assert c * (a - b) == c * a - c * b;
    PrimeNoZeroDivisors(c % p, a - b, p);
    CongAdd(a - b, 0, b, b, p);
  }

  // ---- Fermat's little theorem, by the product of the nonzero residues ----

  ghost function Residues(p: int): (s: set<int>)
    ensures forall i {:trigger i in s} :: i in s <==> 1 <= i < p
  {
    set i: int {:trigger Residue(i, p)} | 1 <= i < p && Residue(i, p)
  }

  ghost predicate Residue(i: int, p: int) { 1 <= i < p }

  lemma {:induction false} ResiduesCount(p: int)
    requires p >= 1
    ensures |Residues(p)| == p - 1
    decreases p
  {
    if p == 1 {
      assert Residues(p) == {};
    } else {
      ResiduesCount(p - 1);
      assert Residues(p) == Residues(p - 1) + {p - 1};
    }
  }

  ghost function Product(s: set<int>): int
  {
    if s == {} then 1 else AnyOf(s) * Product(s - {AnyOf(s)})
  }

  lemma Exchange(a: int, b: int, c: int)
    ensures a * (b * c) == b * (a * c)
  {
  }

  lemma {:induction false} ProductRemove(s: set<int>, x: int)
    requires x in s
    ensures Product(s) == x * Product(s - {x})
    decreases |s|
  {
    var l := AnyOf(s);
    if x != l {
      var t := s - {l} - {x};
      ProductRemove(s - {l}, x);
      ProductRemove(s - {x}, l);
      assert s - {x} - {l} == t;
      Exchange(l, x, Product(t));
    }
  }

  ghost function Image(f: int -> int, s: set<int>): set<int>
  {
    set i | i in s :: f(i)
  }

  ghost predicate InjectiveOn(f: int -> int, s: set<int>)
  {
    forall i, j :: i in s && j in s && f(i) == f(j) ==> i == j
  }

  lemma ImageRemove(f: int -> int, s: set<int>, x: int)
    requires InjectiveOn(f, s) && x in s
    ensures f(x) in Image(f, s) && Image(f, s) - {f(x)} == Image(f, s - {x})
  {
  }

  lemma {:induction false} ImageCount(f: int -> int, s: set<int>)
    requires InjectiveOn(f, s)
    ensures |Image(f, s)| == |s|
    decreases |s|
  {
    if s == {} {
      assert Image(f, s) == {};
    } else {
      var x := AnyOf(s);
      ImageRemove(f, s, x);
      ImageCount(f, s - {x});
    }
  }

  /** Scaling distinct residues by `a` scales their product by a power of `a`. */
  lemma {:induction false} ScaledProduct(a: int, f: int -> int, s: set<int>, p: int)
    requires p > 0 && InjectiveOn(f, s) && forall i :: f(i) == a * i % p
    ensures Cong(Product(Image(f, s)), ModPow(a, |s|, p) * Product(s), p)
    decreases |s|
  {
    if s == {} {
      assert Image(f, s) == {};
      CongMod(1, p);
      assert 1 % p * 1 == 1 % p;
    } else {
      var x := AnyOf(s);
      var s' := s - {x};
      ScaledProduct(a, f, s', p);
      ImageRemove(f, s, x);
      ProductRemove(Image(f, s), f(x));
      ScaledStep(a, x, ModPow(a, |s'|, p), Product(s'), Product(Image(f, s')), p);
    }
  }

  lemma ScaledStep(a: int, x: int, A: int, S: int, T: int, p: int)
    requires p > 0 && Cong(T, A * S, p)
    ensures Cong((a * x % p) * T, (a * A % p) * (x * S), p)
  {
    CongMod(a * x, p);
    CongMul(a * x % p, a * x, T, A * S, p);
    assert (a * x) * (A * S) == (a * A) * (x * S);
    CongMod(a * A, p);
    CongMul(a * A % p, a * A, x * S, x * S, p);
  }

  lemma {:induction false} ProductNonzero(s: set<int>, p: int)
    requires Prime(p) && s <= Residues(p)
    ensures Product(s) % p != 0
    decreases |s|
  {
    if s == {} {
      ModSmall(1, p);
    } else {
      var x :| x in s;
      ProductNonzero(s - {x}, p);
      ProductRemove(s, x);
      if Product(s) % p == 0 {
        PrimeNoZeroDivisors(x, Product(s - {x}), p);
      }
    }
  }

  lemma ScalePermutes(a: int, f: int -> int, p: int)
    requires Prime(p) && a % p != 0 && forall i :: f(i) == a * i % p
    ensures InjectiveOn(f, Residues(p)) && Image(f, Residues(p)) <= Residues(p)
  {
    forall i, j | i in Residues(p) && j in Residues(p) && f(i) == f(j) ensures i == j {
      CancelFactor(a, i, j, p);
      ModSmall(i, p);
      ModSmall(j, p);
    }
    forall i | i in Residues(p) ensures f(i) in Residues(p) {
      if f(i) == 0 {
        CongMod(a, p);
        CongMul(a % p, a, i, i, p);
        PrimeNoZeroDivisors(a % p, i, p);
        ModSmall(i, p);
      }
    }
  }

  /** An injection of a finite set into itself only permutes the factors. */
  lemma SameProduct(f: int -> int, s: set<int>)
    requires InjectiveOn(f, s) && Image(f, s) <= s
    ensures Product(Image(f, s)) == Product(s)
  {
    ImageCount(f, s);
    SameSize(Image(f, s), s);
  }

  lemma FermatProduct(a: int, f: int -> int, p: int)
    requires Prime(p) && a % p != 0 && forall i :: f(i) == a * i % p
    ensures Cong(Product(Residues(p)), ModPow(a, p - 1, p) * Product(Residues(p)), p)
  {
    ScalePermutes(a, f, p);
    SameProduct(f, Residues(p));
    ResiduesCount(p);
    ScaledProduct(a, f, Residues(p), p);
  }

  /** Fermat: a nonzero residue raised to p - 1 is 1. */
  lemma Fermat(a: int, p: int)
    requires Prime(p) && a % p != 0
    ensures ModPow(a, p - 1, p) == 1
  {
    FermatProduct(a, i => a * i % p, p);
    ProductNonzero(Residues(p), p);
    UnitFactor(ModPow(a, p - 1, p), Product(Residues(p)), p);
  }

  lemma UnitFactor(f: int, r: int, p: int)
    requires Prime(p) && r % p != 0 && 0 <= f < p && Cong(r, f * r, p)
    ensures f == 1
  {
    assert r * f == f * r;
    CancelFactor(r, 1, f, p);
    ModSmall(f, p);
    ModSmall(1, p);
  }

  /** `pow(a, p - 2, p)` is the multiplicative inverse of `a`: the form every division of the
      curve arithmetic uses. */
  lemma InverseByPower(a: int, p: int)
    requires Prime(p) && a % p != 0
    ensures a * ModPow(a, p - 2, p) % p == 1
  {
    Fermat(a, p);
  }

}
