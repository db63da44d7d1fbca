/** Derivatives of partial real functions, with a quadratic remainder, and the calculus rules. */
module Calculus {
  import opened Results

  type Fn = real -> Option<real>

  // ----- functions that vanish at 0 like 1, |h| or h^2

  type Term = real -> real

  function AbsR(x: real): (y: real)
    ensures y >= 0.0 && Near(x, y)
  {
    if x < 0.0 then -x else x
  }

  /** |x| <= a */
  predicate Near(x: real, a: real) {
    -a <= x <= a
  }

  /** |h|^n */
  function Scale(h: real, n: nat): (s: real)
    ensures s >= 0.0
  {
    if n == 0 then 1.0 else AbsR(h) * Scale(h, n - 1)
  }

  ghost predicate OrderAt(f: Term, n: nat, c: real, h: real) {
    Near(f(h), c * Scale(h, n))
  }

  ghost predicate OrderWithin(f: Term, n: nat, c: real, delta: real) {
    c >= 0.0 && 0.0 < delta <= 1.0 && forall h :: Near(h, delta) ==> OrderAt(f, n, c, h)
  }

  /** |f(h)| <= c |h|^n for some c, near 0. */
  ghost predicate Order(f: Term, n: nat) {
    exists c, delta :: OrderWithin(f, n, c, delta)
  }

  function Min(x: real, y: real): real {
    if x <= y then x else y
  }

  lemma ProductMonotone(x: real, x': real, y: real, y': real)
    requires 0.0 <= x <= x' && 0.0 <= y <= y'
    ensures 0.0 <= x * y <= x' * y'
  {
    assert x * y <= x' * y;
    assert x' * y <= x' * y';
  }

  /** |x y| <= a b when |x| <= a and |y| <= b. */
  lemma NearProduct(x: real, y: real, a: real, b: real)
    requires Near(x, a) && Near(y, b)
    ensures Near(x * y, a * b)
  {
    var x', y' := AbsR(x), AbsR(y);
    ProductMonotone(x', a, y', b);
    assert x * y == x' * y' || x * y == -(x' * y');
  }

  function ConstantTerm(a: real): Term {
    (h: real) => a
  }

  function IdentityTerm(): Term {
    (h: real) => h
  }

  function SumTerm(f: Term, g: Term): Term {
    (h: real) => f(h) + g(h)
  }

  function ProductTerm(f: Term, g: Term): Term {
    (h: real) => f(h) * g(h)
  }

  function ComposedTerm(f: Term, g: Term): Term {
    (h: real) => f(g(h))
  }

  lemma OrderConstant(a: real)
    ensures Order(ConstantTerm(a), 0)
  {
    forall h | Near(h, 1.0) ensures OrderAt(ConstantTerm(a), 0, AbsR(a), h) {
    }
    assert OrderWithin(ConstantTerm(a), 0, AbsR(a), 1.0);
  }

  lemma OrderIdentity()
    ensures Order(IdentityTerm(), 1)
  {
    forall h | Near(h, 1.0) ensures OrderAt(IdentityTerm(), 1, 1.0, h) {
      assert Scale(h, 1) == AbsR(h) * Scale(h, 0);
    }
    assert OrderWithin(IdentityTerm(), 1, 1.0, 1.0);
  }

  ghost predicate SameAt(f: Term, g: Term, h: real) {
    f(h) == g(h)
  }

  lemma OrderSame(f: Term, g: Term, n: nat, radius: real)
    requires Order(f, n) && radius > 0.0 && forall h :: Near(h, radius) ==> SameAt(f, g, h)
    ensures Order(g, n)
  {
    var c, delta :| OrderWithin(f, n, c, delta);
    forall h | Near(h, Min(delta, radius)) ensures OrderAt(g, n, c, h) {
      assert OrderAt(f, n, c, h) && SameAt(f, g, h);
    }
    assert OrderWithin(g, n, c, Min(delta, radius));
  }

  lemma NearSum(x: real, y: real, a: real, b: real, q: real)
    requires Near(x, a * q) && Near(y, b * q)
    ensures Near(x + y, (a + b) * q)
  {
  }

  lemma OrderSum(f: Term, g: Term, n: nat)
    requires Order(f, n) && Order(g, n)
    ensures Order(SumTerm(f, g), n)
  {
    var c1, delta1 :| OrderWithin(f, n, c1, delta1);
    var c2, delta2 :| OrderWithin(g, n, c2, delta2);
    var k := SumTerm(f, g);
    forall h | Near(h, Min(delta1, delta2)) ensures OrderAt(k, n, c1 + c2, h) {
      assert OrderAt(f, n, c1, h) && OrderAt(g, n, c2, h);
      NearSum(f(h), g(h), c1, c2, Scale(h, n));
    }
    assert OrderWithin(k, n, c1 + c2, Min(delta1, delta2));
  }

  lemma {:induction false} ScaleProduct(h: real, n: nat, m: nat)
    ensures Scale(h, n) * Scale(h, m) == Scale(h, n + m)
  {
    if n > 0 {
      ScaleProduct(h, n - 1, m);
      var a, s, s' := AbsR(h), Scale(h, n - 1), Scale(h, m);
      assert (a * s) * s' == a * (s * s');
    }
  }

  lemma NearScaled(x: real, y: real, a: real, b: real, p: real, q: real, ab: real, pq: real)
    requires Near(x, a * p) && Near(y, b * q) && ab == a * b && pq == p * q
    ensures Near(x * y, ab * pq)
  {
    NearProduct(x, y, a * p, b * q);
    assert (a * p) * (b * q) == (a * b) * (p * q);
  }

  lemma OrderProduct(f: Term, g: Term, n: nat, m: nat)
    requires Order(f, n) && Order(g, m)
    ensures Order(ProductTerm(f, g), n + m)
  {
    var c1, delta1 :| OrderWithin(f, n, c1, delta1);
    var c2, delta2 :| OrderWithin(g, m, c2, delta2);
    ProductMonotone(0.0, c1, 0.0, c2);
    var c, k := c1 * c2, ProductTerm(f, g);
    forall h | Near(h, Min(delta1, delta2)) ensures OrderAt(k, n + m, c, h) {
      assert OrderAt(f, n, c1, h) && OrderAt(g, m, c2, h);
      ScaleProduct(h, n, m);
      var x, y, p, q := f(h), g(h), Scale(h, n), Scale(h, m);
      NearScaled(x, y, c1, c2, p, q, c, Scale(h, n + m));
      assert k(h) == x * y;
    }
    assert OrderWithin(k, n + m, c, Min(delta1, delta2));
  }

  lemma ScaleSmaller(x: real, c: real, a: real, s: real)
    requires Near(x, c * (a * s)) && c >= 0.0 && 0.0 <= a <= 1.0 && s >= 0.0
    ensures Near(x, c * s)
  {
    ProductMonotone(a, 1.0, s, s);
    ProductMonotone(c, c, a * s, s);
  }

  lemma OrderWeaken(f: Term, n: nat)
    requires Order(f, n + 1)
    ensures Order(f, n)
  {
    var c, delta :| OrderWithin(f, n + 1, c, delta);
    forall h | Near(h, delta) ensures OrderAt(f, n, c, h) {
      assert OrderAt(f, n + 1, c, h);
      assert Scale(h, n + 1) == AbsR(h) * Scale(h, n);
      ScaleSmaller(f(h), c, AbsR(h), Scale(h, n));
    }
    assert OrderWithin(f, n, c, delta);
  }

  function ScaledTerm(a: real, f: Term): Term {
    ProductTerm(ConstantTerm(a), f)
  }

  lemma OrderScale(a: real, f: Term, n: nat)
    requires Order(f, n)
    ensures Order(ScaledTerm(a, f), n)
  {
    OrderConstant(a);
    OrderProduct(ConstantTerm(a), f, 0, n);
  }

  predicate MovesLess(k: real, a: real, bound: real) {
    0.0 <= k * a < bound
  }

  /** A radius within which a function moves by less than the bound. */
  lemma Radius(bound: real, k: real) returns (delta: real)
    requires bound > 0.0 && k >= 0.0
    ensures 0.0 < delta <= 1.0 && forall a :: 0.0 <= a <= delta ==> MovesLess(k, a, bound)
  {
    delta := Min(1.0, bound / (k + 1.0));
    assert (bound / (k + 1.0)) * (k + 1.0) == bound;
    forall a | 0.0 <= a <= delta ensures MovesLess(k, a, bound) {
      ProductMonotone(k, k, a, bound / (k + 1.0));
    }
  }

  /** A function of order 1 stays within any bound near 0. */
  lemma OrderRadius(f: Term, bound: real) returns (delta: real)
    requires Order(f, 1) && bound > 0.0
    ensures delta > 0.0 && forall h :: Near(h, delta) ==> -bound < f(h) < bound
  {
    var c, delta1 :| OrderWithin(f, 1, c, delta1);
    var r := Radius(bound, c);
    delta := Min(delta1, r);
    forall h | Near(h, delta) ensures -bound < f(h) < bound {
      assert OrderAt(f, 1, c, h) && MovesLess(c, AbsR(h), bound);
      assert Scale(h, 1) == AbsR(h) * Scale(h, 0);
    }
  }

  lemma ScaleTwo(h: real)
    ensures Scale(h, 2) == h * h
  {
    assert Scale(h, 1) == AbsR(h) * Scale(h, 0);
    assert Scale(h, 2) == AbsR(h) * Scale(h, 1);
  }

  /** |r| <= c u2 and |u2| <= k s give |r| <= (c k) s. */
  lemma Enlarge(r: real, c: real, u2: real, k: real, s: real, ck: real)
    requires c >= 0.0 && u2 >= 0.0 && Near(r, c * u2) && Near(u2, k * s) && ck == c * k
    ensures Near(r, ck * s)
  {
    ProductMonotone(c, c, u2, k * s);
    assert c * (k * s) == (c * k) * s;
  }

  lemma ComposeAt(f: Term, g: Term, c: real, c2: real, ck: real, h: real)
    requires OrderAt(f, 2, c, g(h)) && OrderAt(ProductTerm(g, g), 2, c2, h) && c >= 0.0 && ck == c * c2
    ensures OrderAt(ComposedTerm(f, g), 2, ck, h)
  {
    hide Scale;
    SquareIsScale(g, h);
    Enlarge(f(g(h)), c, Scale(g(h), 2), c2, Scale(h, 2), ck);
  }

  lemma SquareIsScale(g: Term, h: real)
    ensures ProductTerm(g, g)(h) == Scale(g(h), 2)
  {
    ScaleTwo(g(h));
  }

  /** Substituting a term of order 1 in one of order 2. */
  lemma OrderCompose(f: Term, g: Term)
    requires Order(f, 2) && Order(g, 1)
    ensures Order(ComposedTerm(f, g), 2)
  {
    var c, delta :| OrderWithin(f, 2, c, delta);
    var square, k := ProductTerm(g, g), ComposedTerm(f, g);
    OrderProduct(g, g, 1, 1);
    var c2, delta2 :| OrderWithin(square, 2, c2, delta2);
    var radius := OrderRadius(g, delta);
    ProductMonotone(0.0, c, 0.0, c2);
    var c', delta' := c * c2, Min(Min(radius, delta2), 1.0);
    forall h | Near(h, delta') ensures OrderAt(k, 2, c', h) {
      assert OrderAt(f, 2, c, g(h)) && OrderAt(square, 2, c2, h);
      ComposeAt(f, g, c, c2, c', h);
    }
    assert OrderWithin(k, 2, c', delta');
  }

  // ----- derivatives

  function ValueOf(f: Fn, h: real): real {
    match f(h)
    case Some(v) => v
    case None => 0.0
  }

  /** The change of f from 0 to h. */
  function Change(f: Fn): Term {
    (h: real) => ValueOf(f, h) - ValueOf(f, 0.0)
  }

  /** The distance of f from its tangent of slope d. */
  function Remainder(f: Fn, d: real): Term {
    (h: real) => ValueOf(f, h) - ValueOf(f, 0.0) - h * d
  }

  ghost predicate DefinedAt(f: Fn, h: real) {
    f(h).Some?
  }

  ghost predicate DefinedWithin(f: Fn, delta: real) {
    delta > 0.0 && DefinedAt(f, 0.0) && forall h :: Near(h, delta) ==> DefinedAt(f, h)
  }

  ghost predicate DefinedNear(f: Fn) {
    exists delta :: DefinedWithin(f, delta)
  }

  /** d is the derivative of f at 0: near 0, f is defined and differs from its tangent by no more than a
      multiple of h^2. */
  ghost predicate HasDerivative(f: Fn, d: real) {
    DefinedNear(f) && Order(Remainder(f, d), 2)
  }

  /** phi around y. */
  function Around(phi: Fn, y: real): Fn {
    (h: real) => phi(y + h)
  }

  lemma ChangeOrder(f: Fn, d: real)
    requires Order(Remainder(f, d), 2)
    ensures Order(Change(f), 1)
  {
    var line := ScaledTerm(d, IdentityTerm());
    OrderIdentity();
    OrderScale(d, IdentityTerm(), 1);
    OrderWeaken(Remainder(f, d), 1);
    OrderSum(line, Remainder(f, d), 1);
    forall h | Near(h, 1.0) ensures SameAt(SumTerm(line, Remainder(f, d)), Change(f), h) {
      assert line(h) == d * h;
    }
    OrderSame(SumTerm(line, Remainder(f, d)), Change(f), 1, 1.0);
  }

  function ValueTerm(f: Fn): Term {
    (h: real) => ValueOf(f, h)
  }

  lemma ValueOrder(f: Fn, d: real)
    requires Order(Remainder(f, d), 2)
    ensures Order(ValueTerm(f), 0)
  {
    var start := ConstantTerm(ValueOf(f, 0.0));
    OrderConstant(ValueOf(f, 0.0));
    ChangeOrder(f, d);
    OrderWeaken(Change(f), 0);
    OrderSum(start, Change(f), 0);
    forall h | Near(h, 1.0) ensures SameAt(SumTerm(start, Change(f)), ValueTerm(f), h) {
    }
    OrderSame(SumTerm(start, Change(f)), ValueTerm(f), 0, 1.0);
  }

  ghost predicate RemainderIs(k: Fn, d: real, r: Term, h: real) {
    k(h).Some? && Remainder(k, d)(h) == r(h)
  }

  /** To show that k has slope d: k is defined near 0 and there its remainder is the given term. */
  lemma FromRemainder(k: Fn, d: real, r: Term, delta: real)
    requires Order(r, 2) && delta > 0.0
    requires forall h :: Near(h, delta) ==> RemainderIs(k, d, r, h)
    ensures HasDerivative(k, d)
  {
    forall h | Near(h, delta) ensures SameAt(r, Remainder(k, d), h) && DefinedAt(k, h) {
      assert RemainderIs(k, d, r, h);
    }
    OrderSame(r, Remainder(k, d), 2, delta);
    assert RemainderIs(k, d, r, 0.0);
    assert DefinedWithin(k, delta);
  }

  /** A radius within which two functions are defined. */
  lemma BothDefined(f: Fn, g: Fn) returns (delta: real)
    requires DefinedNear(f) && DefinedNear(g)
    ensures delta > 0.0 && forall h :: Near(h, delta) ==> DefinedAt(f, h) && DefinedAt(g, h)
  {
    var delta1 :| DefinedWithin(f, delta1);
    var delta2 :| DefinedWithin(g, delta2);
    delta := Min(delta1, delta2);
  }

  // ----- rules

  lemma ZeroOrder()
    ensures Order(ConstantTerm(0.0), 2)
  {
    forall h | Near(h, 1.0) ensures OrderAt(ConstantTerm(0.0), 2, 0.0, h) {
    }
    assert OrderWithin(ConstantTerm(0.0), 2, 0.0, 1.0);
  }

  predicate LineAt(f: Fn, v: real, s: real, h: real) {
    f(h).Some? && f(h).value == v + h * s
  }

  /** Functions that are equal to v + s h. */
  lemma LineRule(f: Fn, v: real, s: real)
    requires forall h :: LineAt(f, v, s, h)
    ensures HasDerivative(f, s)
  {
    ZeroOrder();
    forall h | Near(h, 1.0) ensures RemainderIs(f, s, ConstantTerm(0.0), h) {
      assert LineAt(f, v, s, 0.0) && LineAt(f, v, s, h);
    }
    FromRemainder(f, s, ConstantTerm(0.0), 1.0);
  }

  ghost predicate Agree(f: Fn, g: Fn, h: real) {
    f(h).Some? ==> g(h) == f(h)
  }

  /** A function that agrees with f near 0. */
  lemma LocalRule(f: Fn, g: Fn, d: real, radius: real)
    requires HasDerivative(f, d) && radius > 0.0
    requires forall h :: Near(h, radius) ==> Agree(f, g, h)
    ensures HasDerivative(g, d)
  {
    var delta :| DefinedWithin(f, delta);
    assert Agree(f, g, 0.0);
    forall h | Near(h, Min(delta, radius)) ensures RemainderIs(g, d, Remainder(f, d), h) {
      assert DefinedAt(f, h) && Agree(f, g, h);
    }
    FromRemainder(g, d, Remainder(f, d), Min(delta, radius));
  }

  predicate SumAt(f: Fn, g: Fn, k: Fn, h: real) {
    f(h).Some? && g(h).Some? ==> k(h).Some? && k(h).value == f(h).value + g(h).value
  }

  lemma SumRule(f: Fn, g: Fn, k: Fn, d: real, e: real)
    requires HasDerivative(f, d) && HasDerivative(g, e) && forall h :: SumAt(f, g, k, h)
    ensures HasDerivative(k, d + e)
  {
    var r := SumTerm(Remainder(f, d), Remainder(g, e));
    OrderSum(Remainder(f, d), Remainder(g, e), 2);
    var delta := BothDefined(f, g);
    assert DefinedAt(f, 0.0) && DefinedAt(g, 0.0) && SumAt(f, g, k, 0.0);
    forall h | Near(h, delta) ensures RemainderIs(k, d + e, r, h) {
      assert DefinedAt(f, h) && DefinedAt(g, h) && SumAt(f, g, k, h);
      assert h * (d + e) == h * d + h * e;
    }
    FromRemainder(k, d + e, r, delta);
  }

  predicate ScaledAt(f: Fn, k: Fn, a: real, h: real) {
    f(h).Some? ==> k(h).Some? && k(h).value == a * f(h).value
  }

  lemma ScaleRule(f: Fn, k: Fn, a: real, d: real, slope: real)
    requires HasDerivative(f, d) && slope == a * d && forall h :: ScaledAt(f, k, a, h)
    ensures HasDerivative(k, slope)
  {
    var r := ScaledTerm(a, Remainder(f, d));
    OrderScale(a, Remainder(f, d), 2);
    var delta :| DefinedWithin(f, delta);
    assert DefinedAt(f, 0.0) && ScaledAt(f, k, a, 0.0);
    forall h | Near(h, delta) ensures RemainderIs(k, slope, r, h) {
      assert DefinedAt(f, h) && ScaledAt(f, k, a, h);
      ScaleExpansion(a, ValueOf(f, 0.0), ValueOf(f, h), d, h, Remainder(f, d)(h), slope);
    }
    FromRemainder(k, slope, r, delta);
  }

  lemma ScaleExpansion(a: real, f0: real, fh: real, d: real, h: real, r: real, slope: real)
    requires r == fh - f0 - h * d && slope == a * d
    ensures a * r == a * fh - a * f0 - h * slope
  {
    assert a * (h * d) == h * (a * d);
  }

  /** The remainder of a product in terms of the remainders r and s of its factors and the change u of the
      first one. */
  lemma ProductExpansion(f0: real, g0: real, d: real, e: real, fh: real, gh: real, h: real, slope: real,
                         r: real, s: real, u: real, hu: real)
    requires r == fh - f0 - h * d && s == gh - g0 - h * e && u == fh - f0 && hu == h * u
    requires slope == f0 * e + d * g0
    ensures fh * gh - f0 * g0 - h * slope == fh * s + g0 * r + e * hu
  {
    var x, y := h * d, h * e;
    assert fh * s == fh * gh - fh * g0 - fh * y;
    assert r * g0 == fh * g0 - f0 * g0 - x * g0;
    assert e * (h * (fh - f0)) == y * fh - y * f0;
    assert h * (f0 * e + d * g0) == f0 * y + x * g0;
  }

  function ProductRemainder(v: Term, u: Term, r: Term, s: Term, g0: real, e: real): Term {
    SumTerm(SumTerm(ProductTerm(v, s), ScaledTerm(g0, r)), ScaledTerm(e, ProductTerm(IdentityTerm(), u)))
  }

  lemma ProductRemainderOrder(v: Term, u: Term, r: Term, s: Term, g0: real, e: real)
    requires Order(v, 0) && Order(u, 1) && Order(r, 2) && Order(s, 2)
    ensures Order(ProductRemainder(v, u, r, s, g0, e), 2)
  {
    OrderProduct(v, s, 0, 2);
    OrderScale(g0, r, 2);
    OrderSum(ProductTerm(v, s), ScaledTerm(g0, r), 2);
    OrderIdentity();
    OrderProduct(IdentityTerm(), u, 1, 1);
    OrderScale(e, ProductTerm(IdentityTerm(), u), 2);
    OrderSum(SumTerm(ProductTerm(v, s), ScaledTerm(g0, r)), ScaledTerm(e, ProductTerm(IdentityTerm(), u)), 2);
  }

  lemma ProductRemainderAt(v: Term, u: Term, r: Term, s: Term, g0: real, e: real, h: real, hu: real)
    requires hu == h * u(h)
    ensures ProductRemainder(v, u, r, s, g0, e)(h) == v(h) * s(h) + g0 * r(h) + e * hu
  {
    assert ProductTerm(IdentityTerm(), u)(h) == hu;
    assert ScaledTerm(e, ProductTerm(IdentityTerm(), u))(h) == e * hu;
    assert ScaledTerm(g0, r)(h) == g0 * r(h);
  }

  predicate ProductAt(f: Fn, g: Fn, k: Fn, h: real) {
    f(h).Some? && g(h).Some? ==> k(h).Some? && k(h).value == f(h).value * g(h).value
  }

  lemma ProductRule(f: Fn, g: Fn, k: Fn, f0: real, g0: real, d: real, e: real, slope: real)
    requires HasDerivative(f, d) && HasDerivative(g, e) && forall h :: ProductAt(f, g, k, h)
    requires f0 == ValueOf(f, 0.0) && g0 == ValueOf(g, 0.0) && slope == f0 * e + d * g0
    ensures HasDerivative(k, slope)
  {
    var v, u, r, s := ValueTerm(f), Change(f), Remainder(f, d), Remainder(g, e);
    ValueOrder(f, d);
    ChangeOrder(f, d);
    ProductRemainderOrder(v, u, r, s, g0, e);
    var delta := BothDefined(f, g);
    var p := ProductRemainder(v, u, r, s, g0, e);
    forall h | Near(h, delta) ensures RemainderIs(k, slope, p, h) {
      assert DefinedAt(f, h) && DefinedAt(g, h) && ProductAt(f, g, k, h);
      assert DefinedAt(f, 0.0) && DefinedAt(g, 0.0) && ProductAt(f, g, k, 0.0);
      ProductRemainderIs(f, g, k, f0, g0, d, e, h, slope);
    }
    FromRemainder(k, slope, p, delta);
  }

  lemma ProductRemainderIs(f: Fn, g: Fn, k: Fn, f0: real, g0: real, d: real, e: real, h: real, slope: real)
    requires DefinedAt(f, h) && DefinedAt(g, h) && ProductAt(f, g, k, h)
    requires DefinedAt(f, 0.0) && DefinedAt(g, 0.0) && ProductAt(f, g, k, 0.0)
    requires f0 == ValueOf(f, 0.0) && g0 == ValueOf(g, 0.0) && slope == f0 * e + d * g0
    ensures RemainderIs(k, slope, ProductRemainder(ValueTerm(f), Change(f), Remainder(f, d), Remainder(g, e), g0, e), h)
  {
    RemainderValue(k, slope, h);
    RemainderValue(f, d, h);
    RemainderValue(g, e, h);
    ProductSum(ValueTerm(f), Change(f), Remainder(f, d), Remainder(g, e), f0, g0, d, e, h, ValueOf(g, h), slope);
  }

  lemma ProductSum(v: Term, u: Term, r: Term, s: Term, f0: real, g0: real, d: real, e: real, h: real, gh: real,
                   slope: real)
    requires r(h) == v(h) - f0 - h * d && s(h) == gh - g0 - h * e && u(h) == v(h) - f0 && slope == f0 * e + d * g0
    ensures ProductRemainder(v, u, r, s, g0, e)(h) == v(h) * gh - f0 * g0 - h * slope
  {
    var hu := h * u(h);
    ProductRemainderAt(v, u, r, s, g0, e, h, hu);
    ProductExpansion(f0, g0, d, e, v(h), gh, h, slope, r(h), s(h), u(h), hu);
  }

  predicate ComposedAt(f: Fn, phi: Fn, k: Fn, h: real) {
    f(h).Some? ==> k(h) == phi(f(h).value)
  }

  /** phi has slope s at the value of f. */
  lemma ChainRule(f: Fn, phi: Fn, k: Fn, d: real, s: real, slope: real)
    requires HasDerivative(f, d) && HasDerivative(Around(phi, ValueOf(f, 0.0)), s) && slope == s * d
    requires forall h :: ComposedAt(f, phi, k, h)
    ensures HasDerivative(k, slope)
  {
    var phi' := Around(phi, ValueOf(f, 0.0));
    var u, r, q := Change(f), Remainder(f, d), Remainder(phi', s);
    var p := SumTerm(ComposedTerm(q, u), ScaledTerm(s, r));
    ChainRemainderOrder(q, u, r, s, f, d);
    var delta := ChainRadius(f, phi', d);
    forall h | Near(h, delta) ensures RemainderIs(k, slope, p, h) {
      assert ComposedAt(f, phi, k, h) && ComposedAt(f, phi, k, 0.0);
      ChainRemainderAt(f, phi, k, d, s, slope, h);
    }
    FromRemainder(k, slope, p, delta);
  }

  lemma ChainRemainderAt(f: Fn, phi: Fn, k: Fn, d: real, s: real, slope: real, h: real)
    requires DefinedAt(f, h) && DefinedAt(f, 0.0) && slope == s * d
    requires ComposedAt(f, phi, k, h) && ComposedAt(f, phi, k, 0.0)
    requires var phi' := Around(phi, ValueOf(f, 0.0)); DefinedAt(phi', Change(f)(h)) && DefinedAt(phi', 0.0)
    ensures var q, u, r := Remainder(Around(phi, ValueOf(f, 0.0)), s), Change(f), Remainder(f, d);
            RemainderIs(k, slope, SumTerm(ComposedTerm(q, u), ScaledTerm(s, r)), h)
  {
    var phi' := Around(phi, ValueOf(f, 0.0));
    AroundValue(f, phi, k, h);
    RemainderValue(phi', s, Change(f)(h));
    RemainderValue(f, d, h);
    RemainderValue(k, slope, h);
    ChainSum(Remainder(phi', s), Change(f), Remainder(f, d), s, h, d, ValueOf(k, h) - ValueOf(k, 0.0), slope);
  }

  lemma RemainderValue(f: Fn, d: real, h: real)
    ensures Remainder(f, d)(h) == ValueOf(f, h) - ValueOf(f, 0.0) - h * d
    ensures Change(f)(h) == ValueOf(f, h) - ValueOf(f, 0.0)
  {
  }

  lemma ChainSum(q: Term, u: Term, r: Term, s: real, h: real, d: real, v: real, slope: real)
    requires q(u(h)) == v - u(h) * s && r(h) == u(h) - h * d && slope == s * d
    ensures SumTerm(ComposedTerm(q, u), ScaledTerm(s, r))(h) == v - h * slope
  {
    var a, b, q0 := u(h), r(h), q(u(h));
    ChainTerms(q, u, r, s, h, q0, b);
    ChainExpansion(a, v, d, s, h, b, q0, slope);
  }

  lemma ChainTerms(q: Term, u: Term, r: Term, s: real, h: real, q0: real, b: real)
    requires q(u(h)) == q0 && r(h) == b
    ensures SumTerm(ComposedTerm(q, u), ScaledTerm(s, r))(h) == q0 + s * b
  {
  }

  lemma AroundValue(f: Fn, phi: Fn, k: Fn, h: real)
    requires DefinedAt(f, h) && DefinedAt(f, 0.0)
    requires ComposedAt(f, phi, k, h) && ComposedAt(f, phi, k, 0.0)
    ensures var phi' := Around(phi, ValueOf(f, 0.0));
            phi'(Change(f)(h)) == k(h) && phi'(0.0) == k(0.0)
  {
    assert ValueOf(f, 0.0) + Change(f)(h) == ValueOf(f, h) && ValueOf(f, 0.0) + 0.0 == ValueOf(f, 0.0);
  }

  lemma ChainExpansion(u: real, v: real, d: real, s: real, h: real, r: real, q: real, slope: real)
    requires r == u - h * d && q == v - u * s && slope == s * d
    ensures q + s * r == v - h * slope
  {
    assert s * (h * d) == h * (s * d);
  }

  lemma ChainRemainderOrder(q: Term, u: Term, r: Term, s: real, f: Fn, d: real)
    requires u == Change(f) && r == Remainder(f, d) && Order(q, 2) && Order(r, 2)
    ensures Order(SumTerm(ComposedTerm(q, u), ScaledTerm(s, r)), 2)
  {
    ChangeOrder(f, d);
    OrderCompose(q, u);
    OrderScale(s, r, 2);
    OrderSum(ComposedTerm(q, u), ScaledTerm(s, r), 2);
  }

  /** Near 0, f is defined and moves within the domain of phi. */
  lemma ChainRadius(f: Fn, phi: Fn, d: real) returns (delta: real)
    requires HasDerivative(f, d) && DefinedNear(phi)
    ensures delta > 0.0 && DefinedAt(f, 0.0) && DefinedAt(phi, 0.0)
    ensures forall h :: Near(h, delta) ==> DefinedAt(f, h) && DefinedAt(phi, Change(f)(h))
  {
    ChangeOrder(f, d);
    var delta1 :| DefinedWithin(f, delta1);
    var delta2 :| DefinedWithin(phi, delta2);
    var radius := OrderRadius(Change(f), delta2);
    delta := Min(delta1, radius);
  }

  // ----- the reciprocal

  function Reciprocal(): Fn {
    (v: real) => if v == 0.0 then None else Some(1.0 / v)
  }

  /** r is the remainder of 1 / (x + u). */
  lemma ReciprocalRemainder(x: real, u: real, r: real, slope: real)
    requires x != 0.0 && x + u != 0.0
    requires r == 1.0 / (x + u) - 1.0 / x - u * slope && slope == -1.0 / (x * x)
    ensures r * ((x * x) * (x + u)) == u * u
  {
    var w, a, b := x + u, 1.0 / (x + u), 1.0 / x;
    assert a * w == 1.0 && b * x == 1.0;
    assert slope == -(b * b) by {
      assert (b * b) * (x * x) == (b * x) * (b * x);
      assert (-1.0 / (x * x)) * (x * x) == -1.0;
    }
    assert r == a - b + u * (b * b);
    var z := (x * x) * w;
    assert a * z == x * x;
    assert b * z == x * w by { assert b * z == (b * x) * (x * w); }
    assert (u * (b * b)) * z == u * w by { assert (u * (b * b)) * z == (b * x) * (b * x) * (u * w); }
    assert r * z == a * z - b * z + (u * (b * b)) * z;
    assert x * x - x * w + u * w == u * u;
  }

  /** |r| <= q / l when |r| |z| = q and |z| >= l. */
  lemma QuotientNear(r: real, z: real, h: real, l: real, c: real)
    requires r * z == h * h && l > 0.0 && (z >= l || z <= -l) && c * l == 1.0
    ensures Near(r, c * (h * h))
  {
    var r', z', q := AbsR(r), AbsR(z), h * h;
    assert r' * z' == q || r' * z' == -q;
    assert q >= 0.0 && r' * z' >= 0.0;
    ProductMonotone(r', r', l, z');
    assert r' * l <= q;
    assert c > 0.0;
    ProductMonotone(c, c, r' * l, q);
    assert c * (r' * l) == r';
  }

  lemma ProductAway(x: real, w: real, m: real)
    requires m > 0.0 && (x == m || x == -m) && (w >= m / 2.0 || w <= -(m / 2.0))
    ensures (x * x) * w >= (m * m) * (m / 2.0) || (x * x) * w <= -((m * m) * (m / 2.0))
  {
    assert x * x == m * m && m * m > 0.0;
    if w >= m / 2.0 {
      ProductMonotone(m * m, m * m, m / 2.0, w);
    } else {
      ProductMonotone(m * m, m * m, m / 2.0, -w);
    }
  }

  lemma ReciprocalNear(x: real, h: real, m: real, r: real, l: real, c: real, slope: real)
    requires x != 0.0 && m == AbsR(x) && Near(h, m / 2.0) && l == (m * m) * (m / 2.0) && l > 0.0 && c * l == 1.0
    requires x + h != 0.0 && r == 1.0 / (x + h) - 1.0 / x - h * slope && slope == -1.0 / (x * x)
    ensures Near(r, c * (h * h))
  {
    ReciprocalRemainder(x, h, r, slope);
    ProductAway(x, x + h, m);
    QuotientNear(r, (x * x) * (x + h), h, l, c);
  }

  lemma CubePositive(m: real)
    requires m > 0.0
    ensures (m * m) * (m / 2.0) > 0.0
  {
    assert m * m > 0.0;
  }

  lemma ReciprocalValue(x: real, h: real, slope: real)
    requires x != 0.0 && x + h != 0.0
    ensures DefinedAt(Around(Reciprocal(), x), h)
    ensures Remainder(Around(Reciprocal(), x), slope)(h) == 1.0 / (x + h) - 1.0 / x - h * slope
  {
    RemainderValue(Around(Reciprocal(), x), slope, h);
    assert x + 0.0 == x;
  }

  lemma ReciprocalOrder(x: real, h: real, r: real, c: real, slope: real)
    requires x != 0.0 && x + h != 0.0 && r == 1.0 / (x + h) - 1.0 / x - h * slope && Near(r, c * (h * h))
    ensures OrderAt(Remainder(Around(Reciprocal(), x), slope), 2, c, h) && DefinedAt(Around(Reciprocal(), x), h)
  {
    ReciprocalValue(x, h, slope);
    ScaleTwo(h);
  }

  lemma ReciprocalSlope(x: real, slope: real)
    requires x != 0.0 && slope == -1.0 / (x * x)
    ensures HasDerivative(Around(Reciprocal(), x), slope)
  {
    var m, f := AbsR(x), Around(Reciprocal(), x);
    CubePositive(m);
    var l := (m * m) * (m / 2.0);
    var c := 1.0 / l;
    assert c * l == 1.0 && c >= 0.0;
    var delta := Min(m / 2.0, 1.0);
    forall h | Near(h, delta) ensures OrderAt(Remainder(f, slope), 2, c, h) && DefinedAt(f, h) {
      var r := 1.0 / (x + h) - 1.0 / x - h * slope;
      ReciprocalNear(x, h, m, r, l, c, slope);
      ReciprocalOrder(x, h, r, c, slope);
    }
    assert OrderWithin(Remainder(f, slope), 2, c, delta);
    assert DefinedWithin(f, delta);
  }

  lemma DivideSlope(f0: real, g0: real, d: real, e: real)
    requires g0 != 0.0
    ensures f0 * ((-1.0 / (g0 * g0)) * e) + d * (1.0 / g0) == (d * g0 - e * f0) / (g0 * g0)
  {
    var b, q := 1.0 / g0, g0 * g0;
    assert b * g0 == 1.0;
    assert (b * b) * q == 1.0 by { assert (b * b) * q == (b * g0) * (b * g0); }
    assert -1.0 / q == -(b * b) by { assert (-1.0 / q) * q == -1.0; }
    var v := d * g0 - e * f0;
    assert v / q == v * (b * b) by { assert (v * (b * b)) * q == v; }
    assert v * (b * b) == d * b - (e * f0) * (b * b) by {
      assert (d * g0) * (b * b) == d * b * (g0 * b);
    }
    assert f0 * (-(b * b) * e) == -((e * f0) * (b * b));
  }

  predicate DivideAt(f: Fn, g: Fn, k: Fn, h: real) {
    f(h).Some? && g(h).Some? && g(h).value != 0.0 ==> k(h).Some? && k(h).value == f(h).value / g(h).value
  }

  function Inverse(g: Fn): Fn {
    h => if g(h).Some? then Reciprocal()(g(h).value) else None
  }

  lemma InverseRule(g: Fn, g0: real, e: real, s: real, e': real)
    requires HasDerivative(g, e) && g0 == ValueOf(g, 0.0) && g0 != 0.0 && DefinedAt(g, 0.0)
    requires s == -1.0 / (g0 * g0) && e' == s * e
    ensures HasDerivative(Inverse(g), e') && ValueOf(Inverse(g), 0.0) == 1.0 / g0
  {
    ReciprocalSlope(g0, s);
    forall h ensures ComposedAt(g, Reciprocal(), Inverse(g), h) {
    }
    ChainRule(g, Reciprocal(), Inverse(g), e, s, e');
  }

  lemma DivideRule(f: Fn, g: Fn, k: Fn, f0: real, g0: real, d: real, e: real, slope: real)
    requires HasDerivative(f, d) && HasDerivative(g, e) && f0 == ValueOf(f, 0.0) && g0 == ValueOf(g, 0.0) && g0 != 0.0
    requires forall h :: DivideAt(f, g, k, h)
    requires slope == (d * g0 - e * f0) / (g0 * g0)
    ensures HasDerivative(k, slope)
  {
    var s := -1.0 / (g0 * g0);
    var e' := s * e;
    var delta := BothDefined(f, g);
    assert DefinedAt(g, 0.0);
    InverseRule(g, g0, e, s, e');
    forall h ensures ProductAt(f, Inverse(g), k, h) {
      DivideProductAt(f, g, k, h);
    }
    DivideSlope(f0, g0, d, e);
    ProductRule(f, Inverse(g), k, f0, 1.0 / g0, d, e', slope);
  }

  lemma DivideProductAt(f: Fn, g: Fn, k: Fn, h: real)
    requires DivideAt(f, g, k, h)
    ensures ProductAt(f, Inverse(g), k, h)
  {
    if f(h).Some? && Inverse(g)(h).Some? {
      DivideIsTimes(f(h).value, g(h).value);
    }
  }

  lemma DivideIsTimes(x: real, y: real)
    requires y != 0.0
    ensures x * (1.0 / y) == x / y
  {
  }

  // ----- integer powers

  function Pow(x: real, n: nat): real {
    if n == 0 then 1.0 else x * Pow(x, n - 1)
  }

  /** n * x^(n-1) */
  function PowSlope(x: real, n: nat): real {
    if n == 0 then 0.0 else n as real * Pow(x, n - 1)
  }

  function PowFn(n: nat): Fn {
    (v: real) => Some(Pow(v, n))
  }

  lemma {:induction false} PowRule(x: real, n: nat)
    ensures HasDerivative(Around(PowFn(n), x), PowSlope(x, n))
  {
    var f := Around(PowFn(n), x);
    if n == 0 {
      forall h ensures LineAt(f, 1.0, 0.0, h) {
        assert f(h) == Some(Pow(x + h, 0));
      }
      LineRule(f, 1.0, 0.0);
    } else {
      var id, lower := Around(PowFn(1), x), Around(PowFn(n - 1), x);
      PowRule(x, n - 1);
      forall h ensures LineAt(id, x, 1.0, h) && ProductAt(id, lower, f, h) {
        PowAt(x + h, n);
      }
      LineRule(id, x, 1.0);
      assert ValueOf(id, 0.0) == x && ValueOf(lower, 0.0) == Pow(x, n - 1) by {
        assert x + 0.0 == x;
        PowAt(x, n);
      }
      PowSlopeStep(x, n);
      ProductRule(id, lower, f, x, Pow(x, n - 1), 1.0, PowSlope(x, n - 1), PowSlope(x, n));
    }
  }

  lemma PowAt(x: real, n: nat)
    requires n > 0
    ensures Pow(x, 1) == x && Pow(x, n) == x * Pow(x, n - 1)
  {
    assert Pow(x, 1) == x * Pow(x, 0);
  }

  lemma PowSlopeStep(x: real, n: nat)
    requires n > 0
    ensures x * PowSlope(x, n - 1) + Pow(x, n - 1) == PowSlope(x, n)
  {
    if n >= 2 {
      var a, y := (n - 1) as real, Pow(x, n - 2);
      assert Pow(x, n - 1) == x * y;
      assert x * (a * y) == a * (x * y);
      assert n as real == a + 1.0;
    }
  }

  // ----- sign and uniqueness

  ghost predicate PositiveAt(f: Fn, h: real) {
    f(h).Some? && f(h).value > 0.0
  }

  /** A differentiable function that is positive at 0 is positive near 0. */
  lemma StaysPositive(f: Fn, d: real) returns (radius: real)
    requires HasDerivative(f, d) && PositiveAt(f, 0.0)
    ensures radius > 0.0 && forall h :: Near(h, radius) ==> PositiveAt(f, h)
  {
    ChangeOrder(f, d);
    var delta :| DefinedWithin(f, delta);
    var r := OrderRadius(Change(f), f(0.0).value);
    radius := Min(delta, r);
    forall h | Near(h, radius) ensures PositiveAt(f, h) {
      assert DefinedAt(f, h);
      assert -f(0.0).value < Change(f)(h);
    }
  }

  lemma LineOutgrows(a: real, c: real, h: real)
    requires h > 0.0 && 0.0 <= c * h < AbsR(a)
    ensures !Near(a * h, c * (h * h))
  {
    var x := AbsR(a) * h;
    assert x > (c * h) * h;
    assert a * h == x || a * h == -x;
  }

  /** A term a h of order 2 is zero. */
  lemma OrderTwoLine(a: real)
    requires Order(ScaledTerm(a, IdentityTerm()), 2)
    ensures a == 0.0
  {
    var f := ScaledTerm(a, IdentityTerm());
    var c, delta :| OrderWithin(f, 2, c, delta);
    NoLineWithin(a, c, delta);
  }

  lemma NoLineWithin(a: real, c: real, delta: real)
    requires c >= 0.0 && delta > 0.0
    ensures a != 0.0 ==> exists h :: Near(h, delta) && !OrderAt(ScaledTerm(a, IdentityTerm()), 2, c, h)
  {
    if a != 0.0 {
      var r := Radius(AbsR(a), c);
      var h := Min(delta, r);
      assert MovesLess(c, h, AbsR(a));
      LineOutgrows(a, c, h);
      ScaleTwo(h);
      assert ScaledTerm(a, IdentityTerm())(h) == a * h;
      assert !OrderAt(ScaledTerm(a, IdentityTerm()), 2, c, h);
    }
  }

  /** A function has at most one derivative at a point. */
  lemma DerivativeUnique(f: Fn, d: real, e: real)
    requires HasDerivative(f, d) && HasDerivative(f, e)
    ensures d == e
  {
    var gap, minus := ScaledTerm(e - d, IdentityTerm()), ScaledTerm(-1.0, Remainder(f, e));
    OrderScale(-1.0, Remainder(f, e), 2);
    OrderSum(Remainder(f, d), minus, 2);
    forall h | Near(h, 1.0) ensures SameAt(SumTerm(Remainder(f, d), minus), gap, h) {
      assert minus(h) == -Remainder(f, e)(h);
      assert gap(h) == (e - d) * h;
    }
    OrderSame(SumTerm(Remainder(f, d), minus), gap, 2, 1.0);
    OrderTwoLine(e - d);
  }
}
