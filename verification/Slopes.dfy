/** The derivative of the value of an expression with respect to one variable at one date, computed along
    the expression, and the proof that it is the derivative. */
module Slopes {
  import opened Results
  import opened Expressions
  import opened Constructors
  import opened Calculus
  import opened Derivatives

  // ----- moving one variable at one date

  function Bump(p: Path, s: Symbol, date: int, h: real): Path {
    (s': Symbol, t': int) => if s' == s && t' == date then p(s', t') + h else p(s', t')
  }

  /** The value of e at date t when the variable x is moved by h. */
  function Along(m: Functions, e: Expr, x: DerivId, p: Path, t: int): Fn {
    (h: real) => Value(m, e, Bump(p, x.0, DateOf(x.0, x.1, t), h), t)
  }

  // ----- slopes of the operators

  function UnaryFn(m: Functions, op: UnaryOp): Fn {
    (v: real) => m.unary(op, v)
  }

  function Over(v: real): Option<real> {
    if v == 0.0 then None else Some(1.0 / v)
  }

  /** The derivative of a mathematical function. */
  function SlopeOf(m: Functions, op: UnaryOp, v: real): Option<real> {
    match op
    case Exp => m.unary(Exp, v)
    case Log => Over(v)
    case Log10 =>
      var e :- m.unary(Exp, 1.0);
      var l :- m.unary(Log10, e);
      var r :- Over(v);
      Some(l * r)
    case Cos =>
      var y :- m.unary(Sin, v);
      Some(-y)
    case Sin => m.unary(Cos, v)
    case Tan =>
      var y :- m.unary(Tan, v);
      Some(y * y + 1.0)
    case Acos =>
      var y :- m.unary(Acos, v);
      var s :- m.unary(Sin, y);
      var r :- Over(s);
      Some(-r)
    case Asin =>
      var y :- m.unary(Asin, v);
      var s :- m.unary(Cos, y);
      Over(s)
    case Atan => Over(1.0 + v * v)
    case Cosh => m.unary(Sinh, v)
    case Sinh => m.unary(Cosh, v)
    case Tanh =>
      var y :- m.unary(Tanh, v);
      Some(1.0 - y * y)
    case Acosh =>
      var y :- m.unary(Acosh, v);
      var s :- m.unary(Sinh, y);
      Over(s)
    case Asinh =>
      var y :- m.unary(Asinh, v);
      var s :- m.unary(Cosh, y);
      Over(s)
    case Atanh => Over(1.0 - v * v)
    case Sqrt =>
      var y :- m.unary(Sqrt, v);
      Over(y + y)
    case Erf =>
      var q :- m.power(v, 2.0);
      var w :- m.unary(Exp, q);
      var s :- m.unary(Sqrt, PI.v);
      if s * w == 0.0 then None else Some(2.0 / (s * w))
    case _ => None
  }

  /** The derivative of erf, with the decimal that the program writes for pi. It is an extra law, because with the exact pi
      it holds only approximately. */
  ghost predicate ErfLaw(m: Functions) {
    forall v :: SlopeLaw(m, Erf, v)
  }

  /** The derivative of op(f) where f has value v and derivative d; None where it is not claimed. */
  ghost function UnarySlope(m: Functions, op: UnaryOp, v: real, d: real): Option<real> {
    match op
    case Uminus => Some(-d)
    case Abs => if v == 0.0 then None else Some(if v > 0.0 then d else -d)
    case Sign => if v == 0.0 then None else Some(0.0)
    case Atanh => None
    case _ =>
      if op == Erf && !ErfLaw(m) then None
      else
        var s :- SlopeOf(m, op, v);
        Some(s * d)
  }

  predicate IsInteger(v: real) {
    v.Floor as real == v
  }

  /** v (v - 1) ... (v - k + 1) without the factor v - i, for the factors below k. */
  function FactorsWithout(v: real, k: nat, i: nat): real {
    if k == 0 then 1.0
    else FactorsWithout(v, k - 1, i) * (if i == k - 1 then 1.0 else v - (k - 1) as real)
  }

  function FactorSum(v: real, k: nat, n: nat): real {
    if n == 0 then 0.0 else FactorSum(v, k, n - 1) + FactorsWithout(v, k, n - 1)
  }

  /** The derivative of f^g / f^g. */
  function LogSlope(l: real, v1: real, v2: real, d1: real, d2: real): real
    requires v1 != 0.0
  {
    d2 * l + (d1 * v2) / v1
  }

  /** The derivative of an operation on f and g, with values v1, v2 and derivatives d1, d2; `constant`
      tells that g does not read the variable. */
  function BinarySlope(m: Functions, op: BinaryOp, constant: bool, v1: real, v2: real, d1: real, d2: real): Option<real> {
    match op
    case Plus => Some(d1 + d2)
    case Minus => Some(d1 - d2)
    case Times => Some(d1 * v2 + d2 * v1)
    case Divide => if v2 == 0.0 then None else Some((d1 * v2 - d2 * v1) / (v2 * v2))
    case Power =>
      if constant && IsInteger(v2) && (v1 != 0.0 || v2 >= 1.0) then
        var w :- m.power(v1, v2 - 1.0);
        Some(d1 * (v2 * w))
      else if v1 > 0.0 then
        var l :- m.unary(Log, v1);
        var w :- m.power(v1, v2);
        Some(LogSlope(l, v1, v2, d1, d2) * w)
      else None
    case PowerDeriv(k) =>
      if constant && IsInteger(v2) && (v1 != 0.0 || v2 >= (k + 1) as real) then
        var w :- m.power(v1, v2 - (k + 1) as real);
        Some(d1 * (w * FallingFactor(v2, k + 1)))
      else if v1 > 0.0 then
        var l :- m.unary(Log, v1);
        var w :- m.power(v1, v2 - k as real);
        Some((w * LogSlope(l, v1, v2 - k as real, d1, d2)) * FallingFactor(v2, k) + w * (d2 * FactorSum(v2, k, k)))
      else None
    case Equal => None
    case Max => if v1 > v2 then Some(d1) else if v1 < v2 then Some(d2) else None
    case Min => if v1 < v2 then Some(d1) else if v1 > v2 then Some(d2) else None
    case _ => if v1 == v2 then None else Some(0.0)
  }

  /** The derivative with respect to x of the value of e at date t. */
  ghost function Slope(m: Functions, e: Expr, x: DerivId, p: Path, t: int): Option<real> {
    match e
    case Const(_) => Some(0.0)
    case NotANumber => None
    case Var(s, lag) =>
      if s.kind == Parameter && lag != 0 then None else Some(if x == (s, lag) then 1.0 else 0.0)
    case Un(op, arg) =>
      var v :- Value(m, arg, p, t);
      var d :- Slope(m, arg, x, p, t);
      var _ :- UnaryValue(m, op, v);
      UnarySlope(m, op, v, d)
    case Bin(op, l, r) =>
      var v1 :- Value(m, l, p, t);
      var v2 :- Value(m, r, p, t);
      var d1 :- Slope(m, l, x, p, t);
      var d2 :- Slope(m, r, x, p, t);
      var _ :- BinaryValue(m, op, v1, v2);
      BinarySlope(m, op, x !in NonNull(r), v1, v2, d1, d2)
  }

  // ----- laws of the mathematical functions used by differentiation

  ghost predicate SlopeLaw(m: Functions, op: UnaryOp, v: real) {
    SlopeOf(m, op, v).Some? && m.unary(op, v).Some?
    ==> HasDerivative(Around(UnaryFn(m, op), v), SlopeOf(m, op, v).value)
  }

  /** x^y = exp(y log(x)) and x^y = x^(y-1) x for positive x. */
  predicate PowerLaw(m: Functions, x: real, y: real) {
    x > 0.0 ==>
      && m.unary(Log, x).Some?
      && m.power(x, y).Some?
      && m.power(x, y) == m.unary(Exp, y * m.unary(Log, x).value)
      && m.power(x, y - 1.0).Some?
      && m.power(x, y) == Some(m.power(x, y - 1.0).value * x)
  }

  /** Integer powers are repeated products. */
  predicate IntegerPowerLaw(m: Functions, x: real, n: nat) {
    && (n > 0 ==> m.power(x, n as real) == Some(Pow(x, n)))
    && (x != 0.0 ==> Pow(x, n) != 0.0 && m.power(x, -(n as real)) == Some(1.0 / Pow(x, n)))
  }

  ghost predicate CalculusLaws(m: Functions) {
    && (forall op, v :: op != Erf ==> SlopeLaw(m, op, v))
    && (forall x, y :: PowerLaw(m, x, y))
    && (forall x, n :: IntegerPowerLaw(m, x, n))
  }

  // ----- the slope is the derivative

  /** k is the operation applied to f. */
  predicate AppliesUnary(m: Functions, op: UnaryOp, f: Fn, k: Fn, h: real) {
    f(h).Some? ==> k(h) == UnaryValue(m, op, f(h).value)
  }

  lemma UnarySound(m: Functions, op: UnaryOp, f: Fn, k: Fn, v: real, d: real)
    requires CalculusLaws(m) && f(0.0) == Some(v) && HasDerivative(f, d)
    requires UnaryValue(m, op, v).Some? && UnarySlope(m, op, v, d).Some?
    requires forall h :: AppliesUnary(m, op, f, k, h)
    ensures HasDerivative(k, UnarySlope(m, op, v, d).value)
  {
    if op == Uminus {
      hide HasDerivative;
      UminusSound(m, f, k, d);
    } else if op == Abs || op == Sign {
      hide HasDerivative;
      SignSound(m, op, f, k, v, d);
    } else if op != Atanh && SlopeOf(m, op, v).Some? {
      hide HasDerivative, SlopeLaw;
      ElementaryCase(m, op, f, k, v, d);
    }
  }

  lemma ElementaryCase(m: Functions, op: UnaryOp, f: Fn, k: Fn, v: real, d: real)
    requires op != Uminus && op != Abs && op != Sign && op != Atanh
    requires CalculusLaws(m) && f(0.0) == Some(v) && HasDerivative(f, d)
    requires UnaryValue(m, op, v).Some? && UnarySlope(m, op, v, d).Some?
    requires forall h :: AppliesUnary(m, op, f, k, h)
    ensures HasDerivative(k, UnarySlope(m, op, v, d).value)
  {
    hide HasDerivative, SlopeLaw;
    ElementarySlope(m, op, f, k, v, d);
    ElementaryLaw(m, op, v);
    var s, slope := SlopeOf(m, op, v).value, UnarySlope(m, op, v, d).value;
    hide SlopeOf, UnarySlope, CalculusLaws, ErfLaw, AppliesUnary;
    ElementarySound(m, op, f, k, v, d, s, slope);
  }

  lemma ElementaryLaw(m: Functions, op: UnaryOp, v: real)
    requires CalculusLaws(m) && (op == Erf ==> ErfLaw(m))
    ensures SlopeLaw(m, op, v)
  {
  }

  lemma ElementarySlope(m: Functions, op: UnaryOp, f: Fn, k: Fn, v: real, d: real)
    requires op != Uminus && op != Abs && op != Sign && op != Atanh && SlopeOf(m, op, v).Some? && (op == Erf ==> ErfLaw(m))
    requires forall h :: AppliesUnary(m, op, f, k, h)
    ensures UnarySlope(m, op, v, d).value == SlopeOf(m, op, v).value * d
    ensures forall h :: ComposedAt(f, UnaryFn(m, op), k, h)
  {
    forall h ensures ComposedAt(f, UnaryFn(m, op), k, h) {
      assert AppliesUnary(m, op, f, k, h);
    }
  }

  lemma UminusSound(m: Functions, f: Fn, k: Fn, d: real)
    requires HasDerivative(f, d) && forall h :: AppliesUnary(m, Uminus, f, k, h)
    ensures HasDerivative(k, -d)
  {
    forall h ensures ScaledAt(f, k, -1.0, h) {
      assert AppliesUnary(m, Uminus, f, k, h);
    }
    ScaleRule(f, k, -1.0, d, -d);
  }

  lemma ElementarySound(m: Functions, op: UnaryOp, f: Fn, k: Fn, v: real, d: real, s: real, slope: real)
    requires SlopeLaw(m, op, v) && m.unary(op, v).Some? && SlopeOf(m, op, v) == Some(s) && slope == s * d
    requires f(0.0).Some? && f(0.0).value == v && HasDerivative(f, d)
    requires forall h :: ComposedAt(f, UnaryFn(m, op), k, h)
    ensures HasDerivative(k, slope)
  {
    ChainRule(f, UnaryFn(m, op), k, d, s, slope);
  }

  /** abs and sign where the argument is not 0. */
  lemma SignSound(m: Functions, op: UnaryOp, f: Fn, k: Fn, v: real, d: real)
    requires (op == Abs || op == Sign) && f(0.0) == Some(v) && HasDerivative(f, d) && v != 0.0
    requires forall h :: AppliesUnary(m, op, f, k, h)
    ensures HasDerivative(k, UnarySlope(m, op, v, d).value)
  {
    var a, slope := if v > 0.0 then 1.0 else -1.0, if v > 0.0 then d else -d;
    var g := Scaled(a, f);
    forall h ensures ScaledAt(f, g, a, h) {
    }
    ScaleRule(f, g, a, d, slope);
    var radius := StaysPositive(g, slope);
    if op == Abs {
      forall h | Near(h, radius) ensures Agree(g, k, h) {
        assert PositiveAt(g, h) && AppliesUnary(m, op, f, k, h);
      }
      LocalRule(g, k, slope, radius);
    } else {
      forall h | Near(h, radius) ensures EqualsAt(k, a, h) {
        assert PositiveAt(g, h) && AppliesUnary(m, op, f, k, h);
      }
      ConstantNear(k, a, radius);
    }
  }

  function Scaled(a: real, f: Fn): Fn {
    (h: real) => match f(h) case Some(v) => Some(a * v) case None => None
  }

  predicate EqualsAt(k: Fn, a: real, h: real) {
    k(h) == Some(a)
  }

  lemma ConstantNear(k: Fn, a: real, radius: real)
    requires radius > 0.0 && forall h :: Near(h, radius) ==> EqualsAt(k, a, h)
    ensures HasDerivative(k, 0.0)
  {
    var constant: Fn := (h: real) => Some(a);
    forall h ensures LineAt(constant, a, 0.0, h) {
    }
    LineRule(constant, a, 0.0);
    forall h | Near(h, radius) ensures Agree(constant, k, h) {
      assert EqualsAt(k, a, h);
    }
    LocalRule(constant, k, 0.0, radius);
  }

  // ----- operators

  /** k is the operation applied to f and g. */
  predicate AppliesBinary(m: Functions, op: BinaryOp, f: Fn, g: Fn, k: Fn, h: real) {
    f(h).Some? && g(h).Some? ==> k(h) == BinaryValue(m, op, f(h).value, g(h).value)
  }

  ghost predicate Constant(g: Fn, v: real) {
    forall h :: EqualsAt(g, v, h)
  }

  /** f and g have values v1, v2 and derivatives d1, d2. */
  ghost predicate Tangents(f: Fn, g: Fn, v1: real, v2: real, d1: real, d2: real) {
    f(0.0) == Some(v1) && g(0.0) == Some(v2) && HasDerivative(f, d1) && HasDerivative(g, d2)
  }

  lemma MinusSound(f: Fn, g: Fn, k: Fn, v1: real, v2: real, d1: real, d2: real)
    requires Tangents(f, g, v1, v2, d1, d2)
    requires forall h :: DifferenceAt(f, g, k, h)
    ensures HasDerivative(k, d1 - d2)
  {
    var g' := Scaled(-1.0, g);
    forall h ensures ScaledAt(g, g', -1.0, h) && SumAt(f, g', k, h) {
      assert DifferenceAt(f, g, k, h);
    }
    ScaleRule(g, g', -1.0, d2, -d2);
    SumRule(f, g', k, d1, -d2);
  }

  predicate DifferenceAt(f: Fn, g: Fn, k: Fn, h: real) {
    f(h).Some? && g(h).Some? ==> k(h).Some? && k(h).value == f(h).value - g(h).value
  }

  function Difference(f: Fn, g: Fn): Fn {
    (h: real) => if f(h).Some? && g(h).Some? then Some(f(h).value - g(h).value) else None
  }

  /** Near 0, f > g when it is so at 0. */
  lemma StaysAbove(f: Fn, g: Fn, v1: real, v2: real, d1: real, d2: real) returns (radius: real)
    requires Tangents(f, g, v1, v2, d1, d2) && v1 > v2
    ensures radius > 0.0 && forall h :: Near(h, radius) ==> AboveAt(f, g, h)
  {
    var k := Difference(f, g);
    forall h ensures DifferenceAt(f, g, k, h) {
    }
    MinusSound(f, g, k, v1, v2, d1, d2);
    radius := StaysPositive(k, d1 - d2);
    forall h | Near(h, radius) ensures AboveAt(f, g, h) {
      assert PositiveAt(k, h);
    }
  }

  predicate AboveAt(f: Fn, g: Fn, h: real) {
    f(h).Some? && g(h).Some? && f(h).value > g(h).value
  }

  predicate IsComparison(op: BinaryOp) {
    op in {Less, Greater, LessEqual, GreaterEqual, EqualEqual, Different}
  }

  /** max, min and the comparisons, where the arguments differ. */
  lemma OrderSound(m: Functions, op: BinaryOp, constant: bool, f: Fn, g: Fn, k: Fn, v1: real, v2: real, d1: real, d2: real)
    requires IsComparison(op) || op == Max || op == Min
    requires Tangents(f, g, v1, v2, d1, d2) && v1 != v2 && forall h :: AppliesBinary(m, op, f, g, k, h)
    ensures HasDerivative(k, BinarySlope(m, op, constant, v1, v2, d1, d2).value)
  {
    var radius;
    if v1 > v2 {
      radius := StaysAbove(f, g, v1, v2, d1, d2);
    } else {
      radius := StaysAbove(g, f, v2, v1, d2, d1);
    }
    if IsComparison(op) {
      var a := BinaryValue(m, op, v1, v2).value;
      forall h | Near(h, radius) ensures EqualsAt(k, a, h) {
        assert (if v1 > v2 then AboveAt(f, g, h) else AboveAt(g, f, h)) && AppliesBinary(m, op, f, g, k, h);
      }
      ConstantNear(k, a, radius);
    } else {
      var first := (op == Max) == (v1 > v2);
      forall h | Near(h, radius) ensures Agree(if first then f else g, k, h) {
        assert (if v1 > v2 then AboveAt(f, g, h) else AboveAt(g, f, h)) && AppliesBinary(m, op, f, g, k, h);
      }
      LocalRule(if first then f else g, k, if first then d1 else d2, radius);
    }
  }

  // ----- powers

  function PowerFn(m: Functions, y: real): Fn {
    (v: real) => m.power(v, y)
  }

  lemma PositiveExponent(m: Functions, x: real, n: nat, w: real, slope: real)
    requires CalculusLaws(m) && n > 0 && PowerValues(m) && m.power(x, n as real - 1.0) == Some(w)
    requires slope == n as real * w
    ensures HasDerivative(Around(PowerFn(m, n as real), x), slope)
  {
    assert w == Pow(x, n - 1) by {
      assert IntegerPowerLaw(m, x, n - 1);
      assert (n - 1) as real == n as real - 1.0;
      assert n == 1 ==> m.power(x, 0.0) == Some(w) && x != 0.0 by {
        assert m.power(0.0, 0.0) == None;
      }
    }
    PowRule(x, n);
    forall h | Near(h, 1.0) ensures Agree(Around(PowFn(n), x), Around(PowerFn(m, n as real), x), h) {
      assert IntegerPowerLaw(m, x + h, n);
    }
    assert slope == PowSlope(x, n);
    LocalRule(Around(PowFn(n), x), Around(PowerFn(m, n as real), x), slope, 1.0);
  }

  lemma NegativeSlope(x: real, n: nat, q: real, w: real)
    requires x != 0.0 && q == Pow(x, n) && q != 0.0 && Pow(x, n + 1) != 0.0 && w == 1.0 / Pow(x, n + 1)
    ensures (-1.0 / (q * q)) * PowSlope(x, n) == -(n as real) * w
  {
    var a := n as real;
    if n > 0 {
      NegativeSlopeAt(x, Pow(x, n - 1), q, a, w, -1.0 / (q * q));
    }
  }

  lemma NegativeSlopeAt(x: real, r: real, q: real, a: real, w: real, s: real)
    requires x != 0.0 && q != 0.0 && q == x * r && w == 1.0 / (x * q) && s == -1.0 / (q * q)
    ensures s * (a * r) == -a * w
  {
    var z := x * q;
    assert w * z == 1.0;
    assert s * (q * q) == -1.0;
    assert r * z == q * q;
    assert (s * (a * r)) * z == a * (s * (r * z));
    assert (-a * w) * z == -a * (w * z);
    Cancel(s * (a * r), -a * w, z);
  }

  lemma Cancel(a: real, b: real, z: real)
    requires a * z == b * z && z != 0.0
    ensures a == b
  {
  }

  lemma InversePowerAt(m: Functions, x: real, n: nat, h: real)
    requires IntegerPowerLaw(m, x + h, n) && x + h != 0.0
    ensures Agree(Inverse(Around(PowFn(n), x)), Around(PowerFn(m, -(n as real)), x), h)
  {
  }

  lemma NegativeExponent(m: Functions, x: real, n: nat, w: real, slope: real)
    requires CalculusLaws(m) && x != 0.0 && m.power(x, -(n as real) - 1.0) == Some(w)
    requires slope == -(n as real) * w
    ensures HasDerivative(Around(PowerFn(m, -(n as real)), x), slope)
  {
    var q := Pow(x, n);
    assert IntegerPowerLaw(m, x, n) && IntegerPowerLaw(m, x, n + 1);
    assert -((n + 1) as real) == -(n as real) - 1.0;
    var g := Around(PowFn(n), x);
    PowRule(x, n);
    assert x + 0.0 == x;
    assert DefinedAt(g, 0.0) && ValueOf(g, 0.0) == q;
    NegativeSlope(x, n, q, w);
    InverseRule(g, q, PowSlope(x, n), -1.0 / (q * q), slope);
    var radius := AbsR(x) / 2.0;
    forall h | Near(h, radius) ensures Agree(Inverse(g), Around(PowerFn(m, -(n as real)), x), h) {
      assert IntegerPowerLaw(m, x + h, n);
      InversePowerAt(m, x, n, h);
    }
    LocalRule(Inverse(g), Around(PowerFn(m, -(n as real)), x), slope, radius);
  }

  /** The derivative of x^n for an integer n, where it is defined. */
  lemma IntegerExponent(m: Functions, x: real, y: real, w: real, slope: real)
    requires CalculusLaws(m) && PowerValues(m) && IsInteger(y) && (x != 0.0 || y >= 1.0)
    requires m.power(x, y - 1.0) == Some(w) && slope == y * w
    ensures HasDerivative(Around(PowerFn(m, y), x), slope)
  {
    if y >= 1.0 {
      PositiveExponent(m, x, y.Floor, w, slope);
    } else {
      NegativeExponent(m, x, -y.Floor, w, slope);
    }
  }

  /** An integer power with a constant exponent. */
  lemma IntegerPowerSound(m: Functions, f: Fn, g: Fn, k: Fn, v1: real, v2: real, d1: real, w: real, slope: real)
    requires CalculusLaws(m) && PowerValues(m) && f(0.0) == Some(v1) && HasDerivative(f, d1) && Constant(g, v2)
    requires IsInteger(v2) && (v1 != 0.0 || v2 >= 1.0) && m.power(v1, v2 - 1.0) == Some(w)
    requires slope == d1 * (v2 * w)
    requires forall h :: AppliesBinary(m, Power, f, g, k, h)
    ensures HasDerivative(k, slope)
  {
    var s := v2 * w;
    IntegerExponent(m, v1, v2, w, s);
    forall h ensures ComposedAt(f, PowerFn(m, v2), k, h) {
      assert AppliesBinary(m, Power, f, g, k, h) && EqualsAt(g, v2, h);
    }
    ChainRule(f, PowerFn(m, v2), k, d1, s, slope);
  }

  // ----- powers of positive numbers

  function Apply(m: Functions, op: UnaryOp, f: Fn): Fn {
    (h: real) => match f(h) case Some(v) => m.unary(op, v) case None => None
  }

  function Product(f: Fn, g: Fn): Fn {
    (h: real) => if f(h).Some? && g(h).Some? then Some(f(h).value * g(h).value) else None
  }

  function PowerOf(m: Functions, f: Fn, g: Fn): Fn {
    (h: real) => if f(h).Some? && g(h).Some? then m.power(f(h).value, g(h).value) else None
  }

  lemma ApplySound(m: Functions, op: UnaryOp, f: Fn, v: real, d: real, s: real, slope: real)
    requires CalculusLaws(m) && f(0.0).Some? && f(0.0).value == v && HasDerivative(f, d) && m.unary(op, v).Some?
    requires SlopeOf(m, op, v) == Some(s) && slope == s * d && op != Erf
    ensures HasDerivative(Apply(m, op, f), slope)
  {
    assert SlopeLaw(m, op, v);
    forall h ensures ComposedAt(f, UnaryFn(m, op), Apply(m, op, f), h) {
    }
    ElementarySound(m, op, f, Apply(m, op, f), v, d, s, slope);
  }

  /** f^g where f is positive. */
  lemma PowerSound(m: Functions, f: Fn, g: Fn, v1: real, v2: real, d1: real, d2: real, l: real, w: real, slope: real)
    requires CalculusLaws(m) && Tangents(f, g, v1, v2, d1, d2) && v1 > 0.0
    requires m.unary(Log, v1) == Some(l) && m.power(v1, v2) == Some(w)
    requires slope == LogSlope(l, v1, v2, d1, d2) * w
    ensures HasDerivative(PowerOf(m, f, g), slope)
  {
    var lf, p := Apply(m, Log, f), Product(g, Apply(m, Log, f));
    LogProductSound(m, f, g, v1, v2, d1, d2, l);
    PowerAt(m, f, g, 0.0);
    var a, e := LogSlope(l, v1, v2, d1, d2), Apply(m, Exp, p);
    assert slope == w * a;
    ApplySound(m, Exp, p, v2 * l, a, w, slope);
    var radius := StaysPositive(f, d1);
    forall h | Near(h, radius) ensures Agree(e, PowerOf(m, f, g), h) {
      assert PositiveAt(f, h);
      PowerAt(m, f, g, h);
    }
    LocalRule(e, PowerOf(m, f, g), slope, radius);
  }

  /** g log(f) */
  lemma LogProductSound(m: Functions, f: Fn, g: Fn, v1: real, v2: real, d1: real, d2: real, l: real)
    requires CalculusLaws(m) && Tangents(f, g, v1, v2, d1, d2) && v1 > 0.0 && m.unary(Log, v1) == Some(l)
    ensures HasDerivative(Product(g, Apply(m, Log, f)), LogSlope(l, v1, v2, d1, d2))
  {
    hide HasDerivative, CalculusLaws;
    var lf, a, dl := Apply(m, Log, f), LogSlope(l, v1, v2, d1, d2), (1.0 / v1) * d1;
    ApplySound(m, Log, f, v1, d1, 1.0 / v1, dl);
    forall h ensures ProductAt(g, lf, Product(g, lf), h) {
    }
    LogSlopeForms(v1, v2, d1);
    assert a == v2 * dl + d2 * l;
    ProductRule(g, lf, Product(g, lf), v2, l, d2, dl, a);
  }

  lemma PowerAt(m: Functions, f: Fn, g: Fn, h: real)
    requires CalculusLaws(m) && PositiveAt(f, h)
    ensures Agree(Apply(m, Exp, Product(g, Apply(m, Log, f))), PowerOf(m, f, g), h)
    ensures g(h).Some? ==>
      && m.unary(Log, f(h).value).Some?
      && Product(g, Apply(m, Log, f))(h).Some?
      && Product(g, Apply(m, Log, f))(h).value == g(h).value * m.unary(Log, f(h).value).value
      && m.power(f(h).value, g(h).value) == m.unary(Exp, Product(g, Apply(m, Log, f))(h).value)
  {
    if g(h).Some? {
      var lf := Apply(m, Log, f);
      assert lf(h) == m.unary(Log, f(h).value);
      assert PowerLaw(m, f(h).value, g(h).value);
      var z := g(h).value * m.unary(Log, f(h).value).value;
      ProductValue(g, lf, h, z);
      PowerLawAt(m, f(h).value, g(h).value, Product(g, lf)(h).value);
    }
  }

  lemma PowerLawAt(m: Functions, x: real, y: real, z: real)
    requires PowerLaw(m, x, y) && x > 0.0 && z == y * m.unary(Log, x).value
    ensures m.power(x, y) == m.unary(Exp, z)
  {
    var z' := y * m.unary(Log, x).value;
    assert m.unary(Exp, z') == m.unary(Exp, z);
  }

  lemma ProductValue(f: Fn, g: Fn, h: real, v: real)
    requires f(h).Some? && g(h).Some? && v == f(h).value * g(h).value
    ensures Product(f, g)(h).Some? && Product(f, g)(h).value == v
  {
  }

  lemma LogSlopeForms(v1: real, v2: real, d1: real)
    requires v1 != 0.0
    ensures v2 * ((1.0 / v1) * d1) == (d1 * v2) / v1
  {
  }

  // ----- derivatives of powers

  lemma {:induction false} FallingLast(v: real, k: nat)
    ensures FallingFactor(v, k + 1) == FallingFactor(v, k) * (v - k as real)
    decreases k
  {
    if k > 0 {
      FallingLast(v - 1.0, k - 1);
      var a, b := FallingFactor(v - 1.0, k - 1), v - k as real;
      assert (v - 1.0) - (k - 1) as real == b;
      assert v * (a * b) == (v * a) * b;
    }
  }

  lemma {:induction false} FactorsWithoutNone(v: real, k: nat, i: nat)
    requires i >= k
    ensures FactorsWithout(v, k, i) == FallingFactor(v, k)
  {
    if k > 0 {
      FactorsWithoutNone(v, k - 1, i);
      FallingLast(v, k - 1);
    }
  }

  lemma {:induction false} FactorSumLast(v: real, k: nat, n: nat)
    requires n <= k
    ensures FactorSum(v, k + 1, n) == FactorSum(v, k, n) * (v - k as real)
  {
    if n > 0 {
      FactorSumLast(v, k, n - 1);
      var a, b, z := FactorSum(v, k, n - 1), FactorsWithout(v, k, n - 1), v - k as real;
      assert FactorsWithout(v, k + 1, n - 1) == b * z;
      assert (a + b) * z == a * z + b * z;
    }
  }

  lemma FactorSumStep(v: real, n: nat)
    ensures FactorSum(v, n + 1, n + 1) == FallingFactor(v, n) * 1.0 + FactorSum(v, n, n) * (v - n as real)
  {
    FactorSumLast(v, n, n);
    FactorsWithoutNone(v, n, n);
    assert FactorsWithout(v, n + 1, n) == FactorsWithout(v, n, n) * 1.0;
  }

  function FallingFn(k: nat): Fn {
    (v: real) => Some(FallingFactor(v, k))
  }

  /** The derivative of v (v - 1) ... (v - k + 1) is the sum of the products that omit one factor. */
  lemma {:induction false} FallingRule(v: real, k: nat)
    ensures HasDerivative(Around(FallingFn(k), v), FactorSum(v, k, k))
  {
    var f := Around(FallingFn(k), v);
    if k == 0 {
      forall h ensures LineAt(f, 1.0, 0.0, h) {
        assert f(h) == Some(FallingFactor(v + h, 0));
      }
      LineRule(f, 1.0, 0.0);
    } else {
      var n := k - 1;
      var lower, last: Fn := Around(FallingFn(n), v), (h: real) => Some(v - n as real + h);
      FallingRule(v, n);
      forall h ensures LineAt(last, v - n as real, 1.0, h) && ProductAt(lower, last, f, h) {
        FallingLast(v + h, n);
      }
      LineRule(last, v - n as real, 1.0);
      assert v + 0.0 == v;
      FactorSumStep(v, n);
      ProductRule(lower, last, f, FallingFactor(v, n), v - n as real, FactorSum(v, n, n), 1.0, FactorSum(v, k, k));
    }
  }

  function Falling(g: Fn, k: nat): Fn {
    (h: real) => match g(h) case Some(v) => Some(FallingFactor(v, k)) case None => None
  }

  function Lowered(g: Fn, k: nat): Fn {
    (h: real) => match g(h) case Some(v) => Some(v - k as real) case None => None
  }

  lemma FallingSound(g: Fn, k: nat, v: real, d: real, slope: real)
    requires g(0.0) == Some(v) && HasDerivative(g, d) && slope == FactorSum(v, k, k) * d
    ensures HasDerivative(Falling(g, k), slope)
  {
    FallingRule(v, k);
    forall h ensures ComposedAt(g, FallingFn(k), Falling(g, k), h) {
    }
    ChainRule(g, FallingFn(k), Falling(g, k), d, FactorSum(v, k, k), slope);
  }

  lemma LoweredSound(g: Fn, k: nat, v: real, d: real)
    requires g(0.0) == Some(v) && HasDerivative(g, d)
    ensures HasDerivative(Lowered(g, k), d)
  {
    var shift: Fn := (h: real) => Some(-(k as real));
    forall h ensures LineAt(shift, -(k as real), 0.0, h) && SumAt(g, shift, Lowered(g, k), h) {
    }
    LineRule(shift, -(k as real), 0.0);
    SumRule(g, shift, Lowered(g, k), d, 0.0);
  }

  lemma PowerDerivSound(m: Functions, k: nat, f: Fn, g: Fn, r: Fn, v1: real, v2: real, d1: real, d2: real,
                        l: real, w: real, slope: real)
    requires CalculusLaws(m) && Tangents(f, g, v1, v2, d1, d2) && v1 > 0.0
    requires m.unary(Log, v1) == Some(l) && m.power(v1, v2 - k as real) == Some(w)
    requires slope == (w * LogSlope(l, v1, v2 - k as real, d1, d2)) * FallingFactor(v2, k)
                      + w * (d2 * FactorSum(v2, k, k))
    requires forall h :: AppliesBinary(m, PowerDeriv(k), f, g, r, h)
    ensures HasDerivative(r, slope)
  {
    hide LogSlope, FallingFactor, FactorSum;
    var s, u, z := LogSlope(l, v1, v2 - k as real, d1, d2), FallingFactor(v2, k), FactorSum(v2, k, k);
    PowerFactorSound(m, k, f, g, v1, v2, d1, d2, l, w, s * w);
    FallingSound(g, k, v2, d2, z * d2);
    PowerDerivSlope(w, s, u, z, d2, s * w, z * d2, slope);
    FactorsSound(PowerOf(m, f, Lowered(g, k)), Falling(g, k), w, u, s * w, z * d2, slope);
    var radius := StaysPositive(f, d1);
    forall h | Near(h, radius) ensures Agree(Product(PowerOf(m, f, Lowered(g, k)), Falling(g, k)), r, h) {
      assert PositiveAt(f, h) && AppliesBinary(m, PowerDeriv(k), f, g, r, h);
      PowerDerivAt(m, k, f, g, r, h);
    }
    LocalRule(Product(PowerOf(m, f, Lowered(g, k)), Falling(g, k)), r, slope, radius);
  }

  /** f^(g - k) where f is positive. */
  lemma PowerFactorSound(m: Functions, k: nat, f: Fn, g: Fn, v1: real, v2: real, d1: real, d2: real,
                         l: real, w: real, slope: real)
    requires CalculusLaws(m) && Tangents(f, g, v1, v2, d1, d2) && v1 > 0.0
    requires m.unary(Log, v1) == Some(l) && m.power(v1, v2 - k as real) == Some(w)
    requires slope == LogSlope(l, v1, v2 - k as real, d1, d2) * w
    ensures HasDerivative(PowerOf(m, f, Lowered(g, k)), slope)
    ensures PowerOf(m, f, Lowered(g, k))(0.0) == Some(w)
  {
    hide LogSlope;
    var g', y := Lowered(g, k), v2 - k as real;
    LoweredSound(g, k, v2, d2);
    assert g'(0.0).Some? && g'(0.0).value == y;
    assert g'(0.0) == Some(y);
    PowerSound(m, f, g', v1, y, d1, d2, l, w, slope);
  }

  lemma PowerDerivSlope(w: real, s: real, u: real, z: real, d2: real, a: real, b: real, slope: real)
    requires a == s * w && b == z * d2 && slope == (w * s) * u + w * (d2 * z)
    ensures slope == w * b + a * u
  {
  }

  lemma FactorsSound(f: Fn, g: Fn, f0: real, g0: real, d: real, e: real, slope: real)
    requires HasDerivative(f, d) && HasDerivative(g, e)
    requires f0 == ValueOf(f, 0.0) && g0 == ValueOf(g, 0.0) && slope == f0 * e + d * g0
    ensures HasDerivative(Product(f, g), slope)
  {
    forall h ensures ProductAt(f, g, Product(f, g), h) {
    }
    ProductRule(f, g, Product(f, g), f0, g0, d, e, slope);
  }

  lemma PowerDerivAt(m: Functions, k: nat, f: Fn, g: Fn, r: Fn, h: real)
    requires PositiveAt(f, h) && AppliesBinary(m, PowerDeriv(k), f, g, r, h)
    ensures Agree(Product(PowerOf(m, f, Lowered(g, k)), Falling(g, k)), r, h)
  {
    if g(h).Some? {
      assert Lowered(g, k)(h) == Some(g(h).value - k as real);
      assert Falling(g, k)(h) == Some(FallingFactor(g(h).value, k));
      var a := PowerOf(m, f, Lowered(g, k))(h);
      assert a == m.power(f(h).value, g(h).value - k as real);
      if a.Some? {
        var z := a.value * FallingFactor(g(h).value, k);
        ProductValue(PowerOf(m, f, Lowered(g, k)), Falling(g, k), h, z);
        assert r(h).Some? && r(h).value == z;
      }
    }
  }

  function PowerDerivFn(m: Functions, k: nat, y: real): Fn {
    (v: real) => BinaryValue(m, PowerDeriv(k), v, y)
  }

  /** The derivative of order k of x^n has the derivative of order k + 1 as its derivative. */
  lemma PowerDerivRule(m: Functions, k: nat, x: real, y: real, w: real, slope: real)
    requires CalculusLaws(m) && PowerValues(m) && IsInteger(y) && (x != 0.0 || y >= (k + 1) as real)
    requires m.power(x, y - (k + 1) as real) == Some(w) && slope == w * FallingFactor(y, k + 1)
    ensures HasDerivative(Around(PowerDerivFn(m, k, y), x), slope)
  {
    hide FallingFactor;
    var n, a := y - k as real, FallingFactor(y, k);
    LoweredInteger(y, k);
    assert n - 1.0 == y - (k + 1) as real;
    IntegerExponent(m, x, n, w, n * w);
    var f, g := Around(PowerFn(m, n), x), Scaled(a, Around(PowerFn(m, n), x));
    FallingLast(y, k);
    ScaledSlope(a, n, w, FallingFactor(y, k + 1), slope);
    ScaleRule(f, g, a, n * w, slope);
    var radius := if x != 0.0 then AbsR(x) / 2.0 else 1.0;
    forall h | Near(h, radius) ensures Agree(g, Around(PowerDerivFn(m, k, y), x), h) {
      PowerDerivScaled(m, k, x, y, a, n, h);
    }
    LocalRule(g, Around(PowerDerivFn(m, k, y), x), slope, radius);
  }

  lemma LoweredInteger(y: real, k: nat)
    requires IsInteger(y)
    ensures IsInteger(y - k as real)
  {
    assert y - k as real == (y.Floor - k) as real;
  }

  lemma ScaledSlope(a: real, n: real, w: real, z: real, slope: real)
    requires z == a * n && slope == w * z
    ensures slope == a * (n * w)
  {
  }

  lemma PowerDerivScaled(m: Functions, k: nat, x: real, y: real, a: real, n: real, h: real)
    requires (x + h != 0.0 || y >= (k + 1) as real) && a == FallingFactor(y, k) && n == y - k as real
    ensures Agree(Scaled(a, Around(PowerFn(m, n), x)), Around(PowerDerivFn(m, k, y), x), h)
  {
    hide FallingFactor;
    var v := x + h;
    assert Around(PowerDerivFn(m, k, y), x)(h) == BinaryValue(m, PowerDeriv(k), v, y);
    assert Around(PowerFn(m, n), x)(h) == m.power(v, y - k as real);
    if m.power(v, n).Some? {
      var z := m.power(v, n).value;
      var q := a * z;
      PowerDerivAway(m, k, v, y, z, q);
      var f := Around(PowerFn(m, n), x);
      assert f(h).Some? && f(h).value == z;
      ScaledValue(f, a, h, z, q);
    }
  }

  lemma ScaledValue(f: Fn, a: real, h: real, z: real, q: real)
    requires f(h).Some? && f(h).value == z && q == a * z
    ensures Scaled(a, f)(h).Some? && Scaled(a, f)(h).value == q
  {
  }

  lemma PowerDerivAway(m: Functions, k: nat, v: real, y: real, z: real, value: real)
    requires (v != 0.0 || y >= (k + 1) as real) && m.power(v, y - k as real) == Some(z) && value == FallingFactor(y, k) * z
    ensures BinaryValue(m, PowerDeriv(k), v, y).Some? && BinaryValue(m, PowerDeriv(k), v, y).value == value
  {
    hide FallingFactor;
  }

  /** A derivative of a power with a constant integer exponent. */
  lemma IntegerPowerDerivSound(m: Functions, k: nat, f: Fn, g: Fn, r: Fn, v1: real, v2: real, d1: real, w: real,
                               slope: real)
    requires CalculusLaws(m) && PowerValues(m) && f(0.0) == Some(v1) && HasDerivative(f, d1) && Constant(g, v2)
    requires IsInteger(v2) && (v1 != 0.0 || v2 >= (k + 1) as real) && m.power(v1, v2 - (k + 1) as real) == Some(w)
    requires slope == d1 * (w * FallingFactor(v2, k + 1))
    requires forall h :: AppliesBinary(m, PowerDeriv(k), f, g, r, h)
    ensures HasDerivative(r, slope)
  {
    hide FallingFactor, BinaryValue;
    var s := w * FallingFactor(v2, k + 1);
    PowerDerivRule(m, k, v1, v2, w, s);
    forall h ensures ComposedAt(f, PowerDerivFn(m, k, v2), r, h) {
      assert AppliesBinary(m, PowerDeriv(k), f, g, r, h) && EqualsAt(g, v2, h);
    }
    ChainRule(f, PowerDerivFn(m, k, v2), r, d1, s, slope);
  }

  lemma PowerDerivOpSound(m: Functions, k: nat, constant: bool, f: Fn, g: Fn, r: Fn, v1: real, v2: real, d1: real, d2: real)
    requires CalculusLaws(m) && PowerValues(m) && Tangents(f, g, v1, v2, d1, d2) && (constant ==> Constant(g, v2))
    requires BinarySlope(m, PowerDeriv(k), constant, v1, v2, d1, d2).Some?
    requires forall h :: AppliesBinary(m, PowerDeriv(k), f, g, r, h)
    ensures HasDerivative(r, BinarySlope(m, PowerDeriv(k), constant, v1, v2, d1, d2).value)
  {
    hide FallingFactor, FactorSum, LogSlope, HasDerivative;
    var slope := BinarySlope(m, PowerDeriv(k), constant, v1, v2, d1, d2).value;
    if constant && IsInteger(v2) && (v1 != 0.0 || v2 >= (k + 1) as real) {
      IntegerPowerDerivSound(m, k, f, g, r, v1, v2, d1, m.power(v1, v2 - (k + 1) as real).value, slope);
    } else {
      PowerDerivSound(m, k, f, g, r, v1, v2, d1, d2, m.unary(Log, v1).value, m.power(v1, v2 - k as real).value, slope);
    }
  }

  lemma BinarySound(m: Functions, op: BinaryOp, constant: bool, f: Fn, g: Fn, k: Fn,
                    v1: real, v2: real, d1: real, d2: real)
    requires CalculusLaws(m) && PowerValues(m) && Tangents(f, g, v1, v2, d1, d2) && (constant ==> Constant(g, v2))
    requires BinaryValue(m, op, v1, v2).Some? && BinarySlope(m, op, constant, v1, v2, d1, d2).Some?
    requires forall h :: AppliesBinary(m, op, f, g, k, h)
    ensures HasDerivative(k, BinarySlope(m, op, constant, v1, v2, d1, d2).value)
  {
    if op == Plus || op == Minus || op == Times || op == Divide {
      RationalSound(m, op, constant, f, g, k, v1, v2, d1, d2);
    } else if op == Power {
      PowerOpSound(m, constant, f, g, k, v1, v2, d1, d2);
    } else if op.PowerDeriv? {
      PowerDerivOpSound(m, op.order, constant, f, g, k, v1, v2, d1, d2);
    } else {
      OrderSound(m, op, constant, f, g, k, v1, v2, d1, d2);
    }
  }

  lemma PowerOpSound(m: Functions, constant: bool, f: Fn, g: Fn, k: Fn, v1: real, v2: real, d1: real, d2: real)
    requires CalculusLaws(m) && PowerValues(m) && Tangents(f, g, v1, v2, d1, d2) && (constant ==> Constant(g, v2))
    requires m.power(v1, v2).Some? && BinarySlope(m, Power, constant, v1, v2, d1, d2).Some?
    requires forall h :: AppliesBinary(m, Power, f, g, k, h)
    ensures HasDerivative(k, BinarySlope(m, Power, constant, v1, v2, d1, d2).value)
  {
    var slope := BinarySlope(m, Power, constant, v1, v2, d1, d2).value;
    if constant && IsInteger(v2) && (v1 != 0.0 || v2 >= 1.0) {
      var w := m.power(v1, v2 - 1.0).value;
      assert slope == d1 * (v2 * w);
      IntegerPowerSound(m, f, g, k, v1, v2, d1, w, slope);
    } else {
      PositivePowerSound(m, f, g, k, v1, v2, d1, d2, slope);
    }
  }

  lemma PositivePowerSound(m: Functions, f: Fn, g: Fn, k: Fn, v1: real, v2: real, d1: real, d2: real, slope: real)
    requires CalculusLaws(m) && Tangents(f, g, v1, v2, d1, d2) && v1 > 0.0
    requires m.unary(Log, v1).Some? && m.power(v1, v2).Some?
    requires slope == LogSlope(m.unary(Log, v1).value, v1, v2, d1, d2) * m.power(v1, v2).value
    requires forall h :: AppliesBinary(m, Power, f, g, k, h)
    ensures HasDerivative(k, slope)
  {
    PowerSound(m, f, g, v1, v2, d1, d2, m.unary(Log, v1).value, m.power(v1, v2).value, slope);
    forall h | Near(h, 1.0) ensures Agree(PowerOf(m, f, g), k, h) {
      assert AppliesBinary(m, Power, f, g, k, h);
    }
    LocalRule(PowerOf(m, f, g), k, slope, 1.0);
  }

  lemma RationalSound(m: Functions, op: BinaryOp, constant: bool, f: Fn, g: Fn, k: Fn,
                      v1: real, v2: real, d1: real, d2: real)
    requires Tangents(f, g, v1, v2, d1, d2) && (op == Plus || op == Minus || op == Times || op == Divide)
    requires BinarySlope(m, op, constant, v1, v2, d1, d2).Some?
    requires forall h :: AppliesBinary(m, op, f, g, k, h)
    ensures HasDerivative(k, BinarySlope(m, op, constant, v1, v2, d1, d2).value)
  {
    var slope := BinarySlope(m, op, constant, v1, v2, d1, d2).value;
    forall h ensures (op == Plus ==> SumAt(f, g, k, h)) && (op == Minus ==> DifferenceAt(f, g, k, h))
                     && (op == Times ==> ProductAt(f, g, k, h)) && (op == Divide ==> DivideAt(f, g, k, h)) {
      assert AppliesBinary(m, op, f, g, k, h);
    }
    if op == Plus {
      SumRule(f, g, k, d1, d2);
    } else if op == Minus {
      MinusSound(f, g, k, v1, v2, d1, d2);
    } else if op == Times {
      assert slope == v1 * d2 + d1 * v2;
      ProductRule(f, g, k, v1, v2, d1, d2, slope);
    } else {
      assert slope == (d1 * v2 - d2 * v1) / (v2 * v2);
      DivideRule(f, g, k, v1, v2, d1, d2, slope);
    }
  }

  // ----- the theorem

  /** Paths that agree everywhere give the same values. */
  lemma {:induction false} ValueAgree(m: Functions, e: Expr, p: Path, q: Path, t: int)
    requires forall s: Symbol, t: int :: p(s, t) == q(s, t)
    ensures Value(m, e, p, t) == Value(m, e, q, t)
  {
    match e
    case Un(_, arg) => ValueAgree(m, arg, p, q, t);
    case Bin(_, l, r) =>
      ValueAgree(m, l, p, q, t);
      ValueAgree(m, r, p, q, t);
    case _ =>
  }

  lemma AlongStart(m: Functions, e: Expr, x: DerivId, p: Path, t: int)
    ensures Along(m, e, x, p, t)(0.0) == Value(m, e, p, t)
  {
    ValueAgree(m, e, Bump(p, x.0, DateOf(x.0, x.1, t), 0.0), p, t);
  }

  /** Moving a variable that an expression does not read does not change its value. */
  lemma {:induction false} UnreadValue(m: Functions, e: Expr, x: DerivId, p: Path, t: int, h: real)
    requires x !in NonNull(e) && (x.0.kind == Parameter ==> x.1 == 0) && Slope(m, e, x, p, t).Some?
    ensures Value(m, e, Bump(p, x.0, DateOf(x.0, x.1, t), h), t) == Value(m, e, p, t)
  {
    match e
    case Un(_, arg) => UnreadValue(m, arg, x, p, t, h);
    case Bin(_, l, r) =>
      UnreadValue(m, l, x, p, t, h);
      UnreadValue(m, r, x, p, t, h);
    case _ =>
  }

  lemma UnreadAlong(m: Functions, e: Expr, x: DerivId, p: Path, t: int)
    requires x !in NonNull(e) && (x.0.kind == Parameter ==> x.1 == 0) && Slope(m, e, x, p, t).Some?
    requires Value(m, e, p, t).Some?
    ensures Constant(Along(m, e, x, p, t), Value(m, e, p, t).value)
  {
    hide Slope;
    forall h ensures EqualsAt(Along(m, e, x, p, t), Value(m, e, p, t).value, h) {
      UnreadValue(m, e, x, p, t, h);
    }
  }

  lemma VarSound(m: Functions, s: Symbol, lag: int, x: DerivId, p: Path, t: int)
    requires (x.0.kind == Parameter ==> x.1 == 0) && (s.kind == Parameter ==> lag == 0)
    ensures HasDerivative(Along(m, Var(s, lag), x, p, t), if x == (s, lag) then 1.0 else 0.0)
  {
    var f, d := Along(m, Var(s, lag), x, p, t), if x == (s, lag) then 1.0 else 0.0;
    var v := p(s, DateOf(s, lag, t));
    forall h ensures LineAt(f, v, d, h) {
    }
    LineRule(f, v, d);
  }

  /** The slope of an expression is the derivative of its value: moving x by h moves the value by
      Slope * h, up to a multiple of h^2. */
  lemma {:induction false} SlopeSound(m: Functions, e: Expr, x: DerivId, p: Path, t: int)
    requires CalculusLaws(m) && PowerValues(m) && (x.0.kind == Parameter ==> x.1 == 0)
    requires Slope(m, e, x, p, t).Some?
    ensures Value(m, e, p, t).Some?
    ensures HasDerivative(Along(m, e, x, p, t), Slope(m, e, x, p, t).value)
  {
    match e
    case Const(v) =>
      forall h ensures LineAt(Along(m, e, x, p, t), v, 0.0, h) {
      }
      LineRule(Along(m, e, x, p, t), v, 0.0);
    case Var(s, lag) => VarSound(m, s, lag, x, p, t);
    case Un(op, arg) =>
      SlopeSound(m, arg, x, p, t);
      AlongStart(m, arg, x, p, t);
      forall h ensures AppliesUnary(m, op, Along(m, arg, x, p, t), Along(m, e, x, p, t), h) {
      }
      UnarySound(m, op, Along(m, arg, x, p, t), Along(m, e, x, p, t), Value(m, arg, p, t).value,
                 Slope(m, arg, x, p, t).value);
    case Bin(op, l, r) =>
      SlopeSound(m, l, x, p, t);
      SlopeSound(m, r, x, p, t);
      AlongStart(m, l, x, p, t);
      AlongStart(m, r, x, p, t);
      if x !in NonNull(r) {
        UnreadAlong(m, r, x, p, t);
      }
      forall h ensures AppliesBinary(m, op, Along(m, l, x, p, t), Along(m, r, x, p, t), Along(m, e, x, p, t), h) {
      }
      BinarySound(m, op, x !in NonNull(r), Along(m, l, x, p, t), Along(m, r, x, p, t), Along(m, e, x, p, t),
                  Value(m, l, p, t).value, Value(m, r, p, t).value,
                  Slope(m, l, x, p, t).value, Slope(m, r, x, p, t).value);
  }
}
