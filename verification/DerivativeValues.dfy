/** Correctness of symbolic differentiation: the node it builds has the value of the derivative. */
module DerivativeValues {
  import opened Results
  import opened Expressions
  import opened Constructors
  import opened Calculus
  import opened Derivatives
  import opened Slopes

  /** e is defined at date t and has the value v. */
  predicate Evaluates(m: Functions, e: Expr, p: Path, t: int, v: real) {
    Value(m, e, p, t).Some? && Value(m, e, p, t).value == v
  }

  // ----- the values of built nodes

  lemma PlusEvaluates(c: Tree, a: Expr, b: Expr, p: Path, t: int, v: real, w: real)
    requires Evaluates(c.m, a, p, t, v) && Evaluates(c.m, b, p, t, w)
    ensures Evaluates(c.m, AddPlus(c, a, b), p, t, v + w)
    ensures Evaluates(c.m, AddMinus(c, a, b), p, t, v - w)
  {
    hide AddPlus, AddMinus, Drops, Closed;
    AddOperatorValue(c, Plus, a, b, p, t);
    AddOperatorValue(c, Minus, a, b, p, t);
  }

  lemma TimesEvaluates(c: Tree, a: Expr, b: Expr, p: Path, t: int, v: real, w: real, vw: real)
    requires Evaluates(c.m, a, p, t, v) && Evaluates(c.m, b, p, t, w) && vw == v * w
    ensures Evaluates(c.m, AddTimes(c, a, b), p, t, vw)
  {
    hide AddTimes, Drops, Closed;
    AddOperatorValue(c, Times, a, b, p, t);
    ProductValue(c.m, v, w, vw);
  }

  lemma ProductValue(m: Functions, v: real, w: real, vw: real)
    requires vw == v * w
    ensures BinaryValue(m, Times, v, w).Some? && BinaryValue(m, Times, v, w).value == vw
  {
  }

  lemma DivideEvaluates(c: Tree, a: Expr, b: Expr, p: Path, t: int, v: real, w: real, q: real)
    requires Evaluates(c.m, a, p, t, v) && Evaluates(c.m, b, p, t, w) && w != 0.0 && q == v / w
    ensures AddDivide(c, a, b).Ok? && Evaluates(c.m, AddDivide(c, a, b).value, p, t, q)
  {
    hide AddDivide, Drops, Closed;
    AddOperatorValue(c, Divide, a, b, p, t);
  }

  lemma FunctionEvaluates(c: Tree, op: UnaryOp, a: Expr, p: Path, t: int, v: real, w: real)
    requires Laws(c.m) && Evaluates(c.m, a, p, t, v) && UnaryValue(c.m, op, v) == Some(w)
    ensures Evaluates(c.m, Un(op, a), p, t, w)
    ensures AddFunction(c, op, a).Ok? && Evaluates(c.m, AddFunction(c, op, a).value, p, t, w)
  {
    hide AddFunction;
    AddFunctionValue(c, op, a, p, t);
  }

  lemma UMinusEvaluates(c: Tree, a: Expr, p: Path, t: int, v: real)
    requires Evaluates(c.m, a, p, t, v)
    ensures Evaluates(c.m, AddUMinus(c, a), p, t, -v)
  {
    AddUnaryOpValue(c, Uminus, a, p, t);
  }

  lemma ConstantEvaluates(m: Functions, v: real, p: Path, t: int)
    requires v >= 0.0
    ensures Evaluates(m, Const(v), p, t, v)
  {
  }

  // ----- functions

  /** darg times a node. */
  lemma TimesDerivative(c: Tree, darg: Expr, e: Expr, p: Path, t: int, d: real, w: real, z: real)
    requires Evaluates(c.m, darg, p, t, d) && Evaluates(c.m, e, p, t, w) && z == w * d
    ensures Evaluates(c.m, AddTimes(c, darg, e), p, t, z)
  {
    TimesEvaluates(c, darg, e, p, t, d, w, z);
  }

  lemma OverTimes(d: real, w: real, s: real, z: real)
    requires w != 0.0 && s == 1.0 / w && z == s * d
    ensures z == d / w
  {
  }

  /** darg over a node. */
  lemma DivideDerivative(c: Tree, darg: Expr, e: Expr, p: Path, t: int, d: real, w: real, s: real, z: real)
    requires Evaluates(c.m, darg, p, t, d) && Evaluates(c.m, e, p, t, w) && w != 0.0 && s == 1.0 / w && z == s * d
    ensures AddDivide(c, darg, e).Ok? && Evaluates(c.m, AddDivide(c, darg, e).value, p, t, z)
  {
    OverTimes(d, w, s, z);
    DivideEvaluates(c, darg, e, p, t, d, w, z);
  }

  lemma SquareEvaluates(c: Tree, a: Expr, p: Path, t: int, v: real, q: real)
    requires Evaluates(c.m, a, p, t, v) && q == v * v
    ensures Evaluates(c.m, AddSquare(c, a), p, t, q)
    ensures Evaluates(c.m, AddPlus(c, AddSquare(c, a), One), p, t, q + 1.0)
    ensures Evaluates(c.m, AddPlus(c, One, AddSquare(c, a)), p, t, 1.0 + q)
    ensures Evaluates(c.m, AddMinus(c, One, AddSquare(c, a)), p, t, 1.0 - q)
  {
    hide AddPlus, AddMinus, AddTimes;
    TimesEvaluates(c, a, a, p, t, v, v, q);
    ConstantEvaluates(c.m, 1.0, p, t);
    PlusEvaluates(c, AddSquare(c, a), One, p, t, q, 1.0);
    PlusEvaluates(c, One, AddSquare(c, a), p, t, 1.0, q);
  }

  lemma ExpDerivative(c: Tree, arg: Expr, darg: Expr, p: Path, t: int, v: real, d: real, z: real)
    requires Laws(c.m) && Evaluates(c.m, arg, p, t, v) && Evaluates(c.m, darg, p, t, d)
    requires SlopeOf(c.m, Exp, v).Some? && z == SlopeOf(c.m, Exp, v).value * d
    ensures ComposeUnary(c, Exp, arg, darg).Ok? && Evaluates(c.m, ComposeUnary(c, Exp, arg, darg).value, p, t, z)
  {
    hide AddTimes, AddFunction;
    var y := c.m.unary(Exp, v).value;
    FunctionEvaluates(c, Exp, arg, p, t, v, y);
    TimesDerivative(c, darg, Un(Exp, arg), p, t, d, y, z);
  }

  lemma SqrtDerivative(c: Tree, arg: Expr, darg: Expr, p: Path, t: int, v: real, d: real, z: real)
    requires Laws(c.m) && Evaluates(c.m, arg, p, t, v) && Evaluates(c.m, darg, p, t, d)
    requires SlopeOf(c.m, Sqrt, v).Some? && z == SlopeOf(c.m, Sqrt, v).value * d
    ensures ComposeUnary(c, Sqrt, arg, darg).Ok? && Evaluates(c.m, ComposeUnary(c, Sqrt, arg, darg).value, p, t, z)
  {
    hide AddPlus, AddDivide, AddFunction;
    var self, y := Un(Sqrt, arg), c.m.unary(Sqrt, v).value;
    FunctionEvaluates(c, Sqrt, arg, p, t, v, y);
    PlusEvaluates(c, self, self, p, t, y, y);
    DivideDerivative(c, darg, AddPlus(c, self, self), p, t, d, y + y, SlopeOf(c.m, Sqrt, v).value, z);
  }

  lemma TanDerivative(c: Tree, arg: Expr, darg: Expr, p: Path, t: int, v: real, d: real, z: real)
    requires Laws(c.m) && Evaluates(c.m, arg, p, t, v) && Evaluates(c.m, darg, p, t, d)
    requires SlopeOf(c.m, Tan, v).Some? && z == SlopeOf(c.m, Tan, v).value * d
    ensures ComposeUnary(c, Tan, arg, darg).Ok? && Evaluates(c.m, ComposeUnary(c, Tan, arg, darg).value, p, t, z)
  {
    hide AddTimes, AddPlus, AddSquare, AddFunction, Evaluates, Value, Laws;
    var y, sq := c.m.unary(Tan, v).value, AddSquare(c, Un(Tan, arg));
    var q := y * y;
    FunctionEvaluates(c, Tan, arg, p, t, v, y);
    assert SlopeOf(c.m, Tan, v).value == q + 1.0;
    assert ComposeUnary(c, Tan, arg, darg) == Ok(AddTimes(c, darg, AddPlus(c, sq, One)));
    hide SlopeOf, ComposeUnary, Evaluates, Laws;
    SquareEvaluates(c, Un(Tan, arg), p, t, y, q);
    TimesDerivative(c, darg, AddPlus(c, sq, One), p, t, d, q + 1.0, z);
  }

  lemma TanhDerivative(c: Tree, arg: Expr, darg: Expr, p: Path, t: int, v: real, d: real, z: real)
    requires Laws(c.m) && Evaluates(c.m, arg, p, t, v) && Evaluates(c.m, darg, p, t, d)
    requires SlopeOf(c.m, Tanh, v).Some? && z == SlopeOf(c.m, Tanh, v).value * d
    ensures ComposeUnary(c, Tanh, arg, darg).Ok? && Evaluates(c.m, ComposeUnary(c, Tanh, arg, darg).value, p, t, z)
  {
    hide AddTimes, AddMinus, AddSquare, AddFunction, Evaluates, Value, Laws;
    var y, sq := c.m.unary(Tanh, v).value, AddSquare(c, Un(Tanh, arg));
    var q := y * y;
    FunctionEvaluates(c, Tanh, arg, p, t, v, y);
    assert SlopeOf(c.m, Tanh, v).value == 1.0 - q;
    assert ComposeUnary(c, Tanh, arg, darg) == Ok(AddTimes(c, darg, AddMinus(c, One, sq)));
    hide SlopeOf, ComposeUnary, Evaluates, Laws;
    SquareEvaluates(c, Un(Tanh, arg), p, t, y, q);
    TimesDerivative(c, darg, AddMinus(c, One, sq), p, t, d, 1.0 - q, z);
  }

  lemma LogDerivative(c: Tree, arg: Expr, darg: Expr, p: Path, t: int, v: real, d: real, z: real)
    requires Laws(c.m) && Evaluates(c.m, arg, p, t, v) && Evaluates(c.m, darg, p, t, d)
    requires SlopeOf(c.m, Log, v).Some? && z == SlopeOf(c.m, Log, v).value * d
    ensures ComposeUnary(c, Log, arg, darg).Ok? && Evaluates(c.m, ComposeUnary(c, Log, arg, darg).value, p, t, z)
  {
    hide AddDivide;
    DivideDerivative(c, darg, arg, p, t, d, v, SlopeOf(c.m, Log, v).value, z);
  }

  lemma Log10Derivative(c: Tree, arg: Expr, darg: Expr, p: Path, t: int, v: real, d: real, z: real)
    requires Laws(c.m) && Evaluates(c.m, arg, p, t, v) && Evaluates(c.m, darg, p, t, d)
    requires SlopeOf(c.m, Log10, v).Some? && z == SlopeOf(c.m, Log10, v).value * d
    ensures ComposeUnary(c, Log10, arg, darg).Ok? && Evaluates(c.m, ComposeUnary(c, Log10, arg, darg).value, p, t, z)
  {
    hide AddTimes, AddDivide, AddFunction;
    var e, s := c.m.unary(Exp, 1.0).value, 1.0 / v;
    var l := c.m.unary(Log10, e).value;
    ConstantEvaluates(c.m, 1.0, p, t);
    FunctionEvaluates(c, Exp, One, p, t, 1.0, e);
    FunctionEvaluates(c, Log10, AddFunction(c, Exp, One).value, p, t, e, l);
    DivideDerivative(c, darg, arg, p, t, d, v, s, s * d);
    assert l * (s * d) == (l * s) * d;
    TimesEvaluates(c, AddFunction(c, Log10, AddFunction(c, Exp, One).value).value, AddDivide(c, darg, arg).value, p, t,
                   l, s * d, z);
  }

  lemma AtanDerivative(c: Tree, arg: Expr, darg: Expr, p: Path, t: int, v: real, d: real, z: real)
    requires Laws(c.m) && Evaluates(c.m, arg, p, t, v) && Evaluates(c.m, darg, p, t, d)
    requires SlopeOf(c.m, Atan, v).Some? && z == SlopeOf(c.m, Atan, v).value * d
    ensures ComposeUnary(c, Atan, arg, darg).Ok? && Evaluates(c.m, ComposeUnary(c, Atan, arg, darg).value, p, t, z)
  {
    hide AddTimes, AddPlus, AddDivide, AddSquare, Evaluates, Value, Laws;
    var q := v * v;
    SquareEvaluates(c, arg, p, t, v, q);
    DivideDerivative(c, darg, AddPlus(c, One, AddSquare(c, arg)), p, t, d, 1.0 + q, SlopeOf(c.m, Atan, v).value, z);
  }

  /** Functions whose derivative is another function of the argument. */
  lemma CircularDerivative(c: Tree, op: UnaryOp, arg: Expr, darg: Expr, p: Path, t: int, v: real, d: real, z: real)
    requires Laws(c.m) && Evaluates(c.m, arg, p, t, v) && Evaluates(c.m, darg, p, t, d)
    requires op in {Cos, Sin, Cosh, Sinh} && SlopeOf(c.m, op, v).Some? && z == SlopeOf(c.m, op, v).value * d
    ensures ComposeUnary(c, op, arg, darg).Ok? && Evaluates(c.m, ComposeUnary(c, op, arg, darg).value, p, t, z)
  {
    hide AddTimes, AddUMinus, AddFunction;
    var other := if op == Cos then Sin else if op == Sin then Cos else if op == Cosh then Sinh else Cosh;
    var w := c.m.unary(other, v).value;
    FunctionEvaluates(c, other, arg, p, t, v, w);
    var t11 := AddFunction(c, other, arg).value;
    if op == Cos {
      UMinusEvaluates(c, t11, p, t, w);
      TimesDerivative(c, darg, AddUMinus(c, t11), p, t, d, -w, z);
    } else {
      TimesDerivative(c, darg, t11, p, t, d, w, z);
    }
  }

  /** The inverse functions: the derivative divides by a function of the node itself. */
  lemma InverseDerivative(c: Tree, other: UnaryOp, self: Expr, darg: Expr, p: Path, t: int,
                          d: real, y: real, w: real, s: real, z: real)
    requires Laws(c.m) && Evaluates(c.m, self, p, t, y) && Evaluates(c.m, darg, p, t, d)
    requires UnaryValue(c.m, other, y) == Some(w) && w != 0.0 && s == 1.0 / w && z == s * d
    ensures AddFunction(c, other, self).Ok? && AddDivide(c, darg, AddFunction(c, other, self).value).Ok?
    ensures Evaluates(c.m, AddDivide(c, darg, AddFunction(c, other, self).value).value, p, t, z)
  {
    hide Evaluates, AddDivide, AddFunction;
    FunctionEvaluates(c, other, self, p, t, y, w);
    DivideDerivative(c, darg, AddFunction(c, other, self).value, p, t, d, w, s, z);
  }

  lemma ArcDerivative(c: Tree, op: UnaryOp, arg: Expr, darg: Expr, p: Path, t: int, v: real, d: real, z: real)
    requires Laws(c.m) && Evaluates(c.m, arg, p, t, v) && Evaluates(c.m, darg, p, t, d)
    requires op in {Acos, Asin, Acosh, Asinh} && SlopeOf(c.m, op, v).Some? && z == SlopeOf(c.m, op, v).value * d
    ensures ComposeUnary(c, op, arg, darg).Ok? && Evaluates(c.m, ComposeUnary(c, op, arg, darg).value, p, t, z)
  {
    hide AddDivide, AddFunction, AddUMinus;
    var other := if op == Acos then Sin else if op == Asin then Cos else if op == Acosh then Sinh else Cosh;
    var self, y, s := Un(op, arg), c.m.unary(op, v).value, SlopeOf(c.m, op, v).value;
    var w := c.m.unary(other, y).value;
    FunctionEvaluates(c, op, arg, p, t, v, y);
    if op == Acos {
      NegatedProduct(s, d, z);
      InverseDerivative(c, other, self, darg, p, t, d, y, w, -s, -z);
      UMinusEvaluates(c, AddDivide(c, darg, AddFunction(c, other, self).value).value, p, t, -z);
    } else {
      InverseDerivative(c, other, self, darg, p, t, d, y, w, s, z);
    }
  }

  lemma NegatedProduct(a: real, d: real, z: real)
    requires z == a * d
    ensures (-a) * d == -z
  {
  }

  /** atanh: the node multiplies by 1 - v^2 where the derivative divides, so that its value is the
      derivative exactly where the derivative is 0 or (1 - v^2)^2 = 1. */
  lemma AtanhDerivative(c: Tree, arg: Expr, darg: Expr, p: Path, t: int, v: real, d: real, w: real, r: real)
    requires Evaluates(c.m, arg, p, t, v) && Evaluates(c.m, darg, p, t, d)
    requires w == 1.0 - v * v && w != 0.0 && r == 1.0 / w
    ensures SlopeOf(c.m, Atanh, v).Some? && SlopeOf(c.m, Atanh, v).value == r
    ensures ComposeUnary(c, Atanh, arg, darg).Ok?
    ensures Evaluates(c.m, ComposeUnary(c, Atanh, arg, darg).value, p, t, r * d) <==> d == 0.0 || w * w == 1.0
  {
    hide ComposeUnary;
    assert r * w == 1.0;
    AtanhNode(c, arg, darg, p, t, v, d, w, w * d);
    TimesOrOver(d, w, r);
  }

  lemma AtanhNode(c: Tree, arg: Expr, darg: Expr, p: Path, t: int, v: real, d: real, w: real, z: real)
    requires Evaluates(c.m, arg, p, t, v) && Evaluates(c.m, darg, p, t, d) && w == 1.0 - v * v && z == w * d
    ensures ComposeUnary(c, Atanh, arg, darg).Ok?
    ensures Evaluates(c.m, ComposeUnary(c, Atanh, arg, darg).value, p, t, z)
  {
    hide AddTimes, AddPlus, AddMinus;
    SquareEvaluates(c, arg, p, t, v, v * v);
    TimesDerivative(c, darg, AddMinus(c, One, AddSquare(c, arg)), p, t, d, w, z);
  }

  /** r is the inverse of w. */
  lemma TimesOrOver(d: real, w: real, r: real)
    requires r * w == 1.0
    ensures w * d == r * d <==> d == 0.0 || w * w == 1.0
  {
    if w * d == r * d {
      assert (w * d) * w == (r * d) * w;
      assert (r * d) * w == d * (r * w);
      assert d * (w * w - 1.0) == 0.0;
    }
    if w * w == 1.0 {
      assert (r * w) * w == r * (w * w);
    }
  }

  /** abs: also where the argument is 0, where the node has the value 0. */
  lemma AbsDerivative(c: Tree, arg: Expr, darg: Expr, p: Path, t: int, v: real, d: real)
    requires Laws(c.m) && Evaluates(c.m, arg, p, t, v) && Evaluates(c.m, darg, p, t, d)
    ensures ComposeUnary(c, Abs, arg, darg).Ok?
    ensures Evaluates(c.m, ComposeUnary(c, Abs, arg, darg).value, p, t,
                      if v > 0.0 then d else if v < 0.0 then -d else 0.0)
  {
    hide AddTimes, AddFunction;
    var w := if v > 0.0 then 1.0 else if v < 0.0 then -1.0 else 0.0;
    FunctionEvaluates(c, Sign, arg, p, t, v, w);
    TimesEvaluates(c, AddFunction(c, Sign, arg).value, darg, p, t, w, d,
                   if v > 0.0 then d else if v < 0.0 then -d else 0.0);
  }

  lemma ErfDerivative(c: Tree, arg: Expr, darg: Expr, p: Path, t: int, v: real, d: real, z: real)
    requires Laws(c.m) && Evaluates(c.m, arg, p, t, v) && Evaluates(c.m, darg, p, t, d)
    requires SlopeOf(c.m, Erf, v).Some? && z == SlopeOf(c.m, Erf, v).value * d
    ensures ComposeUnary(c, Erf, arg, darg).Ok? && Evaluates(c.m, ComposeUnary(c, Erf, arg, darg).value, p, t, z)
  {
    var q, w, s, y, x := ErfTerms(c.m, v);
    hide Laws, Evaluates, SlopeOf, ComposeUnary;
    ErfNode(c, arg, darg, p, t, v, d, q, w, s, y, x, z);
  }

  lemma ErfTerms(m: Functions, v: real) returns (q: real, w: real, s: real, y: real, x: real)
    requires SlopeOf(m, Erf, v).Some?
    ensures m.power(v, 2.0) == Some(q) && m.unary(Exp, q) == Some(w) && m.unary(Sqrt, PI.v) == Some(s)
    ensures y == s * w && y != 0.0 && x == 2.0 / y && SlopeOf(m, Erf, v).value == x
  {
    q, s := m.power(v, 2.0).value, m.unary(Sqrt, PI.v).value;
    w := m.unary(Exp, q).value;
    y := s * w;
    x := 2.0 / y;
  }

  /** The node of erf: the derivative of the argument times 2 over s w, with w = exp(v^2) and s the root of the decimal pi. */
  lemma ErfNode(c: Tree, arg: Expr, darg: Expr, p: Path, t: int, v: real, d: real, q: real, w: real, s: real,
                y: real, x: real, z: real)
    requires Laws(c.m) && Evaluates(c.m, arg, p, t, v) && Evaluates(c.m, darg, p, t, d)
    requires c.m.power(v, 2.0) == Some(q) && c.m.unary(Exp, q) == Some(w) && c.m.unary(Sqrt, PI.v) == Some(s)
    requires y == s * w && y != 0.0 && x == 2.0 / y && z == x * d
    ensures ComposeUnary(c, Erf, arg, darg).Ok? && Evaluates(c.m, ComposeUnary(c, Erf, arg, darg).value, p, t, z)
    ensures z * (s * w) == 2.0 * d
  {
    hide AddTimes, AddDivide, AddFunction, AddPower;
    ConstantEvaluates(c.m, 2.0, p, t);
    ConstantEvaluates(c.m, PI.v, p, t);
    PowerEvaluates(c, arg, Two, p, t, v, 2.0, q);
    FunctionEvaluates(c, Exp, AddPower(c, arg, Two), p, t, q, w);
    FunctionEvaluates(c, Sqrt, PI, p, t, PI.v, s);
    var t12, t11 := AddFunction(c, Exp, AddPower(c, arg, Two)).value, AddFunction(c, Sqrt, PI).value;
    hide Evaluates;
    TimesEvaluates(c, t11, t12, p, t, s, w, y);
    DivideEvaluates(c, Two, AddTimes(c, t11, t12), p, t, 2.0, y, x);
    TimesEvaluates(c, AddDivide(c, Two, AddTimes(c, t11, t12)).value, darg, p, t, x, d, z);
    QuotientProduct(x, y, d, z);
  }

  lemma QuotientProduct(x: real, y: real, d: real, z: real)
    requires y != 0.0 && x == 2.0 / y && z == x * d
    ensures z * y == 2.0 * d
  {
    assert x * y == 2.0;
    assert z * y == (x * y) * d;
  }

  lemma ElementaryDerivative(c: Tree, op: UnaryOp, arg: Expr, darg: Expr, p: Path, t: int, v: real, d: real, z: real)
    requires Laws(c.m) && Evaluates(c.m, arg, p, t, v) && Evaluates(c.m, darg, p, t, d) && op != Atanh
    requires c.m.unary(op, v).Some? && SlopeOf(c.m, op, v).Some? && z == SlopeOf(c.m, op, v).value * d
    ensures ComposeUnary(c, op, arg, darg).Ok? && Evaluates(c.m, ComposeUnary(c, op, arg, darg).value, p, t, z)
  {
    hide ComposeUnary, Evaluates;
    match op
    case Log => LogDerivative(c, arg, darg, p, t, v, d, z);
    case Log10 => Log10Derivative(c, arg, darg, p, t, v, d, z);
    case Atan => AtanDerivative(c, arg, darg, p, t, v, d, z);
    case Exp => ExpDerivative(c, arg, darg, p, t, v, d, z);
    case Sqrt => SqrtDerivative(c, arg, darg, p, t, v, d, z);
    case Tan => TanDerivative(c, arg, darg, p, t, v, d, z);
    case Tanh => TanhDerivative(c, arg, darg, p, t, v, d, z);
    case Erf => ErfDerivative(c, arg, darg, p, t, v, d, z);
    case _ =>
      if op in {Acos, Asin, Acosh, Asinh} {
        ArcDerivative(c, op, arg, darg, p, t, v, d, z);
      } else if op in {Cos, Sin, Cosh, Sinh} {
        CircularDerivative(c, op, arg, darg, p, t, v, d, z);
      }
  }

  /** The composed node of a function has the value of the slope. */
  lemma UnaryDerivative(c: Tree, op: UnaryOp, arg: Expr, darg: Expr, p: Path, t: int, v: real, d: real, z: real)
    requires Laws(c.m) && Evaluates(c.m, arg, p, t, v) && Evaluates(c.m, darg, p, t, d)
    requires UnaryValue(c.m, op, v).Some? && UnarySlope(c.m, op, v, d) == Some(z)
    ensures ComposeUnary(c, op, arg, darg).Ok? && Evaluates(c.m, ComposeUnary(c, op, arg, darg).value, p, t, z)
  {
    hide AddTimes, AddPlus, AddDivide, AddMinus, AddFunction, AddUMinus, SlopeOf, Evaluates;
    match op
    case Uminus => UMinusEvaluates(c, darg, p, t, d);
    case Abs => AbsDerivative(c, arg, darg, p, t, v, d);
    case Sign => ConstantEvaluates(c.m, 0.0, p, t);
    case Atanh =>
    case _ =>
      if SlopeOf(c.m, op, v).Some? {
        ElementaryDerivative(c, op, arg, darg, p, t, v, d, z);
      }
  }

  // ----- operators

  lemma QuotientWithoutSecond(d1: real, v1: real, v2: real)
    requires v2 != 0.0
    ensures d1 / v2 == (d1 * v2 - 0.0 * v1) / (v2 * v2)
  {
    var q, z := d1 / v2, v2 * v2;
    assert q * v2 == d1;
    assert q * z == d1 * v2;
    SquareNonZero(v2, z);
    IsQuotient(q, z, d1 * v2 - 0.0 * v1);
  }

  lemma SquareNonZero(v: real, z: real)
    requires v != 0.0 && z == v * v
    ensures z != 0.0
  {
    var r := 1.0 / v;
    assert r * v == 1.0;
    assert (r * r) * (v * v) == (r * v) * (r * v);
    FactorOfOne(r * r, z);
  }

  lemma FactorOfOne(x: real, z: real)
    requires x * z == 1.0
    ensures z != 0.0
  {
  }

  lemma IsQuotient(q: real, z: real, x: real)
    requires z != 0.0 && q * z == x
    ensures q == x / z
  {
  }

  lemma DivideOpDerivative(c: Tree, l: Expr, r: Expr, dl: Expr, dr: Expr, p: Path, t: int,
                           v1: real, v2: real, d1: real, d2: real, z: real)
    requires Evaluates(c.m, l, p, t, v1) && Evaluates(c.m, r, p, t, v2) && v2 != 0.0
    requires Evaluates(c.m, dl, p, t, d1) && Evaluates(c.m, dr, p, t, d2)
    requires z == (d1 * v2 - d2 * v1) / (v2 * v2)
    ensures ComposeBinary(c, Divide, l, r, dl, dr).Ok?
    ensures Evaluates(c.m, ComposeBinary(c, Divide, l, r, dl, dr).value, p, t, z)
  {
    hide AddTimes, AddPlus, AddDivide, AddMinus, AddSquare;
    if dr == Zero {
      QuotientWithoutSecond(d1, v1, v2);
      DivideEvaluates(c, dl, r, p, t, d1, v2, z);
    } else {
      var a, b, q := d1 * v2, d2 * v1, v2 * v2;
      TimesEvaluates(c, dl, r, p, t, d1, v2, a);
      TimesEvaluates(c, dr, l, p, t, d2, v1, b);
      PlusEvaluates(c, AddTimes(c, dl, r), AddTimes(c, dr, l), p, t, a, b);
      SquareEvaluates(c, r, p, t, v2, q);
      SquareNonZero(v2, q);
      DivideEvaluates(c, AddMinus(c, AddTimes(c, dl, r), AddTimes(c, dr, l)), AddSquare(c, r), p, t,
                      a - b, q, z);
    }
  }

  lemma PowerEvaluates(c: Tree, a: Expr, b: Expr, p: Path, t: int, v: real, w: real, y: real)
    requires PowerValues(c.m) && Evaluates(c.m, a, p, t, v) && Evaluates(c.m, b, p, t, w) && c.m.power(v, w) == Some(y)
    ensures Evaluates(c.m, AddPower(c, a, b), p, t, y) && Evaluates(c.m, Bin(Power, a, b), p, t, y)
  {
    hide AddPower;
    AddOperatorValue(c, Power, a, b, p, t);
  }

  lemma PowerDerivEvaluates(c: Tree, a: Expr, b: Expr, k: nat, p: Path, t: int, v: real, w: real, y: real, z: real)
    requires Evaluates(c.m, a, p, t, v) && Evaluates(c.m, b, p, t, w) && c.m.power(v, w - k as real) == Some(y)
    requires (v != 0.0 || k <= 1 || w >= k as real) && z == y * FallingFactor(w, k)
    ensures Evaluates(c.m, AddPowerDeriv(c, a, b, k), p, t, z)
  {
    hide AddPowerDeriv, FallingFactor, BinaryValue;
    PowerDerivOpValue(c.m, k, v, w, y, z);
    PowerDerivNodeValue(c, a, b, k, p, t, v, w);
  }

  lemma PowerDerivNodeValue(c: Tree, a: Expr, b: Expr, k: nat, p: Path, t: int, v: real, w: real)
    requires Evaluates(c.m, a, p, t, v) && Evaluates(c.m, b, p, t, w)
    ensures Value(c.m, AddPowerDeriv(c, a, b, k), p, t) == BinaryValue(c.m, PowerDeriv(k), v, w)
  {
    hide BinaryValue, AddBinaryOp;
    AddBinaryOpValue(c, PowerDeriv(k), a, b, p, t);
  }

  lemma PowerDerivOpValue(m: Functions, k: nat, v: real, w: real, y: real, z: real)
    requires m.power(v, w - k as real) == Some(y) && (v != 0.0 || k <= 1 || w >= k as real) && z == y * FallingFactor(w, k)
    ensures BinaryValue(m, PowerDeriv(k), v, w).Some? && BinaryValue(m, PowerDeriv(k), v, w).value == z
  {
  }

  /** log(l) dr + dl e / l */
  lemma LogSumEvaluates(c: Tree, l: Expr, dl: Expr, dr: Expr, e: Expr, p: Path, t: int,
                        v1: real, w: real, d1: real, d2: real, lg: real)
    requires Laws(c.m) && Evaluates(c.m, l, p, t, v1) && v1 > 0.0 && Evaluates(c.m, e, p, t, w)
    requires Evaluates(c.m, dl, p, t, d1) && Evaluates(c.m, dr, p, t, d2) && c.m.unary(Log, v1) == Some(lg)
    ensures AddLogDerivative(c, l, dl, dr, e).Ok?
    ensures Evaluates(c.m, AddLogDerivative(c, l, dl, dr, e).value, p, t, LogSlope(lg, v1, w, d1, d2))
  {
    hide Evaluates, AddTimes, AddPlus, AddDivide, AddFunction;
    FunctionEvaluates(c, Log, l, p, t, v1, lg);
    var t11 := AddFunction(c, Log, l).value;
    TimesEvaluates(c, dr, t11, p, t, d2, lg, d2 * lg);
    TimesEvaluates(c, dl, e, p, t, d1, w, d1 * w);
    DivideEvaluates(c, AddTimes(c, dl, e), l, p, t, d1 * w, v1, (d1 * w) / v1);
    PlusEvaluates(c, AddTimes(c, dr, t11), AddDivide(c, AddTimes(c, dl, e), l).value, p, t, d2 * lg, (d1 * w) / v1);
  }

  lemma SameSlope(v1: real, v2: real, d1: real, lg: real, w: real, w': real)
    requires v1 != 0.0 && w == w' * v1
    ensures LogSlope(lg, v1, v2, d1, 0.0) * w == d1 * (v2 * w')
  {
    var q := (d1 * v2) / v1;
    assert q * v1 == d1 * v2;
    assert q * (w' * v1) == (q * v1) * w';
  }

  /** The slope of a power whose exponent has derivative 0. */
  lemma PowerSlopeForm(m: Functions, constant: bool, v1: real, v2: real, d1: real)
    requires CalculusLaws(m) && m.power(v1, v2).Some? && BinarySlope(m, Power, constant, v1, v2, d1, 0.0).Some?
    ensures m.power(v1, v2 - 1.0).Some?
    ensures BinarySlope(m, Power, constant, v1, v2, d1, 0.0).value == d1 * (v2 * m.power(v1, v2 - 1.0).value)
  {
    assert PowerLaw(m, v1, v2);
    if v1 > 0.0 {
      SameSlope(v1, v2, d1, m.unary(Log, v1).value, m.power(v1, v2).value, m.power(v1, v2 - 1.0).value);
    }
  }

  lemma FirstPowerDeriv(c: Tree, l: Expr, r: Expr, p: Path, t: int, v1: real, v2: real, w: real)
    requires Evaluates(c.m, l, p, t, v1) && Evaluates(c.m, r, p, t, v2) && c.m.power(v1, v2 - 1.0) == Some(w)
    ensures Evaluates(c.m, AddPowerDeriv(c, l, r, 1), p, t, v2 * w)
  {
    hide AddPowerDeriv;
    assert FallingFactor(v2, 1) == v2 * FallingFactor(v2 - 1.0, 0);
    PowerDerivEvaluates(c, l, r, 1, p, t, v1, v2, w, v2 * w);
  }

  lemma ConstantExponent(c: Tree, l: Expr, r: Expr, p: Path, t: int, v1: real, v2: real, w: real)
    requires PowerValues(c.m) && Evaluates(c.m, l, p, t, v1) && Evaluates(c.m, r, p, t, v2)
    requires c.m.power(v1, v2 - 1.0) == Some(w)
    ensures Evaluates(c.m, AddTimes(c, r, AddPower(c, l, AddMinus(c, r, One))), p, t, v2 * w)
  {
    hide Evaluates, AddTimes, AddPower, AddMinus;
    ConstantEvaluates(c.m, 1.0, p, t);
    PlusEvaluates(c, r, One, p, t, v2, 1.0);
    var t12 := AddPower(c, l, AddMinus(c, r, One));
    PowerEvaluates(c, l, AddMinus(c, r, One), p, t, v1, v2 - 1.0, w);
    TimesEvaluates(c, r, t12, p, t, v2, w, v2 * w);
  }

  lemma ZeroEvaluates(m: Functions, p: Path, t: int, d: real)
    requires Evaluates(m, Zero, p, t, d)
    ensures d == 0.0
  {
  }

  lemma PowerOpDerivative(c: Tree, constant: bool, l: Expr, r: Expr, dl: Expr, dr: Expr, p: Path, t: int,
                          v1: real, v2: real, d1: real, d2: real)
    requires Laws(c.m) && CalculusLaws(c.m) && Evaluates(c.m, l, p, t, v1) && Evaluates(c.m, r, p, t, v2)
    requires Evaluates(c.m, dl, p, t, d1) && Evaluates(c.m, dr, p, t, d2) && (constant ==> dr == Zero)
    requires c.m.power(v1, v2).Some? && BinarySlope(c.m, Power, constant, v1, v2, d1, d2).Some?
    ensures ComposePower(c, l, r, dl, dr).Ok?
    ensures Evaluates(c.m, ComposePower(c, l, r, dl, dr).value, p, t,
                      BinarySlope(c.m, Power, constant, v1, v2, d1, d2).value)
  {
    hide ComposePower, BinarySlope, Evaluates, CalculusLaws;
    if dr == Zero {
      ZeroEvaluates(c.m, p, t, d2);
      PowerSlopeForm(c.m, constant, v1, v2, d1);
      PowerBaseDerivative(c, l, r, dl, p, t, v1, v2, d1, c.m.power(v1, v2 - 1.0).value,
                          BinarySlope(c.m, Power, constant, v1, v2, d1, 0.0).value);
    } else {
      OpenPowerSlope(c.m, v1, v2, d1, d2);
      PowerLogDerivative(c, l, r, dl, dr, p, t, v1, v2, d1, d2, BinarySlope(c.m, Power, false, v1, v2, d1, d2).value);
    }
  }

  /** A power whose exponent has the derivative Zero. */
  lemma PowerBaseDerivative(c: Tree, l: Expr, r: Expr, dl: Expr, p: Path, t: int, v1: real, v2: real, d1: real, w: real,
                            z: real)
    requires PowerValues(c.m) && Evaluates(c.m, l, p, t, v1) && Evaluates(c.m, r, p, t, v2)
    requires Evaluates(c.m, dl, p, t, d1) && c.m.power(v1, v2 - 1.0) == Some(w) && z == d1 * (v2 * w)
    ensures ComposePower(c, l, r, dl, Zero).Ok?
    ensures Evaluates(c.m, ComposePower(c, l, r, dl, Zero).value, p, t, z)
  {
    hide AddTimes, AddMinus, AddPower, AddPowerDeriv, AddLogDerivative;
    if dl == Zero {
      ConstantEvaluates(c.m, 0.0, p, t);
    } else if r.Const? {
      ConstantExponent(c, l, r, p, t, v1, v2, w);
      TimesEvaluates(c, dl, AddTimes(c, r, AddPower(c, l, AddMinus(c, r, One))), p, t, d1, v2 * w, z);
    } else {
      FirstPowerDeriv(c, l, r, p, t, v1, v2, w);
      TimesEvaluates(c, dl, AddPowerDeriv(c, l, r, 1), p, t, d1, v2 * w, z);
    }
  }

  lemma OpenPowerSlope(m: Functions, v1: real, v2: real, d1: real, d2: real)
    requires BinarySlope(m, Power, false, v1, v2, d1, d2).Some?
    ensures v1 > 0.0 && m.unary(Log, v1).Some? && m.power(v1, v2).Some?
    ensures BinarySlope(m, Power, false, v1, v2, d1, d2).value
            == LogSlope(m.unary(Log, v1).value, v1, v2, d1, d2) * m.power(v1, v2).value
  {
    hide LogSlope;
  }

  lemma PowerLogDerivative(c: Tree, l: Expr, r: Expr, dl: Expr, dr: Expr, p: Path, t: int,
                           v1: real, v2: real, d1: real, d2: real, z: real)
    requires Laws(c.m) && Evaluates(c.m, l, p, t, v1) && Evaluates(c.m, r, p, t, v2) && v1 > 0.0
    requires Evaluates(c.m, dl, p, t, d1) && Evaluates(c.m, dr, p, t, d2) && dr != Zero
    requires c.m.unary(Log, v1).Some? && c.m.power(v1, v2).Some?
    requires z == LogSlope(c.m.unary(Log, v1).value, v1, v2, d1, d2) * c.m.power(v1, v2).value
    ensures ComposePower(c, l, r, dl, dr).Ok? && Evaluates(c.m, ComposePower(c, l, r, dl, dr).value, p, t, z)
  {
    hide AddTimes, AddPlus, AddDivide, AddMinus, AddPower, AddLogDerivative, LogSlope;
    var lg, w := c.m.unary(Log, v1).value, c.m.power(v1, v2).value;
    var s := LogSlope(lg, v1, v2, d1, d2);
    LogSumEvaluates(c, l, dl, dr, r, p, t, v1, v2, d1, d2, lg);
    PowerEvaluates(c, l, r, p, t, v1, v2, w);
    TimesEvaluates(c, AddLogDerivative(c, l, dl, dr, r).value, Bin(Power, l, r), p, t, s, w, z);
  }

  lemma OffsetEvaluates(c: Tree, r: Expr, k: nat, p: Path, t: int, v: real)
    requires Evaluates(c.m, r, p, t, v)
    ensures Evaluates(c.m, AddOffset(c, r, k), p, t, v - k as real)
  {
    hide AddMinus;
    ConstantEvaluates(c.m, k as real, p, t);
    PlusEvaluates(c, r, Const(k as real), p, t, v, k as real);
  }

  lemma Associate(u: real, a: real, b: real, z: real)
    requires z == u * (a * b)
    ensures z == (u * a) * b
  {
  }

  /** The product built by the loop over the factors v - i. */
  lemma {:induction false} FactorsEvaluate(c: Tree, start: Expr, r: Expr, n: nat, skip: Option<nat>, i: nat,
                                           p: Path, t: int, u: real, v: real, z: real)
    requires Evaluates(c.m, start, p, t, u) && Evaluates(c.m, r, p, t, v)
    requires (if skip.Some? then i == skip.value else i >= n) && z == u * FactorsWithout(v, n, i)
    ensures Evaluates(c.m, AddFactors(c, start, r, n, skip), p, t, z)
  {
    hide AddTimes, AddOffset, Value, Evaluates;
    if n > 0 {
      var a, b := FactorsWithout(v, n - 1, i), v - (n - 1) as real;
      FactorsEvaluate(c, start, r, n - 1, skip, i, p, t, u, v, u * a);
      if i != n - 1 {
        Associate(u, a, b, z);
        OffsetEvaluates(c, r, n - 1, p, t, v);
        TimesEvaluates(c, AddFactors(c, start, r, n - 1, skip), AddOffset(c, r, n - 1), p, t, u * a, b, z);
      } else {
        assert z == u * a;
      }
    } else {
      assert FactorsWithout(v, n, i) == 1.0;
    }
  }

  lemma {:induction false} FactorSumEvaluates(c: Tree, r: Expr, k: nat, n: nat, p: Path, t: int, v: real)
    requires Evaluates(c.m, r, p, t, v)
    ensures Evaluates(c.m, AddFactorSum(c, r, k, n), p, t, FactorSum(v, k, n))
  {
    hide AddPlus, AddFactors;
    if n > 0 {
      FactorSumEvaluates(c, r, k, n - 1, p, t, v);
      ConstantEvaluates(c.m, 1.0, p, t);
      FactorsEvaluate(c, One, r, k, Some(n - 1), n - 1, p, t, 1.0, v, FactorsWithout(v, k, n - 1));
      PlusEvaluates(c, AddFactorSum(c, r, k, n - 1), AddFactors(c, One, r, k, Some(n - 1)), p, t,
                    FactorSum(v, k, n - 1), FactorsWithout(v, k, n - 1));
    }
  }

  /** The slope of a power derivative whose exponent has derivative 0. */
  lemma PowerDerivSlopeForm(lg: real, v1: real, v2: real, y: real, d1: real, w: real, w': real, f: real, s: real,
                            z: real, first: real, second: real)
    requires v1 != 0.0 && w == w' * v1 && z == f * y
    requires first == (w * LogSlope(lg, v1, y, d1, 0.0)) * f && second == w * (0.0 * s)
    ensures first + second == d1 * (w' * z)
  {
    hide LogSlope;
    SameSlope(v1, y, d1, lg, w, w');
    var a := LogSlope(lg, v1, y, d1, 0.0);
    assert w * a == d1 * (y * w');
    assert (d1 * (y * w')) * f == d1 * (w' * (f * y));
  }

  lemma PowerDerivOpDerivative(c: Tree, k: nat, l: Expr, r: Expr, dl: Expr, dr: Expr, p: Path, t: int,
                               v1: real, v2: real, d1: real, d2: real, lg: real, w: real, first: real, second: real)
    requires Laws(c.m) && CalculusLaws(c.m) && Evaluates(c.m, l, p, t, v1) && Evaluates(c.m, r, p, t, v2) && v1 > 0.0
    requires Evaluates(c.m, dl, p, t, d1) && Evaluates(c.m, dr, p, t, d2)
    requires c.m.unary(Log, v1) == Some(lg) && c.m.power(v1, v2 - k as real) == Some(w)
    requires first == (w * LogSlope(lg, v1, v2 - k as real, d1, d2)) * FallingFactor(v2, k)
    requires second == w * (d2 * FactorSum(v2, k, k))
    ensures ComposePowerDeriv(c, k, l, r, dl, dr).Ok?
    ensures Evaluates(c.m, ComposePowerDeriv(c, k, l, r, dl, dr).value, p, t, first + second)
  {
    hide AddTimes, AddPlus, AddPower, AddPowerDeriv, AddLogDerivative, AddFactors, AddFactorSum, AddOffset;
    hide LogSlope, FallingFactor, FactorSum, FactorsWithout;
    if dr == Zero {
      NextPowerDeriv(c, k, l, r, dl, p, t, v1, v2, d1, lg, w, first, second);
    } else {
      var y := v2 - k as real;
      var s := LogSlope(lg, v1, y, d1, d2);
      var t12 := AddOffset(c, r, k);
      OffsetEvaluates(c, r, k, p, t, v2);
      LogSumEvaluates(c, l, dl, dr, t12, p, t, v1, y, d1, d2, lg);
      var f, t15 := AddPower(c, l, t12), AddLogDerivative(c, l, dl, dr, t12).value;
      PowerEvaluates(c, l, t12, p, t, v1, y, w);
      TimesEvaluates(c, f, t15, p, t, w, s, w * s);
      FactorsWithoutNone(v2, k, k);
      FactorsEvaluate(c, AddTimes(c, f, t15), r, k, None, k, p, t, w * s, v2, first);
      FactorSumEvaluates(c, r, k, k, p, t, v2);
      var sum := FactorSum(v2, k, k);
      TimesEvaluates(c, dr, AddFactorSum(c, r, k, k), p, t, d2, sum, d2 * sum);
      TimesEvaluates(c, f, AddTimes(c, dr, AddFactorSum(c, r, k, k)), p, t, w, d2 * sum, second);
      PlusEvaluates(c, AddFactors(c, AddTimes(c, f, t15), r, k, None),
                    AddTimes(c, f, AddTimes(c, dr, AddFactorSum(c, r, k, k))), p, t, first, second);
    }
  }

  lemma LowerPower(m: Functions, k: nat, v1: real, v2: real, w: real) returns (w': real)
    requires CalculusLaws(m) && v1 > 0.0 && m.power(v1, v2 - k as real) == Some(w)
    ensures m.power(v1, v2 - (k + 1) as real) == Some(w') && w == w' * v1
  {
    var y := v2 - k as real;
    assert PowerLaw(m, v1, y);
    assert y - 1.0 == v2 - (k + 1) as real;
    w' := m.power(v1, y - 1.0).value;
  }

  lemma NextPowerDeriv(c: Tree, k: nat, l: Expr, r: Expr, dl: Expr, p: Path, t: int,
                       v1: real, v2: real, d1: real, lg: real, w: real, first: real, second: real)
    requires CalculusLaws(c.m) && Evaluates(c.m, l, p, t, v1) && Evaluates(c.m, r, p, t, v2) && v1 > 0.0
    requires Evaluates(c.m, dl, p, t, d1) && c.m.power(v1, v2 - k as real) == Some(w)
    requires first == (w * LogSlope(lg, v1, v2 - k as real, d1, 0.0)) * FallingFactor(v2, k)
    requires second == w * (0.0 * FactorSum(v2, k, k))
    ensures Evaluates(c.m, AddTimes(c, dl, AddPowerDeriv(c, l, r, k + 1)), p, t, first + second)
  {
    hide AddTimes, AddPowerDeriv, LogSlope, FallingFactor, FactorSum;
    var y, f, z := v2 - k as real, FallingFactor(v2, k), FallingFactor(v2, k + 1);
    var w' := LowerPower(c.m, k, v1, v2, w);
    hide CalculusLaws, Evaluates;
    FallingLast(v2, k);
    PowerDerivEvaluates(c, l, r, k + 1, p, t, v1, v2, w', w' * z);
    PowerDerivSlopeForm(lg, v1, v2, y, d1, w, w', f, FactorSum(v2, k, k), z, first, second);
    TimesEvaluates(c, dl, AddPowerDeriv(c, l, r, k + 1), p, t, d1, w' * z, first + second);
  }

  /** max and min: the indicator selects the derivative. */
  lemma ChoiceDerivative(c: Tree, test: Expr, dl: Expr, dr: Expr, p: Path, t: int, b: bool, d1: real, d2: real)
    requires Evaluates(c.m, test, p, t, if b then 1.0 else 0.0)
    requires Evaluates(c.m, dl, p, t, d1) && Evaluates(c.m, dr, p, t, d2)
    ensures Evaluates(c.m, AddChoice(c, test, dl, dr), p, t, if b then d1 else d2)
  {
    hide AddTimes, AddPlus, AddMinus;
    var i := if b then 1.0 else 0.0;
    ConstantEvaluates(c.m, 1.0, p, t);
    PlusEvaluates(c, One, test, p, t, 1.0, i);
    TimesEvaluates(c, test, dl, p, t, i, d1, if b then d1 else 0.0);
    TimesEvaluates(c, AddMinus(c, One, test), dr, p, t, 1.0 - i, d2, if b then 0.0 else d2);
    PlusEvaluates(c, AddTimes(c, AddMinus(c, One, test), dr), AddTimes(c, test, dl), p, t,
                  if b then 0.0 else d2, if b then d1 else 0.0);
  }

  /** The larger and the smaller of two values, and of equal values the second one, gives its derivative. */
  lemma ExtremumDerivative(c: Tree, op: BinaryOp, l: Expr, r: Expr, dl: Expr, dr: Expr, p: Path, t: int,
                           v1: real, v2: real, d1: real, d2: real)
    requires op == Max || op == Min
    requires Evaluates(c.m, l, p, t, v1) && Evaluates(c.m, r, p, t, v2)
    requires Evaluates(c.m, dl, p, t, d1) && Evaluates(c.m, dr, p, t, d2)
    ensures ComposeBinary(c, op, l, r, dl, dr).Ok?
    ensures Evaluates(c.m, ComposeBinary(c, op, l, r, dl, dr).value, p, t,
                      if (if op == Max then v1 > v2 else v2 > v1) then d1 else d2)
  {
    hide AddChoice, AddBinaryOp;
    AddBinaryOpValue(c, Greater, l, r, p, t);
    AddBinaryOpValue(c, Greater, r, l, p, t);
    var test := if op == Max then AddBinaryOp(c, Greater, l, r) else AddBinaryOp(c, Greater, r, l);
    ChoiceDerivative(c, test, dl, dr, p, t, if op == Max then v1 > v2 else v2 > v1, d1, d2);
  }

  lemma TimesOpDerivative(c: Tree, l: Expr, r: Expr, dl: Expr, dr: Expr, p: Path, t: int,
                          v1: real, v2: real, d1: real, d2: real)
    requires Evaluates(c.m, l, p, t, v1) && Evaluates(c.m, r, p, t, v2)
    requires Evaluates(c.m, dl, p, t, d1) && Evaluates(c.m, dr, p, t, d2)
    ensures Evaluates(c.m, AddPlus(c, AddTimes(c, dl, r), AddTimes(c, dr, l)), p, t, d1 * v2 + d2 * v1)
  {
    hide Evaluates, AddTimes, AddPlus;
    TimesEvaluates(c, dl, r, p, t, d1, v2, d1 * v2);
    TimesEvaluates(c, dr, l, p, t, d2, v1, d2 * v1);
    PlusEvaluates(c, AddTimes(c, dl, r), AddTimes(c, dr, l), p, t, d1 * v2, d2 * v1);
  }

  /** The composed node of an operator has the value of the slope. */
  lemma BinaryDerivative(c: Tree, op: BinaryOp, constant: bool, l: Expr, r: Expr, dl: Expr, dr: Expr, p: Path, t: int,
                         v1: real, v2: real, d1: real, d2: real)
    requires Laws(c.m) && CalculusLaws(c.m) && Evaluates(c.m, l, p, t, v1) && Evaluates(c.m, r, p, t, v2)
    requires Evaluates(c.m, dl, p, t, d1) && Evaluates(c.m, dr, p, t, d2) && (constant ==> dr == Zero)
    requires BinaryValue(c.m, op, v1, v2).Some? && BinarySlope(c.m, op, constant, v1, v2, d1, d2).Some?
    ensures ComposeBinary(c, op, l, r, dl, dr).Ok?
    ensures Evaluates(c.m, ComposeBinary(c, op, l, r, dl, dr).value, p, t,
                      BinarySlope(c.m, op, constant, v1, v2, d1, d2).value)
  {
    if op == Power {
      hide ComposePower, BinarySlope;
      PowerOpDerivative(c, constant, l, r, dl, dr, p, t, v1, v2, d1, d2);
    } else if op.PowerDeriv? {
      PowerDerivBinary(c, op.order, constant, l, r, dl, dr, p, t, v1, v2, d1, d2);
    } else {
      OtherDerivative(c, op, constant, l, r, dl, dr, p, t, v1, v2, d1, d2);
    }
  }

  lemma PowerDerivBinary(c: Tree, k: nat, constant: bool, l: Expr, r: Expr, dl: Expr, dr: Expr, p: Path, t: int,
                         v1: real, v2: real, d1: real, d2: real)
    requires Laws(c.m) && CalculusLaws(c.m) && Evaluates(c.m, l, p, t, v1) && Evaluates(c.m, r, p, t, v2)
    requires Evaluates(c.m, dl, p, t, d1) && Evaluates(c.m, dr, p, t, d2) && (constant ==> dr == Zero)
    requires BinarySlope(c.m, PowerDeriv(k), constant, v1, v2, d1, d2).Some?
    ensures ComposePowerDeriv(c, k, l, r, dl, dr).Ok?
    ensures Evaluates(c.m, ComposePowerDeriv(c, k, l, r, dl, dr).value, p, t,
                      BinarySlope(c.m, PowerDeriv(k), constant, v1, v2, d1, d2).value)
  {
    hide ComposePowerDeriv, LogSlope, FallingFactor, FactorSum, BinarySlope;
    if constant && IsInteger(v2) && (v1 != 0.0 || v2 >= (k + 1) as real) {
      var w := IntegerSlopeTerms(c.m, k, v1, v2, d1, d2);
      RaisedPowerDeriv(c, k, l, r, dl, p, t, v1, v2, d1, w, BinarySlope(c.m, PowerDeriv(k), true, v1, v2, d1, d2).value);
    } else {
      var lg, w, first, second := PowerDerivSlopeTerms(c.m, k, constant, v1, v2, d1, d2);
      PowerDerivOpDerivative(c, k, l, r, dl, dr, p, t, v1, v2, d1, d2, lg, w, first, second);
    }
  }

  lemma IntegerSlopeTerms(m: Functions, k: nat, v1: real, v2: real, d1: real, d2: real) returns (w: real)
    requires IsInteger(v2) && (v1 != 0.0 || v2 >= (k + 1) as real)
    requires BinarySlope(m, PowerDeriv(k), true, v1, v2, d1, d2).Some?
    ensures m.power(v1, v2 - (k + 1) as real) == Some(w)
    ensures BinarySlope(m, PowerDeriv(k), true, v1, v2, d1, d2).value == d1 * (w * FallingFactor(v2, k + 1))
  {
    hide FallingFactor;
    w := m.power(v1, v2 - (k + 1) as real).value;
  }

  /** The derivative of order k + 1 of a power whose exponent has the derivative Zero, for a base of any sign. */
  lemma RaisedPowerDeriv(c: Tree, k: nat, l: Expr, r: Expr, dl: Expr, p: Path, t: int, v1: real, v2: real, d1: real, w: real,
                         z: real)
    requires Evaluates(c.m, l, p, t, v1) && Evaluates(c.m, r, p, t, v2) && Evaluates(c.m, dl, p, t, d1)
    requires v1 != 0.0 || v2 >= (k + 1) as real
    requires c.m.power(v1, v2 - (k + 1) as real) == Some(w) && z == d1 * (w * FallingFactor(v2, k + 1))
    ensures ComposePowerDeriv(c, k, l, r, dl, Zero).Ok?
    ensures Evaluates(c.m, ComposePowerDeriv(c, k, l, r, dl, Zero).value, p, t, z)
  {
    hide AddTimes, AddPowerDeriv, FallingFactor, Evaluates;
    var y := w * FallingFactor(v2, k + 1);
    PowerDerivEvaluates(c, l, r, k + 1, p, t, v1, v2, w, y);
    TimesEvaluates(c, dl, AddPowerDeriv(c, l, r, k + 1), p, t, d1, y, z);
  }

  lemma PowerDerivSlopeTerms(m: Functions, k: nat, constant: bool, v1: real, v2: real, d1: real, d2: real)
    returns (lg: real, w: real, first: real, second: real)
    requires BinarySlope(m, PowerDeriv(k), constant, v1, v2, d1, d2).Some?
    requires !(constant && IsInteger(v2) && (v1 != 0.0 || v2 >= (k + 1) as real))
    ensures v1 > 0.0 && m.unary(Log, v1) == Some(lg) && m.power(v1, v2 - k as real) == Some(w)
    ensures first == (w * LogSlope(lg, v1, v2 - k as real, d1, d2)) * FallingFactor(v2, k)
    ensures second == w * (d2 * FactorSum(v2, k, k))
    ensures BinarySlope(m, PowerDeriv(k), constant, v1, v2, d1, d2).value == first + second
  {
    hide LogSlope, FallingFactor, FactorSum;
    lg, w := m.unary(Log, v1).value, m.power(v1, v2 - k as real).value;
    first := (w * LogSlope(lg, v1, v2 - k as real, d1, d2)) * FallingFactor(v2, k);
    second := w * (d2 * FactorSum(v2, k, k));
  }

  lemma OtherDerivative(c: Tree, op: BinaryOp, constant: bool, l: Expr, r: Expr, dl: Expr, dr: Expr, p: Path, t: int,
                        v1: real, v2: real, d1: real, d2: real)
    requires Evaluates(c.m, l, p, t, v1) && Evaluates(c.m, r, p, t, v2) && op != Power && !op.PowerDeriv?
    requires Evaluates(c.m, dl, p, t, d1) && Evaluates(c.m, dr, p, t, d2)
    requires BinarySlope(c.m, op, constant, v1, v2, d1, d2).Some?
    ensures ComposeBinary(c, op, l, r, dl, dr).Ok?
    ensures Evaluates(c.m, ComposeBinary(c, op, l, r, dl, dr).value, p, t,
                      BinarySlope(c.m, op, constant, v1, v2, d1, d2).value)
  {
    hide AddTimes, AddPlus, AddDivide, AddMinus, AddChoice, ComposePower, ComposePowerDeriv;
    match op
    case Plus => PlusEvaluates(c, dl, dr, p, t, d1, d2);
    case Minus => PlusEvaluates(c, dl, dr, p, t, d1, d2);
    case Times => TimesOpDerivative(c, l, r, dl, dr, p, t, v1, v2, d1, d2);
    case Divide =>
      DivideOpDerivative(c, l, r, dl, dr, p, t, v1, v2, d1, d2, BinarySlope(c.m, op, constant, v1, v2, d1, d2).value);
    case Max => ExtremumDerivative(c, op, l, r, dl, dr, p, t, v1, v2, d1, d2);
    case Min => ExtremumDerivative(c, op, l, r, dl, dr, p, t, v1, v2, d1, d2);
    case _ => ConstantEvaluates(c.m, 0.0, p, t);
  }

  // ----- the theorem

  /** Where an expression has a slope, differentiating it does not end the program, and the node built has
      the value of the slope. */
  lemma {:induction false} DerivativeIsSlope(c: Tree, e: Expr, x: DerivId, p: Path, t: int)
    requires Laws(c.m) && CalculusLaws(c.m) && Slope(c.m, e, x, p, t).Some?
    ensures Value(c.m, e, p, t).Some?
    ensures Derivative(c, e, x).Ok?
    ensures Evaluates(c.m, Derivative(c, e, x).value, p, t, Slope(c.m, e, x, p, t).value)
  {
    hide ComposeUnary, ComposeBinary, UnarySlope, BinarySlope;
    match e
    case Un(op, arg) =>
      DerivativeIsSlope(c, arg, x, p, t);
      UnaryDerivative(c, op, arg, Derivative(c, arg, x).value, p, t, Value(c.m, arg, p, t).value,
                      Slope(c.m, arg, x, p, t).value, Slope(c.m, e, x, p, t).value);
    case Bin(op, l, r) =>
      DerivativeIsSlope(c, l, x, p, t);
      DerivativeIsSlope(c, r, x, p, t);
      if x !in NonNull(r) {
        SparseOrExit(c, r, x);
      }
      BinaryDerivative(c, op, x !in NonNull(r), l, r, Derivative(c, l, x).value, Derivative(c, r, x).value, p, t,
                       Value(c.m, l, p, t).value, Value(c.m, r, p, t).value,
                       Slope(c.m, l, x, p, t).value, Slope(c.m, r, x, p, t).value);
    case Const(v) => ConstantEvaluates(c.m, 0.0, p, t);
    case Var(s, lag) => ConstantEvaluates(c.m, if x == (s, lag) then 1.0 else 0.0, p, t);
    case NotANumber =>
  }

  /** Correctness of symbolic differentiation: the value of the node built at a path and date is the
      derivative of the value of the expression with respect to the variable x at that date. */
  lemma DerivativeCorrect(c: Tree, e: Expr, x: DerivId, p: Path, t: int)
    requires Laws(c.m) && CalculusLaws(c.m) && (x.0.kind == Parameter ==> x.1 == 0)
    requires Slope(c.m, e, x, p, t).Some?
    ensures Derivative(c, e, x).Ok? && Value(c.m, Derivative(c, e, x).value, p, t).Some?
    ensures HasDerivative(Along(c.m, e, x, p, t), Value(c.m, Derivative(c, e, x).value, p, t).value)
  {
    DerivativeIsSlope(c, e, x, p, t);
    SlopeSound(c.m, e, x, p, t);
  }

  /** The derivative of an equation node is that of its residual, left minus right. */
  lemma EquationDerivative(c: Tree, l: Expr, r: Expr, x: DerivId, p: Path, t: int)
    requires Laws(c.m) && CalculusLaws(c.m) && (x.0.kind == Parameter ==> x.1 == 0)
    requires Slope(c.m, Bin(Minus, l, r), x, p, t).Some?
    ensures Derivative(c, Bin(Equal, l, r), x).Ok?
    ensures Value(c.m, Derivative(c, Bin(Equal, l, r), x).value, p, t).Some?
    ensures HasDerivative(Along(c.m, Bin(Minus, l, r), x, p, t),
                          Value(c.m, Derivative(c, Bin(Equal, l, r), x).value, p, t).value)
  {
    DerivativeCorrect(c, Bin(Minus, l, r), x, p, t);
    assert Derivative(c, Bin(Equal, l, r), x) == Derivative(c, Bin(Minus, l, r), x);
  }
}
