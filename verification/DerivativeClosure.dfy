/** What the constructors keep, differentiation keeps: a derivative is a node of the data tree, and reads no variable that
    the expression does not read. */
module DerivativeClosure {
  import opened Results
  import opened Expressions
  import opened Constructors
  import opened Derivatives

  /** A property of expressions that constants have, that the constructors keep, and that nodes hand down. */
  ghost predicate Kept(c: Tree, P: Expr -> bool) {
    && (forall v: real :: v >= 0.0 ==> P(Const(v))) && P(NotANumber)
    && (forall op, a :: P(a) && AddFunction(c, op, a).Ok? ==> P(AddFunction(c, op, a).value))
    && (forall op, a, b :: P(a) && P(b) && AddOperator(c, op, a, b).Ok? ==> P(AddOperator(c, op, a, b).value))
    && (forall op, a :: P(Un(op, a)) ==> P(a))
    && (forall op, a, b :: P(Bin(op, a, b)) ==> P(a) && P(b))
  }

  predicate OkHas(P: Expr -> bool, r: Outcome<Expr>) {
    r.Ok? ==> P(r.value)
  }

  // ----- the constructors

  lemma KeptFunction(c: Tree, P: Expr -> bool, op: UnaryOp, a: Expr)
    requires Kept(c, P) && P(a)
    ensures OkHas(P, AddFunction(c, op, a)) && P(AddUMinus(c, a))
  {
    assert AddFunction(c, Uminus, a) == Ok(AddUMinus(c, a));
  }

  lemma KeptOperators(c: Tree, P: Expr -> bool, a: Expr, b: Expr)
    requires Kept(c, P) && P(a) && P(b)
    ensures P(AddPlus(c, a, b)) && P(AddMinus(c, a, b)) && P(AddTimes(c, a, b)) && P(AddPower(c, a, b))
    ensures OkHas(P, AddDivide(c, a, b))
  {
    hide AddPlus, AddMinus, AddTimes, AddPower, AddDivide;
    assert AddOperator(c, Plus, a, b) == Ok(AddPlus(c, a, b));
    assert AddOperator(c, Minus, a, b) == Ok(AddMinus(c, a, b));
    assert AddOperator(c, Times, a, b) == Ok(AddTimes(c, a, b));
    assert AddOperator(c, Power, a, b) == Ok(AddPower(c, a, b));
    assert AddOperator(c, Divide, a, b) == AddDivide(c, a, b);
  }

  lemma KeptBinaryOp(c: Tree, P: Expr -> bool, op: BinaryOp, a: Expr, b: Expr)
    requires Kept(c, P) && P(a) && P(b) && (op == Greater || op.PowerDeriv?)
    ensures P(AddBinaryOp(c, op, a, b))
  {
    assert AddOperator(c, op, a, b) == Ok(AddBinaryOp(c, op, a, b));
  }

  lemma KeptConstants(c: Tree, P: Expr -> bool, i: nat)
    requires Kept(c, P)
    ensures P(Zero) && P(One) && P(Two) && P(PI) && P(AddPossiblyNegativeConstant(Some(i as real)))
  {
  }

  // ----- the rules for functions

  /** A function of an argument, multiplied by or divided into another expression. */
  lemma KeptChain(c: Tree, P: Expr -> bool, darg: Expr, op: UnaryOp, a: Expr)
    requires Kept(c, P) && P(darg) && P(a)
    ensures OkHas(P, AddFunction(c, op, a))
    ensures var f := AddFunction(c, op, a);
            f.Ok? ==> && OkHas(P, AddDivide(c, darg, f.value)) && P(AddTimes(c, darg, f.value))
                      && P(AddTimes(c, f.value, darg)) && P(AddUMinus(c, f.value))
  {
    hide AddFunction, AddDivide, AddTimes, AddUMinus;
    KeptFunction(c, P, op, a);
    var f := AddFunction(c, op, a);
    if f.Ok? {
      KeptOperators(c, P, darg, f.value);
      KeptOperators(c, P, f.value, darg);
      KeptFunction(c, P, Uminus, f.value);
    }
  }

  lemma KeptSquare(c: Tree, P: Expr -> bool, a: Expr)
    requires Kept(c, P) && P(a)
    ensures P(AddSquare(c, a)) && P(AddPlus(c, One, AddSquare(c, a)))
    ensures P(AddPlus(c, AddSquare(c, a), One)) && P(AddMinus(c, One, AddSquare(c, a)))
  {
    hide AddTimes, AddPlus, AddMinus;
    KeptConstants(c, P, 0);
    KeptOperators(c, P, a, a);
    KeptOperators(c, P, One, AddSquare(c, a));
    KeptOperators(c, P, AddSquare(c, a), One);
  }

  lemma KeptProductRules(c: Tree, P: Expr -> bool, op: UnaryOp, arg: Expr, darg: Expr)
    requires Kept(c, P) && P(Un(op, arg)) && P(darg) && op in {Exp, Tan, Tanh, Atanh, Cos, Cosh, Sin, Sinh, Abs}
    ensures OkHas(P, ComposeUnary(c, op, arg, darg))
  {
    var self := Un(op, arg);
    assert P(arg);
    KeptSquare(c, P, self);
    KeptSquare(c, P, arg);
    hide AddTimes, AddPlus, AddMinus, AddFunction, AddUMinus, AddSquare;
    KeptOperators(c, P, darg, self);
    KeptOperators(c, P, darg, AddPlus(c, AddSquare(c, self), One));
    KeptOperators(c, P, darg, AddMinus(c, One, AddSquare(c, self)));
    KeptOperators(c, P, darg, AddMinus(c, One, AddSquare(c, arg)));
    KeptChain(c, P, darg, Sin, arg);
    KeptChain(c, P, darg, Cos, arg);
    KeptChain(c, P, darg, Sinh, arg);
    KeptChain(c, P, darg, Cosh, arg);
    KeptChain(c, P, darg, Sign, arg);
    var sin := AddFunction(c, Sin, arg);
    if sin.Ok? {
      KeptOperators(c, P, darg, AddUMinus(c, sin.value));
    }
  }

  lemma KeptQuotientRules(c: Tree, P: Expr -> bool, op: UnaryOp, arg: Expr, darg: Expr)
    requires Kept(c, P) && P(Un(op, arg)) && P(darg) && op in {Log, Acos, Asin, Atan, Acosh, Asinh, Sqrt}
    ensures OkHas(P, ComposeUnary(c, op, arg, darg))
  {
    var self := Un(op, arg);
    assert P(arg);
    hide AddTimes, AddPlus, AddMinus, AddFunction, AddUMinus, AddSquare, AddDivide;
    KeptSquare(c, P, arg);
    KeptOperators(c, P, self, self);
    KeptOperators(c, P, darg, arg);
    KeptOperators(c, P, darg, AddPlus(c, self, self));
    KeptOperators(c, P, darg, AddPlus(c, One, AddSquare(c, arg)));
    KeptChain(c, P, darg, Sin, self);
    KeptChain(c, P, darg, Cos, self);
    KeptChain(c, P, darg, Sinh, self);
    KeptChain(c, P, darg, Cosh, self);
    var sin := AddFunction(c, Sin, self);
    if sin.Ok? && AddDivide(c, darg, sin.value).Ok? {
      KeptFunction(c, P, Uminus, AddDivide(c, darg, sin.value).value);
    }
  }

  lemma KeptLogRule(c: Tree, P: Expr -> bool, arg: Expr, darg: Expr)
    requires Kept(c, P) && P(arg) && P(darg)
    ensures OkHas(P, ComposeUnary(c, Log10, arg, darg))
  {
    hide AddTimes, AddFunction, AddDivide;
    KeptConstants(c, P, 0);
    KeptFunction(c, P, Exp, One);
    KeptOperators(c, P, darg, arg);
    var t11 := AddFunction(c, Exp, One);
    if t11.Ok? {
      KeptFunction(c, P, Log10, t11.value);
      var t12, t13 := AddFunction(c, Log10, t11.value), AddDivide(c, darg, arg);
      if t12.Ok? && t13.Ok? {
        KeptOperators(c, P, t12.value, t13.value);
      }
    }
  }

  lemma KeptErfRule(c: Tree, P: Expr -> bool, arg: Expr, darg: Expr)
    requires Kept(c, P) && P(arg) && P(darg)
    ensures OkHas(P, ComposeUnary(c, Erf, arg, darg))
  {
    hide AddTimes, AddFunction, AddDivide, AddPower;
    KeptConstants(c, P, 0);
    KeptOperators(c, P, arg, Two);
    KeptFunction(c, P, Exp, AddPower(c, arg, Two));
    KeptFunction(c, P, Sqrt, PI);
    var t12, t11 := AddFunction(c, Exp, AddPower(c, arg, Two)), AddFunction(c, Sqrt, PI);
    if t12.Ok? && t11.Ok? {
      KeptOperators(c, P, t11.value, t12.value);
      KeptOperators(c, P, Two, AddTimes(c, t11.value, t12.value));
      var t14 := AddDivide(c, Two, AddTimes(c, t11.value, t12.value));
      if t14.Ok? {
        KeptOperators(c, P, t14.value, darg);
      }
    }
  }

  lemma KeptUnary(c: Tree, P: Expr -> bool, op: UnaryOp, arg: Expr, darg: Expr)
    requires Kept(c, P) && P(Un(op, arg)) && P(darg)
    ensures OkHas(P, ComposeUnary(c, op, arg, darg))
  {
    assert P(arg);
    if op in {Exp, Tan, Tanh, Atanh, Cos, Cosh, Sin, Sinh, Abs} {
      KeptProductRules(c, P, op, arg, darg);
    } else if op in {Log, Acos, Asin, Atan, Acosh, Asinh, Sqrt} {
      KeptQuotientRules(c, P, op, arg, darg);
    } else if op == Log10 {
      KeptLogRule(c, P, arg, darg);
    } else if op == Erf {
      KeptErfRule(c, P, arg, darg);
    } else {
      KeptConstants(c, P, 0);
      KeptFunction(c, P, Uminus, darg);
    }
  }

  // ----- the rules for operators

  lemma KeptOffset(c: Tree, P: Expr -> bool, arg: Expr, i: nat)
    requires Kept(c, P) && P(arg)
    ensures P(AddOffset(c, arg, i))
  {
    hide AddMinus, AddPossiblyNegativeConstant;
    KeptConstants(c, P, i);
    KeptOperators(c, P, arg, AddPossiblyNegativeConstant(Some(i as real)));
  }

  lemma {:induction false} KeptFactors(c: Tree, P: Expr -> bool, start: Expr, arg: Expr, n: nat, skip: Option<nat>)
    requires Kept(c, P) && P(start) && P(arg)
    ensures P(AddFactors(c, start, arg, n, skip))
    decreases n
  {
    hide AddTimes, AddOffset, Kept;
    if n > 0 {
      KeptFactors(c, P, start, arg, n - 1, skip);
      KeptOffset(c, P, arg, n - 1);
      KeptOperators(c, P, AddFactors(c, start, arg, n - 1, skip), AddOffset(c, arg, n - 1));
    }
  }

  lemma {:induction false} KeptFactorSum(c: Tree, P: Expr -> bool, arg: Expr, k: nat, n: nat)
    requires Kept(c, P) && P(arg)
    ensures P(AddFactorSum(c, arg, k, n))
    decreases n
  {
    hide AddPlus, AddFactors, Kept;
    KeptConstants(c, P, 0);
    if n > 0 {
      KeptFactorSum(c, P, arg, k, n - 1);
      KeptFactors(c, P, One, arg, k, Some(n - 1));
      KeptOperators(c, P, AddFactorSum(c, arg, k, n - 1), AddFactors(c, One, arg, k, Some(n - 1)));
    }
  }

  lemma KeptLogDerivative(c: Tree, P: Expr -> bool, l: Expr, dl: Expr, dr: Expr, e: Expr)
    requires Kept(c, P) && P(l) && P(dl) && P(dr) && P(e)
    ensures OkHas(P, AddLogDerivative(c, l, dl, dr, e))
  {
    hide AddTimes, AddFunction, AddDivide, AddPlus, Kept;
    KeptChain(c, P, dr, Log, l);
    KeptOperators(c, P, dl, e);
    KeptOperators(c, P, AddTimes(c, dl, e), l);
    var t11, t14 := AddFunction(c, Log, l), AddDivide(c, AddTimes(c, dl, e), l);
    if t11.Ok? && t14.Ok? {
      KeptOperators(c, P, AddTimes(c, dr, t11.value), t14.value);
    }
  }

  lemma KeptPowerDeriv(c: Tree, P: Expr -> bool, k: nat, l: Expr, r: Expr, dl: Expr, dr: Expr)
    requires Kept(c, P) && P(l) && P(r) && P(dl) && P(dr)
    ensures OkHas(P, ComposePowerDeriv(c, k, l, r, dl, dr))
  {
    hide AddTimes, AddPlus, AddPower, AddFactors, AddFactorSum, AddLogDerivative, AddOffset, AddBinaryOp, Kept;
    KeptBinaryOp(c, P, PowerDeriv(k + 1), l, r);
    KeptOperators(c, P, dl, AddPowerDeriv(c, l, r, k + 1));
    KeptOffset(c, P, r, k);
    var t12 := AddOffset(c, r, k);
    KeptLogDerivative(c, P, l, dl, dr, t12);
    KeptOperators(c, P, l, t12);
    var t15, f := AddLogDerivative(c, l, dl, dr, t12), AddPower(c, l, t12);
    KeptFactorSum(c, P, r, k, k);
    KeptOperators(c, P, dr, AddFactorSum(c, r, k, k));
    var t13 := AddTimes(c, dr, AddFactorSum(c, r, k, k));
    KeptOperators(c, P, f, t13);
    if t15.Ok? {
      KeptOperators(c, P, f, t15.value);
      KeptFactors(c, P, AddTimes(c, f, t15.value), r, k, None);
      KeptOperators(c, P, AddFactors(c, AddTimes(c, f, t15.value), r, k, None), AddTimes(c, f, t13));
    }
  }

  lemma KeptPowerRule(c: Tree, P: Expr -> bool, l: Expr, r: Expr, dl: Expr, dr: Expr)
    requires Kept(c, P) && P(Bin(Power, l, r)) && P(l) && P(r) && P(dl) && P(dr)
    ensures OkHas(P, ComposePower(c, l, r, dl, dr))
  {
    hide AddTimes, AddMinus, AddPower, AddLogDerivative, AddBinaryOp, Kept;
    KeptConstants(c, P, 0);
    KeptOperators(c, P, r, One);
    KeptOperators(c, P, l, AddMinus(c, r, One));
    KeptOperators(c, P, r, AddPower(c, l, AddMinus(c, r, One)));
    KeptOperators(c, P, dl, AddTimes(c, r, AddPower(c, l, AddMinus(c, r, One))));
    KeptBinaryOp(c, P, PowerDeriv(1), l, r);
    KeptOperators(c, P, dl, AddPowerDeriv(c, l, r, 1));
    KeptLogDerivative(c, P, l, dl, dr, r);
    var t15 := AddLogDerivative(c, l, dl, dr, r);
    if t15.Ok? {
      KeptOperators(c, P, t15.value, Bin(Power, l, r));
    }
  }

  lemma KeptChoice(c: Tree, P: Expr -> bool, a: Expr, b: Expr, dl: Expr, dr: Expr)
    requires Kept(c, P) && P(a) && P(b) && P(dl) && P(dr)
    ensures P(AddChoice(c, AddBinaryOp(c, Greater, a, b), dl, dr))
  {
    hide AddTimes, AddPlus, AddMinus, AddBinaryOp, Kept;
    KeptBinaryOp(c, P, Greater, a, b);
    var test := AddBinaryOp(c, Greater, a, b);
    KeptConstants(c, P, 0);
    KeptOperators(c, P, One, test);
    KeptOperators(c, P, AddMinus(c, One, test), dr);
    KeptOperators(c, P, test, dl);
    KeptOperators(c, P, AddTimes(c, AddMinus(c, One, test), dr), AddTimes(c, test, dl));
  }

  lemma KeptProduct(c: Tree, P: Expr -> bool, l: Expr, r: Expr, dl: Expr, dr: Expr)
    requires Kept(c, P) && P(l) && P(r) && P(dl) && P(dr)
    ensures OkHas(P, ComposeBinary(c, Times, l, r, dl, dr)) && OkHas(P, ComposeBinary(c, Divide, l, r, dl, dr))
  {
    hide AddTimes, AddPlus, AddMinus, AddDivide, AddSquare, Kept;
    KeptOperators(c, P, dl, r);
    KeptOperators(c, P, dr, l);
    KeptOperators(c, P, AddTimes(c, dl, r), AddTimes(c, dr, l));
    KeptSquare(c, P, r);
    KeptOperators(c, P, AddMinus(c, AddTimes(c, dl, r), AddTimes(c, dr, l)), AddSquare(c, r));
  }

  lemma KeptBinary(c: Tree, P: Expr -> bool, op: BinaryOp, l: Expr, r: Expr, dl: Expr, dr: Expr)
    requires Kept(c, P) && P(Bin(op, l, r)) && P(dl) && P(dr)
    ensures OkHas(P, ComposeBinary(c, op, l, r, dl, dr))
  {
    assert P(l) && P(r);
    hide AddPlus, AddMinus, ComposePower, ComposePowerDeriv, AddChoice, Kept;
    KeptConstants(c, P, 0);
    KeptOperators(c, P, dl, dr);
    match op
    case Times => KeptProduct(c, P, l, r, dl, dr);
    case Divide => KeptProduct(c, P, l, r, dl, dr);
    case Power => KeptPowerRule(c, P, l, r, dl, dr);
    case PowerDeriv(k) => KeptPowerDeriv(c, P, k, l, r, dl, dr);
    case Max => KeptChoice(c, P, l, r, dl, dr);
    case Min => KeptChoice(c, P, r, l, dl, dr);
    case _ =>
  }

  /** A derivative has every property of the expression that the constructors keep. */
  lemma {:induction false} DerivativeKeeps(c: Tree, P: Expr -> bool, e: Expr, x: DerivId)
    requires Kept(c, P) && P(e)
    ensures OkHas(P, Derivative(c, e, x))
  {
    hide ComposeUnary, ComposeBinary;
    KeptConstants(c, P, 0);
    match e
    case Un(op, arg) =>
      DerivativeKeeps(c, P, arg, x);
      var darg := Derivative(c, arg, x);
      if darg.Ok? {
        KeptUnary(c, P, op, arg, darg.value);
      }
    case Bin(op, l, r) =>
      DerivativeKeeps(c, P, l, x);
      DerivativeKeeps(c, P, r, x);
      var dl, dr := Derivative(c, l, x), Derivative(c, r, x);
      if dl.Ok? && dr.Ok? {
        KeptBinary(c, P, op, l, r, dl.value, dr.value);
      }
    case _ =>
  }

  // ----- what an expression reads

  predicate ReadsOnly(e: Expr, s: set<DerivId>) {
    NonNull(e) <= s
  }

  lemma FunctionReads(c: Tree, op: UnaryOp, a: Expr, s: set<DerivId>)
    requires ReadsOnly(a, s)
    ensures AddFunction(c, op, a).Ok? ==> ReadsOnly(AddFunction(c, op, a).value, s)
  {
  }

  lemma BinaryOpReads(c: Tree, op: BinaryOp, a: Expr, b: Expr, s: set<DerivId>)
    requires ReadsOnly(a, s) && ReadsOnly(b, s)
    ensures ReadsOnly(AddBinaryOp(c, op, a, b), s)
  {
  }

  lemma OperatorReads(c: Tree, op: BinaryOp, a: Expr, b: Expr, s: set<DerivId>)
    requires ReadsOnly(a, s) && ReadsOnly(b, s)
    ensures AddOperator(c, op, a, b).Ok? ==> ReadsOnly(AddOperator(c, op, a, b).value, s)
  {
    hide AddBinaryOp;
    FunctionReads(c, Uminus, a, s);
    FunctionReads(c, Uminus, b, s);
    BinaryOpReads(c, op, a, b, s);
    BinaryOpReads(c, op, b, a, s);
    if IsUminus(b) {
      FunctionReads(c, Uminus, b.arg, s);
      BinaryOpReads(c, Minus, a, b.arg, s);
    }
  }

  lemma ReadsKept(c: Tree, s: set<DerivId>)
    ensures Kept(c, e => ReadsOnly(e, s))
  {
    hide AddFunction, AddOperator;
    var P := e => ReadsOnly(e, s);
    forall op, a | P(a) && AddFunction(c, op, a).Ok? ensures P(AddFunction(c, op, a).value) {
      FunctionReads(c, op, a, s);
    }
    forall op, a, b | P(a) && P(b) && AddOperator(c, op, a, b).Ok? ensures P(AddOperator(c, op, a, b).value) {
      OperatorReads(c, op, a, b, s);
    }
  }

  /** A derivative reads only what the expression reads. */
  lemma DerivativeReads(c: Tree, e: Expr, x: DerivId)
    ensures Derivative(c, e, x).Ok? ==> ReadsOnly(Derivative(c, e, x).value, NonNull(e))
  {
    ReadsKept(c, NonNull(e));
    DerivativeKeeps(c, d => ReadsOnly(d, NonNull(e)), e, x);
  }

  /** The derivative of an equation for a variable on its left side does not even read that variable, unless the right side
      does. */
  lemma EvaluatedDerivativeReads(c: Tree, y: Symbol, lag: int, rhs: Expr, x: DerivId)
    ensures var d := Derivative(c, Bin(Equal, Var(y, lag), rhs), x);
            d.Ok? ==> ReadsOnly(d.value, NonNull(rhs))
  {
    DerivativeReads(c, rhs, x);
    var dr := Derivative(c, rhs, x);
    if dr.Ok? {
      var dl := if x == (y, lag) then One else Zero;
      OperatorReads(c, Minus, dl, dr.value, NonNull(rhs));
      assert AddOperator(c, Minus, dl, dr.value) == Ok(AddMinus(c, dl, dr.value));
    }
  }
}
