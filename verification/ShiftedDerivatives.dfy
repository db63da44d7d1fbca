/** Derivatives of rebuilt and of shifted expressions. */
module ShiftedDerivatives {
  import opened Results
  import opened Expressions
  import opened Constructors
  import opened TimeShifts
  import opened Calculus
  import opened Derivatives
  import opened Slopes
  import opened DerivativeValues
  import DerivativeClosure

  // ----- constructors give nodes of the data tree

  lemma ConstantBuilt(c: Tree, v: Option<real>)
    ensures Built(c, AddPossiblyNegativeConstant(v))
  {
  }

  lemma FunctionBuilt(c: Tree, op: UnaryOp, a: Expr)
    requires Built(c, a)
    ensures AddFunction(c, op, a).Ok? ==> Built(c, AddFunction(c, op, a).value)
  {
    ConstantBuilt(c, Value(c.m, Un(op, a), Nowhere, 0));
  }

  lemma BinaryOpBuilt(c: Tree, op: BinaryOp, a: Expr, b: Expr)
    requires Built(c, a) && Built(c, b)
    requires AddOperator(c, op, a, b) == Ok(AddBinaryOp(c, op, a, b))
             || (Commutes(op) && AddOperator(c, op, b, a) == Ok(AddBinaryOp(c, op, a, b)))
    ensures Built(c, AddBinaryOp(c, op, a, b))
  {
    ConstantBuilt(c, Value(c.m, Bin(op, a, b), Nowhere, 0));
  }

  lemma SortedBuilt(c: Tree, op: BinaryOp, a: Expr, b: Expr)
    requires Built(c, a) && Built(c, b) && Commutes(op) && AddOperator(c, op, a, b) == Ok(AddSorted(c, op, a, b))
    ensures Built(c, AddSorted(c, op, a, b))
  {
    if c.later(a, b) {
      BinaryOpBuilt(c, op, b, a);
    } else {
      BinaryOpBuilt(c, op, a, b);
    }
  }

  lemma MinusBuilt(c: Tree, a: Expr, b: Expr)
    requires Built(c, a) && Built(c, b)
    ensures Built(c, AddMinus(c, a, b))
  {
    FunctionBuilt(c, Uminus, b);
    if AddMinus(c, a, b) == AddBinaryOp(c, Minus, a, b) {
      BinaryOpBuilt(c, Minus, a, b);
    }
  }

  /** The result of an operator constructor on nodes of the data tree is one. */
  lemma OperatorBuilt(c: Tree, op: BinaryOp, a: Expr, b: Expr)
    requires Built(c, a) && Built(c, b)
    ensures AddOperator(c, op, a, b).Ok? ==> Built(c, AddOperator(c, op, a, b).value)
  {
    match op
    case Plus =>
      if IsUminus(b) {
        MinusBuilt(c, a, b.arg);
      } else if a != Zero && b != Zero {
        SortedBuilt(c, op, a, b);
      }
    case Minus => MinusBuilt(c, a, b);
    case Times =>
      FunctionBuilt(c, Uminus, a);
      FunctionBuilt(c, Uminus, b);
      if AddTimes(c, a, b) == AddSorted(c, op, a, b) {
        SortedBuilt(c, op, a, b);
      }
    case _ =>
      if AddOperator(c, op, a, b) == Ok(AddBinaryOp(c, op, a, b)) {
        BinaryOpBuilt(c, op, a, b);
      }
  }

  lemma BuiltKept(c: Tree)
    ensures DerivativeClosure.Kept(c, e => Built(c, e))
  {
    hide AddFunction, AddOperator;
    var P := e => Built(c, e);
    forall op, a | P(a) && AddFunction(c, op, a).Ok? ensures P(AddFunction(c, op, a).value) {
      FunctionBuilt(c, op, a);
    }
    forall op, a, b | P(a) && P(b) && AddOperator(c, op, a, b).Ok? ensures P(AddOperator(c, op, a, b).value) {
      OperatorBuilt(c, op, a, b);
    }
  }

  /** The derivative of a node of the data tree is one. */
  lemma DerivativeBuilt(c: Tree, e: Expr, x: DerivId)
    requires Built(c, e)
    ensures Derivative(c, e, x).Ok? ==> Built(c, Derivative(c, e, x).value)
  {
    BuiltKept(c);
    DerivativeClosure.DerivativeKeeps(c, d => Built(c, d), e, x);
  }

  lemma {:induction false} ShiftBuilt(c: Tree, e: Expr, n: int)
    requires Built(c, e)
    ensures DecreaseLeadsLags(c, e, n).Ok? ==> Built(c, DecreaseLeadsLags(c, e, n).value)
  {
    match e
    case Un(op, arg) =>
      ShiftBuilt(c, arg, n);
      var a := DecreaseLeadsLags(c, arg, n);
      if a.Ok? {
        FunctionBuilt(c, op, a.value);
      }
    case Bin(op, l, r) =>
      ShiftBuilt(c, l, n);
      ShiftBuilt(c, r, n);
      var a, b := DecreaseLeadsLags(c, l, n), DecreaseLeadsLags(c, r, n);
      if a.Ok? && b.Ok? {
        OperatorBuilt(c, op, a.value, b.value);
      }
    case _ =>
  }

  // ----- slopes of built nodes

  lemma FunctionSlopeDefined(c: Tree, op: UnaryOp, a: Expr, x: DerivId, p: Path, t: int)
    requires Laws(c.m) && Slope(c.m, Un(op, a), x, p, t).Some?
    ensures AddFunction(c, op, a).Ok? && Slope(c.m, AddFunction(c, op, a).value, x, p, t).Some?
  {
    AddFunctionValue(c, op, a, p, t);
    if Closed(a) {
      ClosedValue(c.m, Un(op, a), p, t);
    }
  }

  lemma BinaryOpSlopeDefined(c: Tree, op: BinaryOp, a: Expr, b: Expr, x: DerivId, p: Path, t: int)
    requires Slope(c.m, Bin(op, a, b), x, p, t).Some?
    ensures Slope(c.m, AddBinaryOp(c, op, a, b), x, p, t).Some?
  {
    hide BinarySlope;
    AddBinaryOpValue(c, op, a, b, p, t);
  }

  lemma MinusSlopeDefined(c: Tree, a: Expr, b: Expr, x: DerivId, p: Path, t: int)
    requires Slope(c.m, Bin(Minus, a, b), x, p, t).Some?
    ensures Slope(c.m, AddMinus(c, a, b), x, p, t).Some?
  {
    BinaryOpSlopeDefined(c, Minus, a, b, x, p, t);
    AddUnaryOpValue(c, Uminus, b, p, t);
  }

  lemma TimesSlopeDefined(c: Tree, a: Expr, b: Expr, x: DerivId, p: Path, t: int)
    requires Slope(c.m, Bin(Times, a, b), x, p, t).Some?
    ensures Slope(c.m, AddTimes(c, a, b), x, p, t).Some?
  {
    hide AddBinaryOp;
    BinaryOpSlopeDefined(c, Times, a, b, x, p, t);
    BinaryOpSlopeDefined(c, Times, b, a, x, p, t);
    AddUnaryOpValue(c, Uminus, a, p, t);
    AddUnaryOpValue(c, Uminus, b, p, t);
  }

  lemma OperatorSlopeDefined(c: Tree, op: BinaryOp, a: Expr, b: Expr, x: DerivId, p: Path, t: int)
    requires Laws(c.m) && Slope(c.m, Bin(op, a, b), x, p, t).Some?
    ensures AddOperator(c, op, a, b).Ok? && Slope(c.m, AddOperator(c, op, a, b).value, x, p, t).Some?
  {
    hide AddBinaryOp;
    BinaryOpSlopeDefined(c, op, a, b, x, p, t);
    if op == Plus {
      BinaryOpSlopeDefined(c, op, b, a, x, p, t);
      if IsUminus(b) {
        MinusSlopeDefined(c, a, b.arg, x, p, t);
      }
    } else if op == Times {
      TimesSlopeDefined(c, a, b, x, p, t);
    } else if op == Minus {
      MinusSlopeDefined(c, a, b, x, p, t);
    } else {
      hide BinarySlope;
      AddOperatorValue(c, op, a, b, p, t);
    }
  }

  /** An expression that is equal to another one wherever that one is defined has its slope. */
  lemma SameAlong(m: Functions, e: Expr, x: DerivId, p: Path, t: int, r: Expr, y: DerivId, u: int)
    requires CalculusLaws(m) && PowerValues(m)
    requires (x.0.kind == Parameter ==> x.1 == 0) && (y.0.kind == Parameter ==> y.1 == 0)
    requires Slope(m, e, x, p, t).Some? && Slope(m, r, y, p, u).Some?
    requires forall h :: Agree(Along(m, e, x, p, t), Along(m, r, y, p, u), h)
    ensures Slope(m, r, y, p, u) == Slope(m, e, x, p, t)
  {
    hide Slope;
    var d, d' := Slope(m, e, x, p, t).value, Slope(m, r, y, p, u).value;
    SlopeSound(m, e, x, p, t);
    SlopeSound(m, r, y, p, u);
    LocalRule(Along(m, e, x, p, t), Along(m, r, y, p, u), d, 1.0);
    DerivativeUnique(Along(m, r, y, p, u), d, d');
  }

  /** The result of a function constructor has the slope of the operation. */
  lemma FunctionSlope(c: Tree, op: UnaryOp, a: Expr, x: DerivId, p: Path, t: int)
    requires Laws(c.m) && CalculusLaws(c.m) && (x.0.kind == Parameter ==> x.1 == 0)
    requires Slope(c.m, Un(op, a), x, p, t).Some?
    ensures AddFunction(c, op, a).Ok?
    ensures Slope(c.m, AddFunction(c, op, a).value, x, p, t) == Slope(c.m, Un(op, a), x, p, t)
  {
    hide AddFunction, Slope;
    FunctionSlopeDefined(c, op, a, x, p, t);
    var r := AddFunction(c, op, a).value;
    forall h ensures Agree(Along(c.m, Un(op, a), x, p, t), Along(c.m, r, x, p, t), h) {
      AddFunctionValue(c, op, a, Bump(p, x.0, DateOf(x.0, x.1, t), h), t);
    }
    SameAlong(c.m, Un(op, a), x, p, t, r, x, t);
  }

  /** The result of an operator constructor has the slope of the operation. */
  lemma OperatorSlope(c: Tree, op: BinaryOp, a: Expr, b: Expr, x: DerivId, p: Path, t: int)
    requires Laws(c.m) && CalculusLaws(c.m) && (x.0.kind == Parameter ==> x.1 == 0)
    requires Slope(c.m, Bin(op, a, b), x, p, t).Some?
    ensures AddOperator(c, op, a, b).Ok?
    ensures Slope(c.m, AddOperator(c, op, a, b).value, x, p, t) == Slope(c.m, Bin(op, a, b), x, p, t)
  {
    hide AddOperator, Slope;
    OperatorSlopeDefined(c, op, a, b, x, p, t);
    var r := AddOperator(c, op, a, b).value;
    forall h ensures Agree(Along(c.m, Bin(op, a, b), x, p, t), Along(c.m, r, x, p, t), h) {
      AddOperatorValue(c, op, a, b, Bump(p, x.0, DateOf(x.0, x.1, t), h), t);
    }
    SameAlong(c.m, Bin(op, a, b), x, p, t, r, x, t);
  }

  // ----- shifting

  /** A shifted expression reads the variables that the expression reads, shifted. */
  lemma {:induction false} ShiftReads(c: Tree, e: Expr, n: int, y: Symbol, k: int)
    requires y.kind != Parameter && (y, k) !in NonNull(e)
    ensures DecreaseLeadsLags(c, e, n).Ok? ==> (y, k - n) !in NonNull(DecreaseLeadsLags(c, e, n).value)
  {
    match e
    case Un(op, arg) =>
      ShiftReads(c, arg, n, y, k);
      var a := DecreaseLeadsLags(c, arg, n);
      if a.Ok? {
        DerivativeClosure.FunctionReads(c, op, a.value, NonNull(a.value));
      }
    case Bin(op, l, r) =>
      ShiftReads(c, l, n, y, k);
      ShiftReads(c, r, n, y, k);
      var a, b := DecreaseLeadsLags(c, l, n), DecreaseLeadsLags(c, r, n);
      if a.Ok? && b.Ok? {
        DerivativeClosure.OperatorReads(c, op, a.value, b.value, NonNull(a.value) + NonNull(b.value));
      }
    case _ =>
  }

  /** A slope claimed for a variable exponent is claimed for a constant one. */
  lemma ConstantSlopeDefined(m: Functions, op: BinaryOp, v1: real, v2: real, d1: real, d2: real)
    requires CalculusLaws(m) && BinarySlope(m, op, false, v1, v2, d1, d2).Some?
    ensures BinarySlope(m, op, true, v1, v2, d1, d2).Some?
  {
    assert PowerLaw(m, v1, v2);
    if op.PowerDeriv? {
      assert PowerLaw(m, v1, v2 - op.order as real);
      assert v2 - op.order as real - 1.0 == v2 - (op.order + 1) as real;
    }
  }

  /** Where the slope of e with respect to y(k) exists at date t - n, the expression shifted back by n can be
      built and has a slope with respect to y(k - n) at date t. */
  lemma {:induction false} ShiftSlope(c: Tree, e: Expr, n: int, y: Symbol, k: int, p: Path, t: int)
    requires Laws(c.m) && CalculusLaws(c.m) && y.kind != Parameter
    requires Slope(c.m, e, (y, k), p, t - n).Some?
    ensures DecreaseLeadsLags(c, e, n).Ok?
    ensures Slope(c.m, DecreaseLeadsLags(c, e, n).value, (y, k - n), p, t) == Slope(c.m, e, (y, k), p, t - n)
  {
    match e
    case Un(op, arg) =>
      ShiftSlope(c, arg, n, y, k, p, t);
      ShiftValue(c, arg, n, p, t);
      FunctionSlope(c, op, DecreaseLeadsLags(c, arg, n).value, (y, k - n), p, t);
    case Bin(op, l, r) =>
      ShiftSlope(c, l, n, y, k, p, t);
      ShiftSlope(c, r, n, y, k, p, t);
      ShiftValue(c, l, n, p, t);
      ShiftValue(c, r, n, p, t);
      ShiftOperatorSlope(c, op, l, r, n, y, k, p, t);
    case _ =>
  }

  lemma ShiftOperatorSlope(c: Tree, op: BinaryOp, l: Expr, r: Expr, n: int, y: Symbol, k: int, p: Path, t: int)
    requires Laws(c.m) && CalculusLaws(c.m) && y.kind != Parameter
    requires Slope(c.m, Bin(op, l, r), (y, k), p, t - n).Some?
    requires DecreaseLeadsLags(c, l, n).Ok? && DecreaseLeadsLags(c, r, n).Ok?
    requires var a, b := DecreaseLeadsLags(c, l, n).value, DecreaseLeadsLags(c, r, n).value;
             && Value(c.m, a, p, t) == Value(c.m, l, p, t - n) && Value(c.m, b, p, t) == Value(c.m, r, p, t - n)
             && Slope(c.m, a, (y, k - n), p, t) == Slope(c.m, l, (y, k), p, t - n)
             && Slope(c.m, b, (y, k - n), p, t) == Slope(c.m, r, (y, k), p, t - n)
    ensures DecreaseLeadsLags(c, Bin(op, l, r), n).Ok?
    ensures Slope(c.m, DecreaseLeadsLags(c, Bin(op, l, r), n).value, (y, k - n), p, t)
            == Slope(c.m, Bin(op, l, r), (y, k), p, t - n)
  {
    hide AddOperator, BinarySlope;
    var a, b := DecreaseLeadsLags(c, l, n).value, DecreaseLeadsLags(c, r, n).value;
    var e := Bin(op, l, r);
    if (y, k) !in NonNull(r) {
      ShiftReads(c, r, n, y, k);
    } else if (y, k - n) !in NonNull(b) {
      ConstantSlopeDefined(c.m, op, Value(c.m, l, p, t - n).value, Value(c.m, r, p, t - n).value,
                           Slope(c.m, l, (y, k), p, t - n).value, Slope(c.m, r, (y, k), p, t - n).value);
    }
    OperatorSlope(c, op, a, b, (y, k - n), p, t);
    ShiftSameSlope(c, e, AddOperator(c, op, a, b).value, n, y, k, p, t);
  }

  lemma ShiftSameSlope(c: Tree, e: Expr, r: Expr, n: int, y: Symbol, k: int, p: Path, t: int)
    requires Laws(c.m) && CalculusLaws(c.m) && y.kind != Parameter && DecreaseLeadsLags(c, e, n) == Ok(r)
    requires Slope(c.m, e, (y, k), p, t - n).Some? && Slope(c.m, r, (y, k - n), p, t).Some?
    ensures Slope(c.m, r, (y, k - n), p, t) == Slope(c.m, e, (y, k), p, t - n)
  {
    hide Slope, DecreaseLeadsLags;
    var f, g := Along(c.m, e, (y, k), p, t - n), Along(c.m, r, (y, k - n), p, t);
    forall h ensures Agree(f, g, h) {
      ShiftValue(c, e, n, Bump(p, y, t - n + k, h), t);
      assert t - n + k == t + (k - n);
    }
    SameAlong(c.m, e, (y, k), p, t - n, r, (y, k - n), t);
  }
}
