/** Symbolic differentiation: the composition rules, the sparsity shortcut and the cache. */
module Derivatives {
  import opened Results
  import opened Expressions
  import opened Constructors

  /** What one derives with respect to: a symbol at a lead or lag. */
  type DerivId = (Symbol, int)

  const PI := Const(3.141592653589793)

  function AddSquare(c: Tree, a: Expr): Expr {
    AddTimes(c, a, a)
  }

  /** The derivative of a function node from the derivative of its argument. */
  function ComposeUnary(c: Tree, op: UnaryOp, arg: Expr, darg: Expr): Outcome<Expr> {
    var self := Un(op, arg);
    match op
    case Uminus => Ok(AddUMinus(c, darg))
    case Exp => Ok(AddTimes(c, darg, self))
    case Log => AddDivide(c, darg, arg)
    case Log10 =>
      var t11 :- AddFunction(c, Exp, One);
      var t12 :- AddFunction(c, Log10, t11);
      var t13 :- AddDivide(c, darg, arg);
      Ok(AddTimes(c, t12, t13))
    case Cos =>
      var t11 :- AddFunction(c, Sin, arg);
      Ok(AddTimes(c, darg, AddUMinus(c, t11)))
    case Sin =>
      var t11 :- AddFunction(c, Cos, arg);
      Ok(AddTimes(c, darg, t11))
    case Tan => Ok(AddTimes(c, darg, AddPlus(c, AddSquare(c, self), One)))
    case Acos =>
      var t11 :- AddFunction(c, Sin, self);
      var t12 :- AddDivide(c, darg, t11);
      Ok(AddUMinus(c, t12))
    case Asin =>
      var t11 :- AddFunction(c, Cos, self);
      AddDivide(c, darg, t11)
    case Atan => AddDivide(c, darg, AddPlus(c, One, AddSquare(c, arg)))
    case Cosh =>
      var t11 :- AddFunction(c, Sinh, arg);
      Ok(AddTimes(c, darg, t11))
    case Sinh =>
      var t11 :- AddFunction(c, Cosh, arg);
      Ok(AddTimes(c, darg, t11))
    case Tanh => Ok(AddTimes(c, darg, AddMinus(c, One, AddSquare(c, self))))
    case Acosh =>
      var t11 :- AddFunction(c, Sinh, self);
      AddDivide(c, darg, t11)
    case Asinh =>
      var t11 :- AddFunction(c, Cosh, self);
      AddDivide(c, darg, t11)
    case Atanh => Ok(AddTimes(c, darg, AddMinus(c, One, AddSquare(c, arg))))
    case Sqrt => AddDivide(c, darg, AddPlus(c, self, self))
    case Abs =>
      var t11 :- AddFunction(c, Sign, arg);
      Ok(AddTimes(c, t11, darg))
    case Sign => Ok(Zero)
    case Erf =>
      var t12 :- AddFunction(c, Exp, AddPower(c, arg, Two));
      var t11 :- AddFunction(c, Sqrt, PI);
      var t14 :- AddDivide(c, Two, AddTimes(c, t11, t12));
      Ok(AddTimes(c, t14, darg))
  }

  /** arg - i */
  function AddOffset(c: Tree, arg: Expr, i: nat): Expr {
    AddMinus(c, arg, AddPossiblyNegativeConstant(Some(i as real)))
  }

  /** start (arg - 0) (arg - 1) ... (arg - (n - 1)), omitting the factor number `skip`. */
  function AddFactors(c: Tree, start: Expr, arg: Expr, n: nat, skip: Option<nat>): Expr {
    if n == 0 then start
    else
      var e := AddFactors(c, start, arg, n - 1, skip);
      if skip == Some(n - 1) then e else AddTimes(c, e, AddOffset(c, arg, n - 1))
  }

  /** The sum over i < n of the product of the first k factors without the i-th one. */
  function AddFactorSum(c: Tree, arg: Expr, k: nat, n: nat): Expr {
    if n == 0 then Zero
    else AddPlus(c, AddFactorSum(c, arg, k, n - 1), AddFactors(c, One, arg, k, Some(n - 1)))
  }

  /** log(l) dr + dl e / l */
  function AddLogDerivative(c: Tree, l: Expr, dl: Expr, dr: Expr, e: Expr): Outcome<Expr> {
    var t11 :- AddFunction(c, Log, l);
    var t12 := AddTimes(c, dr, t11);
    var t14 :- AddDivide(c, AddTimes(c, dl, e), l);
    Ok(AddPlus(c, t12, t14))
  }

  function AddPowerDeriv(c: Tree, l: Expr, r: Expr, k: nat): Expr {
    AddBinaryOp(c, PowerDeriv(k), l, r)
  }

  function ComposePowerDeriv(c: Tree, k: nat, l: Expr, r: Expr, dl: Expr, dr: Expr): Outcome<Expr> {
    if dr == Zero then Ok(AddTimes(c, dl, AddPowerDeriv(c, l, r, k + 1)))
    else
      var t12 := AddOffset(c, r, k);
      var t15 :- AddLogDerivative(c, l, dl, dr, t12);
      var f := AddPower(c, l, t12);
      var firstPart := AddFactors(c, AddTimes(c, f, t15), r, k, None);
      var t13 := AddTimes(c, dr, AddFactorSum(c, r, k, k));
      Ok(AddPlus(c, firstPart, AddTimes(c, f, t13)))
  }

  function ComposePower(c: Tree, l: Expr, r: Expr, dl: Expr, dr: Expr): Outcome<Expr> {
    if dr == Zero then
      if dl == Zero then Ok(Zero)
      else if r.Const? || r.NotANumber? then
        Ok(AddTimes(c, dl, AddTimes(c, r, AddPower(c, l, AddMinus(c, r, One)))))
      else Ok(AddTimes(c, dl, AddPowerDeriv(c, l, r, 1)))
    else
      var t15 :- AddLogDerivative(c, l, dl, dr, r);
      Ok(AddTimes(c, t15, Bin(Power, l, r)))
  }

  /** Of two derivatives, the one selected by an indicator. */
  function AddChoice(c: Tree, test: Expr, dl: Expr, dr: Expr): Expr {
    AddPlus(c, AddTimes(c, AddMinus(c, One, test), dr), AddTimes(c, test, dl))
  }

  /** The derivative of an operator node from the derivatives of its arguments. */
  function ComposeBinary(c: Tree, op: BinaryOp, l: Expr, r: Expr, dl: Expr, dr: Expr): Outcome<Expr> {
    match op
    case Plus => Ok(AddPlus(c, dl, dr))
    case Minus => Ok(AddMinus(c, dl, dr))
    case Times => Ok(AddPlus(c, AddTimes(c, dl, r), AddTimes(c, dr, l)))
    case Divide =>
      if dr != Zero then
        AddDivide(c, AddMinus(c, AddTimes(c, dl, r), AddTimes(c, dr, l)), AddSquare(c, r))
      else AddDivide(c, dl, r)
    case Power => ComposePower(c, l, r, dl, dr)
    case PowerDeriv(k) => ComposePowerDeriv(c, k, l, r, dl, dr)
    case Max => Ok(AddChoice(c, AddBinaryOp(c, Greater, l, r), dl, dr))
    case Min => Ok(AddChoice(c, AddBinaryOp(c, Greater, r, l), dl, dr))
    case Equal => Ok(AddMinus(c, dl, dr))
    case _ => Ok(Zero)
  }

  /** Plain recursive differentiation. */
  function Derivative(c: Tree, e: Expr, x: DerivId): Outcome<Expr> {
    match e
    case Var(s, lag) => Ok(if x == (s, lag) then One else Zero)
    case Un(op, arg) =>
      var darg :- Derivative(c, arg, x);
      ComposeUnary(c, op, arg, darg)
    case Bin(op, l, r) =>
      var dl :- Derivative(c, l, x);
      var dr :- Derivative(c, r, x);
      ComposeBinary(c, op, l, r, dl, dr)
    case _ => Ok(Zero)
  }

  /** The derivatives that are not null a priori. */
  function NonNull(e: Expr): set<DerivId> {
    match e
    case Var(s, lag) => {(s, lag)}
    case Un(_, arg) => NonNull(arg)
    case Bin(_, l, r) => NonNull(l) + NonNull(r)
    case _ => {}
  }

  predicate ZeroOrExit(r: Outcome<Expr>) {
    r == Ok(Zero) || r == Exit
  }

  lemma TimesZero(c: Tree, a: Expr)
    ensures AddTimes(c, Zero, a) == Zero && AddTimes(c, a, Zero) == Zero
  {
  }

  lemma ComposeUnaryZero(c: Tree, op: UnaryOp, arg: Expr)
    ensures ZeroOrExit(ComposeUnary(c, op, arg, Zero))
  {
  }

  lemma ComposeBinaryZero(c: Tree, op: BinaryOp, l: Expr, r: Expr)
    ensures ZeroOrExit(ComposeBinary(c, op, l, r, Zero, Zero))
  {
  }

  /** Outside the non-null derivatives the recursion gives the node Zero, or ends the program. */
  lemma {:induction false} SparseOrExit(c: Tree, e: Expr, x: DerivId)
    requires x !in NonNull(e)
    ensures ZeroOrExit(Derivative(c, e, x))
  {
    match e
    case Un(op, arg) =>
      SparseOrExit(c, arg, x);
      ComposeUnaryZero(c, op, arg);
    case Bin(op, l, r) =>
      SparseOrExit(c, l, x);
      SparseOrExit(c, r, x);
      ComposeBinaryZero(c, op, l, r);
    case _ =>
  }

  // ----- nodes of a data tree

  predicate Commutes(op: BinaryOp) {
    op == Plus || op == Times
  }

  /** Every node is the result of the constructor of its operator. */
  predicate Built(c: Tree, e: Expr) {
    match e
    case Const(v) => v >= 0.0
    case Un(op, arg) => Built(c, arg) && AddFunction(c, op, arg) == Ok(e)
    case Bin(op, l, r) =>
      && Built(c, l) && Built(c, r)
      && (AddOperator(c, op, l, r) == Ok(e) || (Commutes(op) && AddOperator(c, op, r, l) == Ok(e)))
    case _ => true
  }

  /** exp(1) and sqrt(pi) are not 0. */
  predicate NonZeroConstants(m: Functions) {
    m.unary(Exp, 1.0) != Some(0.0) && m.unary(Sqrt, PI.v) != Some(0.0)
  }

  lemma BuiltOpen(c: Tree, op: UnaryOp, arg: Expr)
    requires Built(c, Un(op, arg)) && op != Uminus
    ensures !Closed(arg)
  {
  }

  /** No composition of null derivatives ends the program on a node of the data tree. */
  lemma BuiltUnaryZero(c: Tree, op: UnaryOp, arg: Expr)
    requires NonZeroConstants(c.m) && Built(c, Un(op, arg))
    ensures ComposeUnary(c, op, arg, Zero) == Ok(Zero)
  {
    ComposeUnaryZero(c, op, arg);
    if op != Uminus {
      BuiltOpen(c, op, arg);
      var self := Un(op, arg);
      match op
      case Log10 => FoldConstant(c, Exp, 1.0);
      case Acos => OpenFunction(c, Sin, self);
      case Asin => OpenFunction(c, Cos, self);
      case Acosh => OpenFunction(c, Sinh, self);
      case Asinh => OpenFunction(c, Cosh, self);
      case Atan =>
        OpenTimes(c, arg, arg);
        OpenPlus(c, One, AddSquare(c, arg));
      case Sqrt => OpenPlus(c, self, self);
      case Erf => ErfZero(c, arg);
      case _ =>
    }
  }

  lemma OpenTimes(c: Tree, a: Expr, b: Expr)
    requires a != Zero && !Closed(b)
    ensures AddTimes(c, a, b) != Zero && !Closed(AddTimes(c, a, b))
  {
    assert Closed(MinusOne);
    if a != MinusOne && a != One {
      assert !Closed(Bin(Times, a, b)) && !Closed(Bin(Times, b, a));
    }
  }

  lemma FoldConstant(c: Tree, op: UnaryOp, v: real)
    requires op == Exp || op == Sqrt
    requires v > 0.0
    ensures AddFunction(c, op, Const(v)) == Ok(AddPossiblyNegativeConstant(c.m.unary(op, v)))
  {
    assert Value(c.m, Const(v), Nowhere, 0) == Some(v);
  }

  lemma OpenPlus(c: Tree, a: Expr, b: Expr)
    requires a != Zero && !Closed(b) && !IsUminus(b)
    ensures AddPlus(c, a, b) != Zero
  {
    assert !Closed(Bin(Plus, a, b)) && !Closed(Bin(Plus, b, a));
  }

  lemma OpenPower(c: Tree, a: Expr)
    requires !Closed(a)
    ensures !Closed(AddPower(c, a, Two))
  {
    assert !Closed(Bin(Power, a, Two));
  }

  lemma OpenFunction(c: Tree, op: UnaryOp, a: Expr)
    requires !Closed(a) && op != Uminus
    ensures AddFunction(c, op, a) == Ok(Un(op, a)) && !Closed(Un(op, a))
  {
  }

  lemma ErfZero(c: Tree, arg: Expr)
    requires NonZeroConstants(c.m) && !Closed(arg)
    ensures ComposeUnary(c, Erf, arg, Zero) == Ok(Zero)
  {
    var square, t11 := AddPower(c, arg, Two), AddPossiblyNegativeConstant(c.m.unary(Sqrt, PI.v));
    OpenPower(c, arg);
    OpenFunction(c, Exp, square);
    FoldConstant(c, Sqrt, PI.v);
    OpenTimes(c, t11, Un(Exp, square));
    var t13 := AddTimes(c, t11, Un(Exp, square));
    assert AddDivide(c, Two, t13).Ok?;
    TimesZero(c, AddDivide(c, Two, t13).value);
  }

  lemma BuiltBinaryZero(c: Tree, op: BinaryOp, l: Expr, r: Expr)
    requires Built(c, Bin(op, l, r))
    ensures ComposeBinary(c, op, l, r, Zero, Zero) == Ok(Zero)
  {
    ComposeBinaryZero(c, op, l, r);
  }

  /** The sparsity shortcut: on nodes of the data tree, a derivative outside the non-null ones is the
      node Zero. */
  lemma {:induction false} Sparse(c: Tree, e: Expr, x: DerivId)
    requires NonZeroConstants(c.m) && Built(c, e) && x !in NonNull(e)
    ensures Derivative(c, e, x) == Ok(Zero)
  {
    match e
    case Un(op, arg) =>
      Sparse(c, arg, x);
      BuiltUnaryZero(c, op, arg);
    case Bin(op, l, r) =>
      Sparse(c, l, x);
      Sparse(c, r, x);
      BuiltBinaryZero(c, op, l, r);
    case _ =>
  }

  // ----- the cache

  /** The state that the nodes of a data tree share during differentiation: which nodes have been prepared
      with their non-null derivatives, and the derivatives computed so far. */
  class DerivativeCache {
    const c: Tree
    var nonNull: map<Expr, set<DerivId>>
    var derivatives: map<(Expr, DerivId), Expr>

    ghost predicate Valid()
      reads this
    {
      && (forall e :: e in nonNull ==> nonNull[e] == NonNull(e))
      && (forall k :: k in derivatives && Built(c, k.0) ==> Derivative(c, k.0, k.1) == Ok(derivatives[k]))
    }

    constructor (c: Tree)
      ensures Valid() && this.c == c && nonNull == map[] && derivatives == map[]
    {
      this.c := c;
      nonNull := map[];
      derivatives := map[];
    }

    method PrepareForDerivation(e: Expr)
      requires Valid()
      modifies this`nonNull
      ensures Valid() && e in nonNull
      ensures forall k :: k in old(nonNull) ==> k in nonNull
    {
      if e in nonNull {
        return;
      }
      var s: set<DerivId> := {};
      match e {
        case Var(sym, lag) => s := {(sym, lag)};
        case Un(_, arg) =>
          PrepareForDerivation(arg);
          s := nonNull[arg];
        case Bin(_, l, r) =>
          PrepareForDerivation(l);
          PrepareForDerivation(r);
          s := nonNull[l] + nonNull[r];
        case _ =>
      }
      nonNull := nonNull[e := s];
    }

    /** In any state of the cache, the node that plain recursive differentiation gives. */
    method GetDerivative(e: Expr, x: DerivId) returns (d: Outcome<Expr>)
      requires Valid() && NonZeroConstants(c.m)
      modifies this`nonNull, this`derivatives
      ensures Valid()
      ensures Built(c, e) ==> d == Derivative(c, e, x)
      ensures d.Ok? && x in NonNull(e) ==> (e, x) in derivatives && derivatives[(e, x)] == d.value
      decreases e
    {
      PrepareForDerivation(e);
      if x !in nonNull[e] {
        if Built(c, e) {
          Sparse(c, e, x);
        }
        return Ok(Zero);
      }
      if (e, x) in derivatives {
        return Ok(derivatives[(e, x)]);
      }
      d := ComputeDerivative(e, x);
      if d.Ok? {
        derivatives := derivatives[(e, x) := d.value];
      }
    }

    method ComputeDerivative(e: Expr, x: DerivId) returns (d: Outcome<Expr>)
      requires Valid() && NonZeroConstants(c.m)
      modifies this`nonNull, this`derivatives
      ensures Valid()
      ensures Built(c, e) ==> d == Derivative(c, e, x)
      decreases e, 0
    {
      match e
      case Var(sym, lag) => d := Ok(if x == (sym, lag) then One else Zero);
      case Un(op, arg) =>
        var darg := GetDerivative(arg, x);
        d := if darg.Ok? then ComposeUnary(c, op, arg, darg.value) else Exit;
      case Bin(op, l, r) =>
        var dl := GetDerivative(l, x);
        if dl.Exit? {
          return Exit;
        }
        var dr := GetDerivative(r, x);
        d := if dr.Ok? then ComposeBinary(c, op, l, r, dl.value, dr.value) else Exit;
      case _ => d := Ok(Zero);
    }
  }
}
