/** The simplifying node constructors, as functions of the argument nodes. */
module Constructors {
  import opened Results
  import opened Expressions

  /** What the constructors of one data tree depend on: the mathematical functions used in constant
      folding, and the order of creation of its nodes (`later(a, b)`: node a has the larger index). */
  datatype Tree = Tree(m: Functions, later: (Expr, Expr) -> bool)

  /** Evaluation in the empty context succeeds: no variable and no equality inside. */
  predicate Closed(e: Expr) {
    match e
    case Const(_) => true
    case NotANumber => true
    case Var(_, _) => false
    case Un(_, arg) => Closed(arg)
    case Bin(op, l, r) => op != Equal && Closed(l) && Closed(r)
  }

  const Nowhere: Path := (s: Symbol, t: int) => 0.0

  function AddPossiblyNegativeConstant(v: Option<real>): Expr {
    match v
    case None => NotANumber
    case Some(x) => if x < 0.0 then Un(Uminus, Const(-x)) else Const(x)
  }

  function AddUnaryOp(c: Tree, op: UnaryOp, a: Expr): Expr {
    if (op == Uminus && (a.Const? || a.NotANumber?)) || !Closed(a) then Un(op, a)
    else AddPossiblyNegativeConstant(Value(c.m, Un(op, a), Nowhere, 0))
  }

  function AddBinaryOp(c: Tree, op: BinaryOp, a: Expr, b: Expr): Expr {
    if Closed(Bin(op, a, b)) then AddPossiblyNegativeConstant(Value(c.m, Bin(op, a, b), Nowhere, 0))
    else Bin(op, a, b)
  }

  predicate IsUminus(e: Expr) {
    e.Un? && e.op == Uminus
  }

  function AddUMinus(c: Tree, a: Expr): Expr {
    if a == Zero then Zero
    else if IsUminus(a) then a.arg
    else AddUnaryOp(c, Uminus, a)
  }

  function AddMinus(c: Tree, a: Expr, b: Expr): Expr {
    if b == Zero then a
    else if a == Zero then AddUMinus(c, b)
    else if a == b then Zero
    else AddBinaryOp(c, Minus, a, b)
  }

  /** Arguments of a commutative operator are sorted by index. */
  function AddSorted(c: Tree, op: BinaryOp, a: Expr, b: Expr): Expr {
    if c.later(a, b) then AddBinaryOp(c, op, b, a) else AddBinaryOp(c, op, a, b)
  }

  function AddPlus(c: Tree, a: Expr, b: Expr): Expr {
    if a != Zero && b != Zero then
      if IsUminus(b) then AddMinus(c, a, b.arg) else AddSorted(c, Plus, a, b)
    else if a != Zero then a
    else if b != Zero then b
    else Zero
  }

  function AddTimes(c: Tree, a: Expr, b: Expr): Expr {
    if a == MinusOne then AddUMinus(c, b)
    else if b == MinusOne then AddUMinus(c, a)
    else if a != Zero && a != One && b != Zero && b != One then AddSorted(c, Times, a, b)
    else if a != Zero && a != One && b == One then a
    else if b != Zero && b != One && a == One then b
    else if b == One && a == One then One
    else Zero
  }

  function AddDivide(c: Tree, a: Expr, b: Expr): Outcome<Expr> {
    if b == One then Ok(a)
    else if b == Zero then Exit
    else if a == Zero then Ok(Zero)
    else if a == b then Ok(One)
    else Ok(AddBinaryOp(c, Divide, a, b))
  }

  function AddPower(c: Tree, a: Expr, b: Expr): Expr {
    if a != Zero && b != Zero && a != One && b != One then AddBinaryOp(c, Power, a, b)
    else if a == One then One
    else if b == One then a
    else if b == Zero then One
    else Zero
  }

  /** The argument on which a function constructor returns a known constant, and that constant. */
  function SpecialArgument(op: UnaryOp): Option<(Expr, Expr)> {
    match op
    case Exp => Some((Zero, One))
    case Cos => Some((Zero, One))
    case Cosh => Some((Zero, One))
    case Log => Some((One, Zero))
    case Log10 => Some((One, Zero))
    case Acos => Some((One, Zero))
    case Acosh => Some((One, Zero))
    case _ => Some((Zero, Zero))
  }

  /** The constructor of a unary operator; log(0) and log10(0) end the program. */
  function AddFunction(c: Tree, op: UnaryOp, a: Expr): Outcome<Expr> {
    if op == Uminus then Ok(AddUMinus(c, a))
    else if (op == Log || op == Log10) && a == Zero then Exit
    else if (op == Abs || op == Sign) && a == One then Ok(One)
    else if a == SpecialArgument(op).value.0 then Ok(SpecialArgument(op).value.1)
    else Ok(AddUnaryOp(c, op, a))
  }

  /** The constructor of a binary operator. */
  function AddOperator(c: Tree, op: BinaryOp, a: Expr, b: Expr): Outcome<Expr> {
    match op
    case Plus => Ok(AddPlus(c, a, b))
    case Minus => Ok(AddMinus(c, a, b))
    case Times => Ok(AddTimes(c, a, b))
    case Divide => AddDivide(c, a, b)
    case Power => Ok(AddPower(c, a, b))
    case _ => Ok(AddBinaryOp(c, op, a, b))
  }

  // ----- the value of a constructor's result

  lemma ClosedValue(m: Functions, e: Expr, p: Path, t: int)
    requires Closed(e)
    ensures Value(m, e, p, t) == Value(m, e, Nowhere, 0)
  {
  }

  lemma ConstantValue(m: Functions, v: Option<real>, p: Path, t: int)
    ensures Value(m, AddPossiblyNegativeConstant(v), p, t) == v
  {
  }

  lemma AddUnaryOpValue(c: Tree, op: UnaryOp, a: Expr, p: Path, t: int)
    ensures Value(c.m, AddUnaryOp(c, op, a), p, t) == Value(c.m, Un(op, a), p, t)
  {
    if Closed(a) {
      ClosedValue(c.m, Un(op, a), p, t);
      ConstantValue(c.m, Value(c.m, Un(op, a), Nowhere, 0), p, t);
    }
  }

  lemma AddBinaryOpValue(c: Tree, op: BinaryOp, a: Expr, b: Expr, p: Path, t: int)
    ensures Value(c.m, AddBinaryOp(c, op, a, b), p, t) == Value(c.m, Bin(op, a, b), p, t)
  {
    if Closed(Bin(op, a, b)) {
      ClosedValue(c.m, Bin(op, a, b), p, t);
      ConstantValue(c.m, Value(c.m, Bin(op, a, b), Nowhere, 0), p, t);
    }
  }

  /** The result of a function constructor has exactly the value of the operation, undefined included,
      and the program ends only where it is defined nowhere. */
  lemma AddFunctionValue(c: Tree, op: UnaryOp, a: Expr, p: Path, t: int)
    requires Laws(c.m)
    ensures match AddFunction(c, op, a)
            case Ok(e) => Value(c.m, e, p, t) == Value(c.m, Un(op, a), p, t)
            case Exit => Value(c.m, Un(op, a), p, t) == None
  {
    AddUnaryOpValue(c, op, a, p, t);
    if op != Uminus && op != Abs && op != Sign {
      var x := SpecialArgument(op).value;
      assert x.0 == One ==> ValueAt(c.m, op, 1.0, 0.0);
      assert x.0 == Zero ==> ValueAt(c.m, op, 0.0, if x.1 == One then 1.0 else 0.0);
    }
  }

  /** The constructor returns a constant without regard to whether the operands are defined. */
  predicate Drops(op: BinaryOp, a: Expr, b: Expr) {
    match op
    case Plus => a != Zero && IsUminus(b) && b.arg != Zero && a == b.arg
    case Minus => a != Zero && b != Zero && a == b
    case Times => (a == Zero || b == Zero) && a != MinusOne && b != MinusOne
    case Divide => b != One && b != Zero && (a == Zero || a == b)
    case Power => a == One || (b != One && (b == Zero || a == Zero))
    case _ => false
  }

  lemma DivideBySelf(x: real)
    ensures x != 0.0 ==> x / x == 1.0
  {
  }

  /** What is dropped is the constant wherever it is defined. */
  lemma DroppedValue(c: Tree, op: BinaryOp, a: Expr, b: Expr, p: Path, t: int)
    requires Drops(op, a, b) && (op == Power ==> PowerValues(c.m))
    ensures AddOperator(c, op, a, b) == Ok(Zero) || AddOperator(c, op, a, b) == Ok(One)
    ensures Refines(Value(c.m, Bin(op, a, b), p, t), Value(c.m, AddOperator(c, op, a, b).value, p, t))
  {
    if Value(c.m, a, p, t).Some? && Value(c.m, b, p, t).Some? {
      var x, y := Value(c.m, a, p, t).value, Value(c.m, b, p, t).value;
      DivideBySelf(y);
      if op == Power {
        assert x != 0.0 ==> c.m.power(x, 0.0) == Some(1.0);
        assert c.m.power(1.0, y) == Some(1.0);
        assert c.m.power(0.0, y) == if y > 0.0 then Some(0.0) else None;
      }
    }
  }

  lemma MinusKept(c: Tree, a: Expr, b: Expr, p: Path, t: int)
    requires !Drops(Minus, a, b)
    ensures Value(c.m, AddMinus(c, a, b), p, t) == Value(c.m, Bin(Minus, a, b), p, t)
  {
    AddUnaryOpValue(c, Uminus, b, p, t);
    AddBinaryOpValue(c, Minus, a, b, p, t);
  }

  lemma PlusKept(c: Tree, a: Expr, b: Expr, p: Path, t: int)
    requires !Drops(Plus, a, b)
    ensures Value(c.m, AddPlus(c, a, b), p, t) == Value(c.m, Bin(Plus, a, b), p, t)
  {
    if a != Zero && IsUminus(b) {
      MinusKept(c, a, b.arg, p, t);
    }
    AddBinaryOpValue(c, Plus, a, b, p, t);
    AddBinaryOpValue(c, Plus, b, a, p, t);
  }

  lemma TimesKept(c: Tree, a: Expr, b: Expr, p: Path, t: int)
    requires !Drops(Times, a, b)
    ensures Value(c.m, AddTimes(c, a, b), p, t) == Value(c.m, Bin(Times, a, b), p, t)
  {
    AddUnaryOpValue(c, Uminus, a, p, t);
    AddUnaryOpValue(c, Uminus, b, p, t);
    AddBinaryOpValue(c, Times, a, b, p, t);
    AddBinaryOpValue(c, Times, b, a, p, t);
    assert Value(c.m, MinusOne, p, t) == Some(-1.0);
  }

  lemma PowerKept(c: Tree, a: Expr, b: Expr, p: Path, t: int)
    requires PowerValues(c.m) && !Drops(Power, a, b)
    ensures Value(c.m, AddPower(c, a, b), p, t) == Value(c.m, Bin(Power, a, b), p, t)
  {
    AddBinaryOpValue(c, Power, a, b, p, t);
    if b == One && Value(c.m, a, p, t).Some? {
      assert c.m.power(Value(c.m, a, p, t).value, 1.0) == Value(c.m, a, p, t);
    }
  }

  /** The result of an operator constructor has the value of the operation wherever it is defined, and
      the program ends only where it is defined nowhere. Elsewhere the result is undefined too, unless the
      operation is dropped. */
  lemma AddOperatorValue(c: Tree, op: BinaryOp, a: Expr, b: Expr, p: Path, t: int)
    requires op == Power ==> PowerValues(c.m)
    ensures match AddOperator(c, op, a, b)
            case Ok(e) =>
              && Refines(Value(c.m, Bin(op, a, b), p, t), Value(c.m, e, p, t))
              && (Value(c.m, e, p, t) == Value(c.m, Bin(op, a, b), p, t) <==>
                    !Drops(op, a, b) || Value(c.m, Bin(op, a, b), p, t).Some?)
            case Exit => Value(c.m, Bin(op, a, b), p, t) == None
  {
    if Drops(op, a, b) {
      DroppedValue(c, op, a, b, p, t);
    } else {
      match op
      case Plus => PlusKept(c, a, b, p, t);
      case Minus => MinusKept(c, a, b, p, t);
      case Times => TimesKept(c, a, b, p, t);
      case Power => PowerKept(c, a, b, p, t);
      case _ => AddBinaryOpValue(c, op, a, b, p, t);
    }
  }
}
