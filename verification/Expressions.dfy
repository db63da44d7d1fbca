/** Failure-compatible results: an absent value, and a run of the program ended by exit(). */
module Results {
  datatype Option<+T> = None | Some(value: T) {
    predicate IsFailure() { None? }

    function PropagateFailure<U>(): Option<U>
      requires None?
    {
      None
    }

    function Extract(): T
      requires Some?
    {
      value
    }
  }

  datatype Outcome<+T> = Ok(value: T) | Exit {
    predicate IsFailure() { Exit? }

    function PropagateFailure<U>(): Outcome<U>
      requires Exit?
    {
      Exit
    }

    function Extract(): T
      requires Ok?
    {
      value
    }
  }
}

/** Expression nodes and their value along a path of the variables. */
module Expressions {
  import opened Results

  datatype Kind = Endogenous | Exogenous | ExogenousDet | Parameter | Trend

  datatype Symbol = Symbol(id: nat, kind: Kind)

  datatype UnaryOp =
    | Uminus | Exp | Log | Log10 | Cos | Sin | Tan | Acos | Asin | Atan
    | Cosh | Sinh | Tanh | Acosh | Asinh | Atanh | Sqrt | Abs | Sign | Erf

  datatype BinaryOp =
    | Plus | Minus | Times | Divide | Power | PowerDeriv(order: nat) | Equal | Max | Min
    | Less | Greater | LessEqual | GreaterEqual | EqualEqual | Different

  /** A node with its arguments. Numerical constants are non-negative reals; NotANumber is the node
      of the constant "NaN". */
  datatype Expr =
    | Const(v: real)
    | NotANumber
    | Var(sym: Symbol, lag: int)
    | Un(op: UnaryOp, arg: Expr)
    | Bin(bop: BinaryOp, left: Expr, right: Expr)

  ghost function Size(e: Expr): (n: nat)
    ensures n >= 1
  {
    match e
    case Un(_, arg) => 1 + Size(arg)
    case Bin(_, l, r) => 1 + Size(l) + Size(r)
    case _ => 1
  }

  const Zero := Const(0.0)
  const One := Const(1.0)
  const Two := Const(2.0)
  const MinusOne := Un(Uminus, One)

  /** The mathematical functions, undefined where they return None. */
  datatype Functions = Functions(unary: (UnaryOp, real) -> Option<real>, power: (real, real) -> Option<real>)

  /** The value of a symbol at a date. */
  type Path = (Symbol, int) -> real

  function UnaryValue(m: Functions, op: UnaryOp, v: real): Option<real> {
    match op
    case Uminus => Some(-v)
    case Abs => Some(if v < 0.0 then -v else v)
    case Sign => Some(if v > 0.0 then 1.0 else if v < 0.0 then -1.0 else 0.0)
    case _ => m.unary(op, v)
  }

  function Indicator(b: bool): Option<real> {
    Some(if b then 1.0 else 0.0)
  }

  /** v (v - 1) ... (v - k + 1) */
  function FallingFactor(v: real, k: nat): real
    decreases k
  {
    if k == 0 then 1.0 else v * FallingFactor(v - 1.0, k - 1)
  }

  function BinaryValue(m: Functions, op: BinaryOp, v1: real, v2: real): Option<real> {
    match op
    case Plus => Some(v1 + v2)
    case Minus => Some(v1 - v2)
    case Times => Some(v1 * v2)
    case Divide => if v2 == 0.0 then None else Some(v1 / v2)
    case Power => m.power(v1, v2)
    case PowerDeriv(k) =>
      if v1 == 0.0 && v2 > 0.0 && k as real > v2 && v2.Floor as real == v2 then Some(0.0)
      else
        var p :- m.power(v1, v2 - k as real);
        Some(p * FallingFactor(v2, k))
    case Equal => None
    case Max => Some(if v1 < v2 then v2 else v1)
    case Min => Some(if v1 > v2 then v2 else v1)
    case Less => Indicator(v1 < v2)
    case Greater => Indicator(v1 > v2)
    case LessEqual => Indicator(v1 <= v2)
    case GreaterEqual => Indicator(v1 >= v2)
    case EqualEqual => Indicator(v1 == v2)
    case Different => Indicator(v1 != v2)
  }

  /** The date at which a variable node is read: leads and lags on parameters are ignored. */
  function DateOf(s: Symbol, lag: int, t: int): int {
    if s.kind == Parameter then 0 else t + lag
  }

  /** The value of an expression at date t, None where it is undefined. */
  function Value(m: Functions, e: Expr, p: Path, t: int): Option<real> {
    match e
    case Const(v) => Some(v)
    case NotANumber => None
    case Var(s, lag) => Some(p(s, DateOf(s, lag, t)))
    case Un(op, arg) =>
      var v :- Value(m, arg, p, t);
      UnaryValue(m, op, v)
    case Bin(op, l, r) =>
      var v1 :- Value(m, l, p, t);
      var v2 :- Value(m, r, p, t);
      BinaryValue(m, op, v1, v2)
  }

  /** An equation holds at a date when both sides are defined and equal. */
  predicate Holds(m: Functions, eq: Expr, p: Path, t: int) {
    && eq.Bin? && eq.bop == Equal
    && Value(m, eq.left, p, t).Some?
    && Value(m, eq.left, p, t) == Value(m, eq.right, p, t)
  }

  /** Both sides of an equation, or the expression itself, are defined. */
  predicate Defined(m: Functions, e: Expr, p: Path, t: int) {
    if e.Bin? && e.bop == Equal then Value(m, e.left, p, t).Some? && Value(m, e.right, p, t).Some?
    else Value(m, e, p, t).Some?
  }

  /** w has the value v wherever v is defined. */
  predicate Refines(v: Option<real>, w: Option<real>) {
    v.Some? ==> w == v
  }

  // ----- laws of the mathematical functions used by the constructors

  predicate ValueAt(m: Functions, op: UnaryOp, x: real, y: real) {
    m.unary(op, x) == Some(y)
  }

  /** The special values that the constructors build in. */
  ghost predicate SpecialValues(m: Functions) {
    && (forall op :: op in {Exp, Cos, Cosh} ==> ValueAt(m, op, 0.0, 1.0))
    && (forall op :: op in {Sin, Tan, Asin, Atan, Sinh, Tanh, Asinh, Atanh, Sqrt, Erf} ==> ValueAt(m, op, 0.0, 0.0))
    && (forall op :: op in {Log, Log10, Acos, Acosh} ==> ValueAt(m, op, 1.0, 0.0))
    && m.unary(Log, 0.0) == None && m.unary(Log10, 0.0) == None
  }

  /** The power function on 0, 1 and the exponents 0, 1; 0^0 is undefined. */
  ghost predicate PowerValues(m: Functions) {
    && (forall x :: m.power(x, 1.0) == Some(x))
    && (forall x :: x != 0.0 ==> m.power(x, 0.0) == Some(1.0))
    && (forall y :: m.power(1.0, y) == Some(1.0))
    && (forall y :: y > 0.0 ==> m.power(0.0, y) == Some(0.0))
    && (forall y :: y <= 0.0 ==> m.power(0.0, y) == None)
  }

  ghost predicate Laws(m: Functions) {
    SpecialValues(m) && PowerValues(m)
  }
}
