/** Normalization of an equation with respect to one endogenous variable at the current date. */
module Normalization {
  import opened Results
  import opened Expressions
  import opened Constructors
  import opened Derivatives
  import opened DerivativeValues

  datatype Operation = Unary(u: UnaryOp) | Binary(b: BinaryOp)

  /** An operation still to be applied to the other side of the equation, with its operand before or behind. */
  datatype Undo = Undo(op: Operation, first: Option<Expr>, second: Option<Expr>)

  /** flag: 0 the variable is not in the expression, which is rebuilt in expr; 1 it is, and ops undo what stands around
      it; 2 the equation cannot be normalized. */
  datatype Normal = Normal(flag: nat, expr: Option<Expr>, ops: seq<Undo>)

  const TEN := Const(10.0)

  function UndoOnly(op: Operation): Undo {
    Undo(op, None, None)
  }

  /** The operation that undoes a function; None where the process gives up. */
  function InverseOf(op: UnaryOp): Option<Undo> {
    match op
    case Uminus => Some(UndoOnly(Unary(Uminus)))
    case Exp => Some(UndoOnly(Unary(Log)))
    case Log => Some(UndoOnly(Unary(Exp)))
    case Log10 => Some(Undo(Binary(Power), None, Some(TEN)))
    case Cos => Some(UndoOnly(Unary(Acos)))
    case Sin => Some(UndoOnly(Unary(Asin)))
    case Tan => Some(UndoOnly(Unary(Atan)))
    case Acos => Some(UndoOnly(Unary(Cos)))
    case Asin => Some(UndoOnly(Unary(Sin)))
    case Atan => Some(UndoOnly(Unary(Tan)))
    case Cosh => Some(UndoOnly(Unary(Acosh)))
    case Sinh => Some(UndoOnly(Unary(Asinh)))
    case Tanh => Some(UndoOnly(Unary(Atanh)))
    case Acosh => Some(UndoOnly(Unary(Cosh)))
    case Asinh => Some(UndoOnly(Unary(Sinh)))
    case Atanh => Some(UndoOnly(Unary(Tanh)))
    case Sqrt => Some(Undo(Binary(Power), None, Some(Two)))
    case _ => None
  }

  /** Applies one operation; only a few operators are handled. */
  function ComputeRHS(c: Tree, a: Expr, undo: Undo): Outcome<Expr> {
    match undo.op
    case Unary(u) =>
      if u == Uminus || u == Exp || u == Log || u == Log10 then AddFunction(c, u, a) else Exit
    case Binary(b) =>
      if b == Plus || b == Minus || b == Times || b == Divide || b == Power then
        match (undo.first, undo.second)
        case (Some(x), None) => AddOperator(c, b, a, x)
        case (None, Some(x)) => AddOperator(c, b, x, a)
        case (Some(x), Some(y)) => AddOperator(c, b, x, y)
        case (None, None) => Exit
      else Exit
  }

  /** Applies the operations of a list, the last one first. */
  function ApplyAll(c: Tree, a: Expr, ops: seq<Undo>): Outcome<Expr>
    decreases ops
  {
    if ops == [] then Ok(a)
    else
      var b :- ComputeRHS(c, a, ops[|ops| - 1]);
      ApplyAll(c, b, ops[..|ops| - 1])
  }

  /** The loop that takes the operations from the back of the list. */
  method ApplyOperations(c: Tree, start: Expr, ops: seq<Undo>) returns (r: Outcome<Expr>)
    ensures r == ApplyAll(c, start, ops)
  {
    var a, rest := start, ops;
    while rest != []
      invariant ApplyAll(c, start, ops) == ApplyAll(c, a, rest)
    {
      var next := ComputeRHS(c, a, rest[|rest| - 1]);
      if next.Exit? {
        return Exit;
      }
      a, rest := next.value, rest[..|rest| - 1];
    }
    r := Ok(a);
  }

  /** What an operator does once one of its arguments holds the variable: the operations pushed behind those of
      that argument. `left` tells that it is the left one; `other` is the other argument rebuilt. */
  function PushedBy(c: Tree, op: BinaryOp, left: bool, other: Expr): Outcome<Option<seq<Undo>>> {
    match op
    case Plus => Ok(Some([Undo(Binary(Minus), Some(other), None)]))
    case Minus =>
      Ok(Some(if left then [Undo(Binary(Plus), Some(other), None)]
              else [UndoOnly(Unary(Uminus)), Undo(Binary(Minus), Some(other), None)]))
    case Times => Ok(Some([Undo(Binary(Divide), Some(other), None)]))
    case Divide =>
      Ok(Some(if left then [Undo(Binary(Times), Some(other), None)] else [Undo(Binary(Divide), None, Some(other))]))
    case Power =>
      if left then
        var inverse :- AddDivide(c, One, other);
        Ok(Some([Undo(Binary(Power), Some(inverse), None)]))
      else
        var l :- AddFunction(c, Log, other);
        Ok(Some([UndoOnly(Unary(Log)), Undo(Binary(Divide), None, Some(l))]))
    case PowerDeriv(_) => Ok(None)
    case _ => Ok(Some([]))
  }

  /** What an operator without the variable in its arguments pushes although nothing is to be undone. */
  function PushedIdle(c: Tree, op: BinaryOp, l: Expr, r: Expr): seq<Undo> {
    if op == Plus then [Undo(Binary(Minus), Some(AddPlus(c, l, r)), None)]
    else if op == Minus then [Undo(Binary(Minus), Some(AddMinus(c, l, r)), None)]
    else []
  }

  /** The normalized equation: the variable equal to the other side with everything undone. */
  function CloseEquation(c: Tree, y: Symbol, left: Normal, right: Normal, ops: seq<Undo>): Outcome<Normal>
    requires left.flag == 0 ==> left.expr.Some?
    requires right.flag == 0 ==> right.expr.Some?
    requires left.flag == 0 || right.flag == 0
  {
    if left.flag != 0 then
      var g :- ApplyAll(c, right.expr.value, left.ops);
      Ok(Normal(0, Some(AddBinaryOp(c, Equal, Var(y, 0), g)), ops))
    else if right.flag != 0 then
      var g :- ApplyAll(c, left.expr.value, right.ops);
      Ok(Normal(0, Some(AddBinaryOp(c, Equal, Var(y, 0), g)), ops))
    else
      Ok(Normal(0, Some(AddBinaryOp(c, Equal, Var(y, 0), AddMinus(c, right.expr.value, left.expr.value))), ops))
  }

  function NormalizeUnary(c: Tree, op: UnaryOp, res: Normal): Outcome<Normal>
    requires res.flag == 0 ==> res.expr.Some?
  {
    // The flag is read through a truth value, so that the flag 2 counts as 1.
    if res.flag != 0 then
      match InverseOf(op)
      case Some(undo) => Ok(Normal(1, None, res.ops + [undo]))
      case None => Ok(Normal(2, None, res.ops))
    else
      var e :- AddFunction(c, op, res.expr.value);
      Ok(Normal(0, Some(e), res.ops))
  }

  function NormalizeBinary(c: Tree, y: Symbol, op: BinaryOp, left: Normal, right: Normal, ops: seq<Undo>)
    : Outcome<Normal>
    requires left.flag == 0 ==> left.expr.Some?
    requires right.flag == 0 ==> right.expr.Some?
  {
    if left.flag == 2 || right.flag == 2 || (left.flag != 0 && right.flag != 0) then Ok(Normal(2, None, ops))
    else if op == Equal then CloseEquation(c, y, left, right, ops)
    else if left.flag == 0 && right.flag == 0 then
      if op.PowerDeriv? then Ok(Normal(2, None, ops))
      else
        var e :- AddOperator(c, op, left.expr.value, right.expr.value);
        Ok(Normal(0, Some(e), ops + PushedIdle(c, op, left.expr.value, right.expr.value)))
    else
      var inner, other := if left.flag != 0 then left.ops else right.ops,
                          if left.flag != 0 then right.expr.value else left.expr.value;
      var pushed :- PushedBy(c, op, left.flag != 0, other);
      match pushed
      case Some(more) => Ok(Normal(1, None, inner + more))
      case None => Ok(Normal(2, None, inner))
  }

  /** Normalization with respect to y; ops is the list of operations that is passed down and extended. */
  function NormalizeEquation(c: Tree, e: Expr, y: Symbol, ops: seq<Undo>): (r: Outcome<Normal>)
    ensures r.Ok? && r.value.flag == 0 ==> r.value.expr.Some?
    decreases e
  {
    match e
    case Const(_) => Ok(Normal(0, Some(e), ops))
    case NotANumber => Ok(Normal(0, Some(e), ops))
    case Var(s, lag) =>
      if s == y && lag == 0 then Ok(Normal(1, None, ops))
      else Ok(Normal(0, Some(Var(s, if s.kind == Parameter then 0 else lag)), ops))
    case Un(op, arg) =>
      var res :- NormalizeEquation(c, arg, y, ops);
      NormalizeUnary(c, op, res)
    case Bin(op, l, r) =>
      var left :- NormalizeEquation(c, l, y, []);
      var right :- NormalizeEquation(c, r, y, []);
      NormalizeBinary(c, y, op, left, right, ops)
  }

  // ----- expressions without the variable

  predicate Free(e: Expr, y: Symbol) {
    (y, 0) !in NonNull(e)
  }

  /** An expression as it is written in a model: no power derivative and no equation inside. */
  predicate Written(e: Expr) {
    match e
    case Un(_, arg) => Written(arg)
    case Bin(op, l, r) => !op.PowerDeriv? && op != Equal && Written(l) && Written(r)
    case _ => true
  }

  /** An expression without the variable is rebuilt; where it is defined the rebuild does not end the program and keeps
      its value. (Leads and lags on parameters are dropped.) */
  lemma {:induction false} FreeRebuilt(c: Tree, e: Expr, y: Symbol, ops: seq<Undo>, p: Path, t: int)
    requires Laws(c.m) && Free(e, y) && y.kind == Endogenous && Written(e) && Value(c.m, e, p, t).Some?
    ensures NormalizeEquation(c, e, y, ops).Ok? && NormalizeEquation(c, e, y, ops).value.flag == 0
    ensures Value(c.m, NormalizeEquation(c, e, y, ops).value.expr.value, p, t) == Value(c.m, e, p, t)
  {
    hide AddFunction, AddOperator;
    match e
    case Un(op, arg) =>
      FreeRebuilt(c, arg, y, ops, p, t);
      AddFunctionValue(c, op, NormalizeEquation(c, arg, y, ops).value.expr.value, p, t);
    case Bin(op, l, r) =>
      FreeRebuilt(c, l, y, [], p, t);
      FreeRebuilt(c, r, y, [], p, t);
      var left, right := NormalizeEquation(c, l, y, []).value, NormalizeEquation(c, r, y, []).value;
      AddOperatorValue(c, op, left.expr.value, right.expr.value, p, t);
    case _ =>
  }

  lemma {:induction false} FreeStays(c: Tree, e: Expr, y: Symbol, ops: seq<Undo>)
    requires Free(e, y) && y.kind == Endogenous && Written(e) && NormalizeEquation(c, e, y, ops).Ok?
    ensures NormalizeEquation(c, e, y, ops).value.flag == 0
    ensures Free(NormalizeEquation(c, e, y, ops).value.expr.value, y)
  {
    hide AddFunction, AddOperator;
    match e
    case Un(op, arg) =>
      FreeStays(c, arg, y, ops);
      FunctionFree(c, op, NormalizeEquation(c, arg, y, ops).value.expr.value, y);
    case Bin(op, l, r) =>
      FreeStays(c, l, y, []);
      FreeStays(c, r, y, []);
      OperatorFree(c, op, NormalizeEquation(c, l, y, []).value.expr.value,
                   NormalizeEquation(c, r, y, []).value.expr.value, y);
    case _ =>
  }

  lemma FunctionFree(c: Tree, op: UnaryOp, a: Expr, y: Symbol)
    requires Free(a, y)
    ensures AddFunction(c, op, a).Ok? ==> Free(AddFunction(c, op, a).value, y)
  {
  }

  lemma BinaryOpFree(c: Tree, op: BinaryOp, a: Expr, b: Expr, y: Symbol)
    requires Free(a, y) && Free(b, y)
    ensures Free(AddBinaryOp(c, op, a, b), y)
  {
  }

  lemma OperatorFree(c: Tree, op: BinaryOp, a: Expr, b: Expr, y: Symbol)
    requires Free(a, y) && Free(b, y)
    ensures AddOperator(c, op, a, b).Ok? ==> Free(AddOperator(c, op, a, b).value, y)
  {
    hide AddBinaryOp;
    BinaryOpFree(c, op, a, b, y);
    BinaryOpFree(c, op, b, a, y);
    FunctionFree(c, Uminus, a, y);
    FunctionFree(c, Uminus, b, y);
    if IsUminus(b) {
      BinaryOpFree(c, Minus, a, b.arg, y);
      FunctionFree(c, Uminus, b.arg, y);
    }
  }

  // ----- undoing

  /** The variable occurs exactly once, below +, -, *, /, unary minus, exp, log and log10 only. */
  predicate Invertible(e: Expr, y: Symbol) {
    match e
    case Var(s, lag) => s == y && lag == 0
    case Un(op, arg) => (op == Uminus || op == Exp || op == Log || op == Log10) && Invertible(arg, y)
    case Bin(op, l, r) =>
      && (op == Plus || op == Minus || op == Times || op == Divide)
      && ((Invertible(l, y) && Free(r, y) && Written(r)) || (Free(l, y) && Written(l) && Invertible(r, y)))
    case _ => false
  }

  predicate NonZeroAt(m: Functions, e: Expr, p: Path, t: int) {
    Value(m, e, p, t).Some? && Value(m, e, p, t).value != 0.0
  }

  /** The operands next to the variable are defined, and not 0 where they multiply or divide. */
  predicate Regular(m: Functions, e: Expr, y: Symbol, p: Path, t: int) {
    match e
    case Un(_, arg) => Regular(m, arg, y, p, t)
    case Bin(op, l, r) =>
      var inLeft := !Free(l, y);
      var inner, other := if inLeft then l else r, if inLeft then r else l;
      && Regular(m, inner, y, p, t)
      && (if op == Times || op == Divide then NonZeroAt(m, other, p, t) else Value(m, other, p, t).Some?)
    case _ => true
  }

  predicate Inverse(m: Functions, op: UnaryOp, inv: UnaryOp, x: real, v: real) {
    m.unary(op, x) == Some(v) <==> m.unary(inv, v) == Some(x)
  }

  predicate PowerOfTen(m: Functions, x: real, v: real) {
    m.unary(Log10, x) == Some(v) <==> m.power(10.0, v) == Some(x)
  }

  /** exp and log, log10 and the powers of 10 are inverse to each other. */
  ghost predicate InverseLaws(m: Functions) {
    && (forall x, v :: Inverse(m, Exp, Log, x, v))
    && (forall x, v :: PowerOfTen(m, x, v))
  }

  /** The value of an operation still to be applied, at the value v of the other side. */
  function UndoValue(m: Functions, undo: Undo, v: real, p: Path, t: int): Option<real> {
    match undo.op
    case Unary(u) => UnaryValue(m, u, v)
    case Binary(b) =>
      match (undo.first, undo.second)
      case (Some(x), _) =>
        var w :- Value(m, x, p, t);
        BinaryValue(m, b, v, w)
      case (None, Some(x)) =>
        var w :- Value(m, x, p, t);
        BinaryValue(m, b, w, v)
      case (None, None) => None
  }

  function UndoAll(m: Functions, ops: seq<Undo>, v: Option<real>, p: Path, t: int): Option<real>
    decreases ops
  {
    if ops == [] || v.None? then v
    else UndoAll(m, ops[..|ops| - 1], UndoValue(m, ops[|ops| - 1], v.value, p, t), p, t)
  }

  lemma UndoLast(m: Functions, ops: seq<Undo>, last: Undo, v: real, p: Path, t: int)
    ensures UndoAll(m, ops + [last], Some(v), p, t) == UndoAll(m, ops, UndoValue(m, last, v, p, t), p, t)
  {
    assert (ops + [last])[..|ops|] == ops;
  }

  /** Equality of the value of an expression with a number. */
  predicate Hits(m: Functions, e: Expr, p: Path, t: int, v: real) {
    Value(m, e, p, t) == Some(v)
  }

  /** What the list of an invertible expression means: the expression has the value v exactly when undoing v gives the
      value of the variable. */
  ghost predicate Undoes(m: Functions, e: Expr, y: Symbol, ops: seq<Undo>, p: Path, t: int) {
    forall v :: Hits(m, e, p, t, v) <==> UndoAll(m, ops, Some(v), p, t) == Some(p(y, t))
  }

  lemma {:induction false} UndoAppend(m: Functions, a: seq<Undo>, b: seq<Undo>, v: Option<real>, p: Path, t: int)
    ensures UndoAll(m, a + b, v, p, t) == UndoAll(m, a, UndoAll(m, b, v, p, t), p, t)
    decreases b
  {
    hide UndoValue;
    if b == [] {
      assert a + b == a;
    } else if v.Some? {
      var init, last := b[..|b| - 1], b[|b| - 1];
      assert (a + b)[..|a + b| - 1] == a + init;
      UndoAppend(m, a, init, UndoValue(m, last, v.value, p, t), p, t);
    }
  }

  lemma UndoOne(m: Functions, undo: Undo, v: real, p: Path, t: int)
    ensures UndoAll(m, [undo], Some(v), p, t) == UndoValue(m, undo, v, p, t)
  {
    assert [undo][..0] == [];
    assert UndoAll(m, [], UndoValue(m, undo, v, p, t), p, t) == UndoValue(m, undo, v, p, t);
  }

  /** The operations pushed for a function invert it. */
  lemma InverseFunction(m: Functions, op: UnaryOp, x: real, v: real, p: Path, t: int)
    requires InverseLaws(m) && (op == Uminus || op == Exp || op == Log || op == Log10)
    ensures UnaryValue(m, op, x) == Some(v) <==> UndoAll(m, [InverseOf(op).value], Some(v), p, t) == Some(x)
  {
    UndoOne(m, InverseOf(op).value, v, p, t);
    assert Inverse(m, Exp, Log, x, v) && Inverse(m, Exp, Log, v, x) && PowerOfTen(m, x, v);
  }

  /** What the operations pushed for an operator do to a value. */
  function PushedValue(op: BinaryOp, left: bool, w: real, v: real): Option<real> {
    match op
    case Plus => Some(v - w)
    case Minus => Some(if left then v + w else -(v - w))
    case Times => if w == 0.0 then None else Some(v / w)
    case Divide => if left then Some(v * w) else if v == 0.0 then None else Some(w / v)
    case _ => None
  }

  lemma PushedValueIs(c: Tree, op: BinaryOp, left: bool, other: Expr, w: real, v: real, p: Path, t: int)
    requires op == Plus || op == Minus || op == Times || op == Divide
    requires Value(c.m, other, p, t) == Some(w)
    ensures UndoAll(c.m, PushedBy(c, op, left, other).value.value, Some(v), p, t) == PushedValue(op, left, w, v)
  {
    var more := PushedBy(c, op, left, other).value.value;
    if op == Minus && !left {
      var last := Undo(Binary(Minus), Some(other), None);
      assert more == [UndoOnly(Unary(Uminus))] + [last];
      UndoLast(c.m, [UndoOnly(Unary(Uminus))], last, v, p, t);
      UndoOne(c.m, UndoOnly(Unary(Uminus)), v - w, p, t);
    } else {
      UndoOne(c.m, more[0], v, p, t);
      assert more == [more[0]];
      SameOption(UndoValue(c.m, more[0], v, p, t), PushedValue(op, left, w, v));
    }
  }

  lemma SameOption(a: Option<real>, b: Option<real>)
    ensures a == b <==> (a.Some? <==> b.Some?) && (a.Some? && b.Some? ==> a.value == b.value)
  {
  }

  lemma TimesInverse(x: real, w: real, v: real)
    requires w != 0.0
    ensures x * w == v <==> v / w == x
    ensures w * x == v <==> v / w == x
  {
  }

  lemma QuotientInverse(x: real, w: real, v: real)
    requires w != 0.0
    ensures x / w == v <==> v * w == x
  {
  }

  lemma DividendInverse(w: real, x: real, v: real)
    requires w != 0.0
    ensures (x != 0.0 && w / x == v) <==> (v != 0.0 && w / v == x)
  {
    if x != 0.0 && w / x == v {
      assert v * x == w;
    }
    if v != 0.0 && w / v == x {
      assert x * v == w;
    }
  }

  lemma OptionIs(o: Option<real>, x: real)
    ensures o == Some(x) <==> o.Some? && o.value == x
  {
  }

  lemma ValueInverse(m: Functions, op: BinaryOp, left: bool, x: real, w: real, v: real)
    requires op == Plus || op == Minus || op == Times || op == Divide
    requires op == Times || op == Divide ==> w != 0.0
    ensures (if left then BinaryValue(m, op, x, w) else BinaryValue(m, op, w, x)) == Some(v)
            <==> PushedValue(op, left, w, v) == Some(x)
  {
    OptionIs(if left then BinaryValue(m, op, x, w) else BinaryValue(m, op, w, x), v);
    OptionIs(PushedValue(op, left, w, v), x);
    if op == Times {
      TimesInverse(x, w, v);
    } else if op == Divide && left {
      QuotientInverse(x, w, v);
    } else if op == Divide {
      DividendInverse(w, x, v);
    }
  }

  /** The operations pushed for an operator with the variable on the left or on the right invert it. */
  lemma InverseOperator(c: Tree, op: BinaryOp, left: bool, other: Expr, x: real, w: real, v: real, p: Path, t: int)
    requires op == Plus || op == Minus || op == Times || op == Divide
    requires Value(c.m, other, p, t) == Some(w) && (op == Times || op == Divide ==> w != 0.0)
    ensures SideValue(c.m, op, left, x, w) == Some(v)
            <==> UndoAll(c.m, PushedBy(c, op, left, other).value.value, Some(v), p, t) == Some(x)
  {
    hide BinaryValue, PushedValue, UndoAll;
    PushedValueIs(c, op, left, other, w, v, p, t);
    ValueInverse(c.m, op, left, x, w, v);
  }

  /** A constant exponent other than 0 and 1. */
  predicate Fraction(e: Expr) {
    e.Const? && e.v > 0.0 && e.v != 1.0
  }

  /** An operation of the list whose operand is defined, and not 0 where it multiplies or divides. */
  predicate GoodUndo(m: Functions, undo: Undo, p: Path, t: int) {
    match undo.op
    case Unary(u) => u == Uminus || u == Exp || u == Log
    case Binary(Plus) => undo.second.None? && undo.first.Some? && Value(m, undo.first.value, p, t).Some?
    case Binary(Minus) => undo.second.None? && undo.first.Some? && Value(m, undo.first.value, p, t).Some?
    case Binary(Times) => undo.second.None? && undo.first.Some? && NonZeroAt(m, undo.first.value, p, t)
    case Binary(Divide) =>
      || (undo.second.None? && undo.first.Some? && NonZeroAt(m, undo.first.value, p, t))
      || (undo.first.None? && undo.second.Some? && NonZeroAt(m, undo.second.value, p, t))
    case Binary(Power) =>
      || (undo.first.None? && (undo.second == Some(TEN) || undo.second == Some(Two)))
      || (undo.second.None? && undo.first.Some? && Fraction(undo.first.value))
    case _ => false
  }

  ghost predicate GoodList(m: Functions, ops: seq<Undo>, p: Path, t: int) {
    forall i :: 0 <= i < |ops| ==> GoodUndo(m, ops[i], p, t)
  }

  ghost predicate FreeList(ops: seq<Undo>, y: Symbol) {
    forall i :: 0 <= i < |ops| ==> FreeUndo(ops[i], y)
  }

  predicate FreeUndo(undo: Undo, y: Symbol) {
    (undo.first.Some? ==> Free(undo.first.value, y)) && (undo.second.Some? ==> Free(undo.second.value, y))
  }

  lemma {:induction false} InvertibleNotFree(e: Expr, y: Symbol)
    requires Invertible(e, y)
    ensures !Free(e, y)
  {
    match e
    case Un(_, arg) => InvertibleNotFree(arg, y);
    case Bin(_, l, r) =>
      if Invertible(l, y) {
        InvertibleNotFree(l, y);
      } else {
        InvertibleNotFree(r, y);
      }
    case _ =>
  }

  lemma UndoesFunction(m: Functions, op: UnaryOp, arg: Expr, y: Symbol, ops: seq<Undo>, p: Path, t: int)
    requires InverseLaws(m) && (op == Uminus || op == Exp || op == Log || op == Log10) && Undoes(m, arg, y, ops, p, t)
    ensures Undoes(m, Un(op, arg), y, ops + [InverseOf(op).value], p, t)
  {
    hide UnaryValue, UndoValue;
    var undo := InverseOf(op).value;
    forall v ensures Hits(m, Un(op, arg), p, t, v)
                     <==> UndoAll(m, ops + [undo], Some(v), p, t) == Some(p(y, t)) {
      UndoAppend(m, ops, [undo], Some(v), p, t);
      var u := UndoAll(m, [undo], Some(v), p, t);
      if Value(m, arg, p, t).Some? {
        InverseFunction(m, op, Value(m, arg, p, t).value, v, p, t);
        assert Hits(m, arg, p, t, Value(m, arg, p, t).value);
      }
      if u.Some? {
        InverseFunction(m, op, u.value, v, p, t);
        assert Hits(m, arg, p, t, u.value) <==> UndoAll(m, ops, u, p, t) == Some(p(y, t));
      } else {
        assert UndoAll(m, ops, u, p, t) == None;
      }
    }
  }

  lemma NodeValue(m: Functions, op: BinaryOp, l: Expr, r: Expr, p: Path, t: int)
    ensures Value(m, Bin(op, l, r), p, t)
            == if Value(m, l, p, t).Some? && Value(m, r, p, t).Some?
               then BinaryValue(m, op, Value(m, l, p, t).value, Value(m, r, p, t).value) else None
  {
  }

  /** The operator on the value x of the side with the variable. */
  function SideValue(m: Functions, op: BinaryOp, left: bool, x: real, w: real): Option<real> {
    if left then BinaryValue(m, op, x, w) else BinaryValue(m, op, w, x)
  }

  function SideNode(op: BinaryOp, left: bool, inner: Expr, outer: Expr): Expr {
    if left then Bin(op, inner, outer) else Bin(op, outer, inner)
  }

  lemma UndoesOperator(c: Tree, op: BinaryOp, left: bool, inner: Expr, outer: Expr, other: Expr, y: Symbol,
                       ops: seq<Undo>, more: seq<Undo>, p: Path, t: int, w: real)
    requires op == Plus || op == Minus || op == Times || op == Divide
    requires Undoes(c.m, inner, y, ops, p, t) && PushedBy(c, op, left, other) == Ok(Some(more))
    requires Value(c.m, outer, p, t) == Some(w) && Value(c.m, other, p, t) == Some(w)
    requires op == Times || op == Divide ==> w != 0.0
    ensures Undoes(c.m, SideNode(op, left, inner, outer), y, ops + more, p, t)
  {
    hide BinaryValue, UndoValue, PushedBy, Value, UndoAll;
    var e := SideNode(op, left, inner, outer);
    NodeValue(c.m, op, e.left, e.right, p, t);
    forall v ensures Hits(c.m, e, p, t, v) <==> UndoAll(c.m, ops + more, Some(v), p, t) == Some(p(y, t)) {
      UndoAppend(c.m, ops, more, Some(v), p, t);
      var u := UndoAll(c.m, more, Some(v), p, t);
      if Value(c.m, inner, p, t).Some? {
        var x := Value(c.m, inner, p, t).value;
        InverseOperator(c, op, left, other, x, w, v, p, t);
        assert Hits(c.m, inner, p, t, x);
      }
      if u.Some? {
        InverseOperator(c, op, left, other, u.value, w, v, p, t);
        assert Hits(c.m, inner, p, t, u.value) <==> UndoAll(c.m, ops, u, p, t) == Some(p(y, t));
      } else {
        UndoNone(c.m, ops, p, t);
      }
    }
  }

  lemma PushedGood(c: Tree, op: BinaryOp, left: bool, other: Expr, y: Symbol, p: Path, t: int)
    requires op == Plus || op == Minus || op == Times || op == Divide
    requires if op == Times || op == Divide then NonZeroAt(c.m, other, p, t) else Value(c.m, other, p, t).Some?
    requires Free(other, y)
    ensures PushedBy(c, op, left, other).Ok? && PushedBy(c, op, left, other).value.Some?
    ensures GoodList(c.m, PushedBy(c, op, left, other).value.value, p, t)
    ensures FreeList(PushedBy(c, op, left, other).value.value, y)
  {
  }

  /** The list collected on the way to the variable undoes the expression, where the operands are regular. */
  lemma {:induction false} Collected(c: Tree, e: Expr, y: Symbol, p: Path, t: int)
    requires Laws(c.m) && InverseLaws(c.m) && y.kind == Endogenous && Invertible(e, y) && Regular(c.m, e, y, p, t)
    ensures NormalizeEquation(c, e, y, []).Ok?
    ensures NormalizeEquation(c, e, y, []) == Ok(Normal(1, None, NormalizeEquation(c, e, y, []).value.ops))
    ensures var ops := NormalizeEquation(c, e, y, []).value.ops;
            Undoes(c.m, e, y, ops, p, t) && GoodList(c.m, ops, p, t) && FreeList(ops, y)
  {
    hide Undoes, GoodUndo, FreeUndo, PushedBy;
    match e
    case Var(s, lag) => CollectedVariable(c, y, p, t);
    case Un(op, arg) =>
      Collected(c, arg, y, p, t);
      var ops := NormalizeEquation(c, arg, y, []).value.ops;
      UndoesFunction(c.m, op, arg, y, ops, p, t);
      InverseGood(c.m, op, y, p, t);
    case Bin(op, l, r) =>
      if Invertible(l, y) {
        InvertibleNotFree(l, y);
      } else {
        InvertibleNotFree(r, y);
      }
      var left := !Free(l, y);
      var inner, outer := if left then l else r, if left then r else l;
      Collected(c, inner, y, p, t);
      FreeRebuilt(c, outer, y, [], p, t);
      FreeStays(c, outer, y, []);
      var ops, other := NormalizeEquation(c, inner, y, []).value.ops, NormalizeEquation(c, outer, y, []).value.expr.value;
      PushedGood(c, op, left, other, y, p, t);
      var more := PushedBy(c, op, left, other).value.value;
      UndoesOperator(c, op, left, inner, outer, other, y, ops, more, p, t, Value(c.m, outer, p, t).value);
  }

  lemma CollectedVariable(c: Tree, y: Symbol, p: Path, t: int)
    requires y.kind == Endogenous
    ensures NormalizeEquation(c, Var(y, 0), y, []) == Ok(Normal(1, None, [])) && Undoes(c.m, Var(y, 0), y, [], p, t)
  {
  }

  lemma InverseGood(m: Functions, op: UnaryOp, y: Symbol, p: Path, t: int)
    requires op == Uminus || op == Exp || op == Log || op == Log10
    ensures GoodUndo(m, InverseOf(op).value, p, t) && FreeUndo(InverseOf(op).value, y)
  {
  }

  // ----- applying the list

  /** Applying one operation to a node gives a node with the value of the operation on its value; the program ends only
      where the operation is undefined. */
  lemma ComputeExact(c: Tree, a: Expr, undo: Undo, p: Path, t: int)
    requires Laws(c.m) && GoodUndo(c.m, undo, p, t)
    ensures var v := Value(c.m, a, p, t);
            var u := if v.Some? then UndoValue(c.m, undo, v.value, p, t) else None;
            match ComputeRHS(c, a, undo)
            case Ok(r) => Value(c.m, r, p, t) == u
            case Exit => u == None
  {
    match undo.op
    case Unary(u) => FunctionExact(c, u, a, p, t);
    case Binary(b) =>
      if b == Power {
        if undo.first.None? {
          BaseExact(c, undo.second.value, a, p, t);
        } else {
          ExponentExact(c, a, undo.first.value, p, t);
        }
      } else {
        OperatorExact(c, b, a, undo, p, t);
      }
  }

  lemma FunctionExact(c: Tree, u: UnaryOp, a: Expr, p: Path, t: int)
    requires Laws(c.m) && (u == Uminus || u == Exp || u == Log)
    ensures match AddFunction(c, u, a)
            case Ok(r) => Value(c.m, r, p, t) == Value(c.m, Un(u, a), p, t)
            case Exit => Value(c.m, Un(u, a), p, t) == None
  {
    AddFunctionValue(c, u, a, p, t);
    AddUnaryOpValue(c, u, a, p, t);
    assert ValueAt(c.m, Log, 1.0, 0.0) && ValueAt(c.m, Exp, 0.0, 1.0);
  }

  lemma BaseExact(c: Tree, base: Expr, a: Expr, p: Path, t: int)
    requires Laws(c.m) && (base == TEN || base == Two)
    ensures Value(c.m, AddPower(c, base, a), p, t) == Value(c.m, Bin(Power, base, a), p, t)
  {
    AddBinaryOpValue(c, Power, base, a, p, t);
    AddOperatorValue(c, Power, base, a, p, t);
    assert c.m.power(base.v, 0.0) == Some(1.0) && c.m.power(base.v, 1.0) == Some(base.v);
  }

  lemma ExponentExact(c: Tree, a: Expr, q: Expr, p: Path, t: int)
    requires Laws(c.m) && Fraction(q)
    ensures Value(c.m, AddPower(c, a, q), p, t) == Value(c.m, Bin(Power, a, q), p, t)
  {
    AddBinaryOpValue(c, Power, a, q, p, t);
    AddOperatorValue(c, Power, a, q, p, t);
    assert c.m.power(0.0, q.v) == Some(0.0) && c.m.power(1.0, q.v) == Some(1.0);
  }

  lemma OperatorExact(c: Tree, b: BinaryOp, a: Expr, undo: Undo, p: Path, t: int)
    requires Laws(c.m) && undo.op == Binary(b) && b != Power && GoodUndo(c.m, undo, p, t)
    ensures var v := Value(c.m, a, p, t);
            var u := if v.Some? then UndoValue(c.m, undo, v.value, p, t) else None;
            match ComputeRHS(c, a, undo)
            case Ok(r) => Value(c.m, r, p, t) == u
            case Exit => u == None
  {
    match b
    case Plus => PlusExact(c, a, undo.first.value, p, t);
    case Minus => MinusExact(c, a, undo.first.value, p, t);
    case Times => TimesExact(c, a, undo.first.value, p, t);
    case Divide =>
      if undo.first.Some? {
        DivideExact(c, a, undo.first.value, p, t);
      } else {
        DivideExact(c, undo.second.value, a, p, t);
      }
  }

  lemma MinusExact(c: Tree, a: Expr, b: Expr, p: Path, t: int)
    requires Value(c.m, b, p, t).Some?
    ensures Value(c.m, AddMinus(c, a, b), p, t) == Value(c.m, Bin(Minus, a, b), p, t)
  {
    AddOperatorValue(c, Minus, a, b, p, t);
  }

  lemma PlusExact(c: Tree, a: Expr, b: Expr, p: Path, t: int)
    requires Value(c.m, b, p, t).Some?
    ensures Value(c.m, AddPlus(c, a, b), p, t) == Value(c.m, Bin(Plus, a, b), p, t)
  {
    AddOperatorValue(c, Plus, a, b, p, t);
  }

  lemma TimesExact(c: Tree, a: Expr, b: Expr, p: Path, t: int)
    requires NonZeroAt(c.m, b, p, t)
    ensures Value(c.m, AddTimes(c, a, b), p, t) == Value(c.m, Bin(Times, a, b), p, t)
  {
    AddOperatorValue(c, Times, a, b, p, t);
  }

  /** A quotient of which one side is defined and not 0. */
  lemma DivideExact(c: Tree, a: Expr, b: Expr, p: Path, t: int)
    requires NonZeroAt(c.m, b, p, t) || NonZeroAt(c.m, a, p, t)
    ensures match AddDivide(c, a, b)
            case Ok(r) => Value(c.m, r, p, t) == Value(c.m, Bin(Divide, a, b), p, t)
            case Exit => Value(c.m, Bin(Divide, a, b), p, t) == None
  {
    AddOperatorValue(c, Divide, a, b, p, t);
  }

  lemma {:induction false} ApplyExact(c: Tree, a: Expr, ops: seq<Undo>, p: Path, t: int)
    requires Laws(c.m) && GoodList(c.m, ops, p, t)
    ensures match ApplyAll(c, a, ops)
            case Ok(r) => Value(c.m, r, p, t) == UndoAll(c.m, ops, Value(c.m, a, p, t), p, t)
            case Exit => UndoAll(c.m, ops, Value(c.m, a, p, t), p, t) == None
    decreases ops
  {
    hide ComputeRHS, UndoValue, GoodUndo;
    if ops != [] {
      var init, last := ops[..|ops| - 1], ops[|ops| - 1];
      ComputeExact(c, a, last, p, t);
      var b := ComputeRHS(c, a, last);
      if b.Ok? {
        ApplyExact(c, b.value, init, p, t);
        UndoNone(c.m, init, p, t);
      } else {
        UndoNone(c.m, init, p, t);
      }
    }
  }

  lemma UndoNone(m: Functions, ops: seq<Undo>, p: Path, t: int)
    ensures UndoAll(m, ops, None, p, t) == None
  {
  }

  lemma {:induction false} ApplyFree(c: Tree, a: Expr, ops: seq<Undo>, y: Symbol)
    requires Free(a, y) && FreeList(ops, y) && ApplyAll(c, a, ops).Ok?
    ensures Free(ApplyAll(c, a, ops).value, y)
    decreases ops
  {
    hide ComputeRHS;
    if ops != [] {
      ComputeFree(c, a, ops[|ops| - 1], y);
      ApplyFree(c, ComputeRHS(c, a, ops[|ops| - 1]).value, ops[..|ops| - 1], y);
    }
  }

  lemma ComputeFree(c: Tree, a: Expr, undo: Undo, y: Symbol)
    requires Free(a, y) && FreeUndo(undo, y)
    ensures ComputeRHS(c, a, undo).Ok? ==> Free(ComputeRHS(c, a, undo).value, y)
  {
    hide AddFunction, AddOperator;
    match undo.op
    case Unary(u) => FunctionFree(c, u, a, y);
    case Binary(b) =>
      if undo.first.Some? {
        OperatorFree(c, b, a, undo.first.value, y);
      }
      if undo.second.Some? {
        OperatorFree(c, b, undo.second.value, a, y);
      }
      if undo.first.Some? && undo.second.Some? {
        OperatorFree(c, b, undo.first.value, undo.second.value, y);
      }
  }

  /** Normalization preserves solutions: when the variable occurs once, on one side, below invertible operators only, the
      result is an equation that sets the variable equal to an expression without it, and it holds exactly when the
      original one does, wherever the operands next to the variable are regular and the other side is defined; the
      program ends only where the original equation does not hold. */
  lemma NormalizationCorrect(c: Tree, with: Expr, other: Expr, left: bool, y: Symbol, p: Path, t: int)
    requires Laws(c.m) && InverseLaws(c.m) && y.kind == Endogenous
    requires Invertible(with, y) && Free(other, y) && Written(other)
    requires Regular(c.m, with, y, p, t) && Value(c.m, other, p, t).Some?
    ensures var eq := if left then Bin(Equal, with, other) else Bin(Equal, other, with);
            match NormalizeEquation(c, eq, y, [])
            case Exit => !Holds(c.m, eq, p, t)
            case Ok(n) =>
              && n.flag == 0 && n.expr.Some? && n.expr.value.Bin? && n.expr.value.bop == Equal
              && n.expr.value.left == Var(y, 0) && Free(n.expr.value.right, y)
              && (Holds(c.m, n.expr.value, p, t) <==> Holds(c.m, eq, p, t))
  {
    hide Regular, Invertible, Laws, InverseLaws, AddFunction, AddOperator;
    var eq := if left then Bin(Equal, with, other) else Bin(Equal, other, with);
    Collected(c, with, y, p, t);
    FreeRebuilt(c, other, y, [], p, t);
    FreeStays(c, other, y, []);
    var ops, rhs := NormalizeEquation(c, with, y, []).value.ops, NormalizeEquation(c, other, y, []).value.expr.value;
    var v := Value(c.m, other, p, t).value;
    ApplyExact(c, rhs, ops, p, t);
    assert Hits(c.m, with, p, t, v) <==> UndoAll(c.m, ops, Some(v), p, t) == Some(p(y, t));
    var g := ApplyAll(c, rhs, ops);
    assert NormalizeEquation(c, eq, y, [])
           == if g.Ok? then Ok(Normal(0, Some(AddBinaryOp(c, Equal, Var(y, 0), g.value)), [])) else Exit;
    if g.Ok? {
      ApplyFree(c, rhs, ops, y);
      EquationNode(c, y, g.value);
    }
  }

  lemma EquationNode(c: Tree, y: Symbol, g: Expr)
    ensures AddBinaryOp(c, Equal, Var(y, 0), g) == Bin(Equal, Var(y, 0), g)
  {
  }

  /** Applying the list to a gives a node of value u, or ends the program where u is undefined. */
  predicate Applied(c: Tree, a: Expr, ops: seq<Undo>, p: Path, t: int, u: Option<real>) {
    match ApplyAll(c, a, ops)
    case Ok(r) => Value(c.m, r, p, t) == u
    case Exit => u == None
  }

  lemma {:induction false} ApplyAppend(c: Tree, a: Expr, ops: seq<Undo>, more: seq<Undo>)
    ensures ApplyAll(c, a, ops + more)
            == match ApplyAll(c, a, more)
               case Ok(b) => ApplyAll(c, b, ops)
               case Exit => Exit
    decreases more
  {
    hide ComputeRHS;
    if more == [] {
      assert ops + more == ops;
    } else {
      var init, last := more[..|more| - 1], more[|more| - 1];
      assert (ops + more)[..|ops + more| - 1] == ops + init;
      var next := ComputeRHS(c, a, last);
      if next.Ok? {
        ApplyAppend(c, next.value, ops, init);
      }
    }
  }

  /** The rebuilt side of an equation, without the variable. */
  predicate RebuiltAs(c: Tree, e: Expr, y: Symbol, r: Expr) {
    var n := NormalizeEquation(c, e, y, []);
    n.Ok? && n.value.flag == 0 && n.value.expr == Some(r)
  }

  /** An equation of which one side is anything around an invertible expression e: when `more` is what was recorded for
      the part around e, the result is an equation for the variable that holds exactly when e has the value that applying
      `more` gives. */
  lemma ClosedMeaning(c: Tree, with: Expr, e: Expr, other: Expr, left: bool, y: Symbol, ops: seq<Undo>, more: seq<Undo>,
                      p: Path, t: int, rhs: Expr, u: Option<real>)
    requires Laws(c.m) && y.kind == Endogenous && Undoes(c.m, e, y, ops, p, t) && GoodList(c.m, ops, p, t)
    requires NormalizeEquation(c, with, y, []) == Ok(Normal(1, None, ops + more))
    requires RebuiltAs(c, other, y, rhs) && Applied(c, rhs, more, p, t, u)
    ensures var hit := u.Some? && Hits(c.m, e, p, t, u.value);
            match NormalizeEquation(c, EquationOf(with, other, left), y, [])
            case Exit => !hit
            case Ok(n) => n.expr.Some? && (Holds(c.m, n.expr.value, p, t) <==> hit)
  {
    hide Laws, AddFunction, AddOperator, GoodList, Value, UndoAll;
    ApplyAppend(c, rhs, ops, more);
    if u.Some? {
      assert Hits(c.m, e, p, t, u.value) <==> UndoAll(c.m, ops, u, p, t) == Some(p(y, t));
    } else {
      UndoNone(c.m, ops, p, t);
    }
    var inner := ApplyAll(c, rhs, more);
    if inner.Ok? {
      ApplyExact(c, inner.value, ops, p, t);
    }
    var g := ApplyAll(c, rhs, ops + more);
    assert NormalizeEquation(c, EquationOf(with, other, left), y, [])
           == if g.Ok? then Ok(Normal(0, Some(AddBinaryOp(c, Equal, Var(y, 0), g.value)), [])) else Exit;
    if g.Ok? {
      EquationNode(c, y, g.value);
      VariableEquals(c.m, y, g.value, p, t);
    }
  }

  function EquationOf(with: Expr, other: Expr, left: bool): Expr {
    if left then Bin(Equal, with, other) else Bin(Equal, other, with)
  }

  lemma VariableEquals(m: Functions, y: Symbol, g: Expr, p: Path, t: int)
    requires y.kind == Endogenous
    ensures Holds(m, Bin(Equal, Var(y, 0), g), p, t) <==> Value(m, g, p, t) == Some(p(y, t))
  {
  }
}
