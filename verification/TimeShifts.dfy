/** Leads and lags: shifting an expression in time, and the largest lead and lag it contains. */
module TimeShifts {
  import opened Results
  import opened Expressions
  import opened Constructors

  /** The expression n periods earlier, rebuilt through the constructors. */
  function DecreaseLeadsLags(c: Tree, e: Expr, n: int): Outcome<Expr> {
    match e
    case Var(s, lag) => if s.kind == Parameter then Ok(e) else Ok(Var(s, lag - n))
    case Un(op, arg) =>
      var a :- DecreaseLeadsLags(c, arg, n);
      AddFunction(c, op, a)
    case Bin(op, l, r) =>
      var a :- DecreaseLeadsLags(c, l, n);
      var b :- DecreaseLeadsLags(c, r, n);
      AddOperator(c, op, a, b)
    case _ => Ok(e)
  }

  /** The operation, if the constructor drops it. */
  function Dropped(op: BinaryOp, a: Expr, b: Expr): seq<Expr> {
    if Drops(op, a, b) then [Bin(op, a, b)] else []
  }

  /** The operations that the constructor calls of a shift drop. */
  function ShiftDrops(c: Tree, e: Expr, n: int): seq<Expr> {
    match e
    case Un(_, arg) => ShiftDrops(c, arg, n)
    case Bin(op, l, r) =>
      var a, b := DecreaseLeadsLags(c, l, n), DecreaseLeadsLags(c, r, n);
      ShiftDrops(c, l, n) + ShiftDrops(c, r, n) + if a.Ok? && b.Ok? then Dropped(op, a.value, b.value) else []
    case _ => []
  }

  predicate AllDefined(m: Functions, es: seq<Expr>, p: Path, t: int) {
    forall i :: 0 <= i < |es| ==> Defined(m, es[i], p, t)
  }

  lemma AllDefinedParts(m: Functions, es: seq<Expr>, fs: seq<Expr>, p: Path, t: int)
    ensures AllDefined(m, es + fs, p, t) <==> AllDefined(m, es, p, t) && AllDefined(m, fs, p, t)
  {
    if AllDefined(m, es + fs, p, t) {
      forall i | 0 <= i < |es| ensures Defined(m, es[i], p, t) {
        assert es[i] == (es + fs)[i];
      }
      forall i | 0 <= i < |fs| ensures Defined(m, fs[i], p, t) {
        assert fs[i] == (es + fs)[|es| + i];
      }
    }
  }

  /** The operation has the value of the constructor's result where it is not dropped undefined. */
  lemma OperatorDropped(c: Tree, op: BinaryOp, a: Expr, b: Expr, p: Path, t: int)
    requires Laws(c.m)
    ensures match AddOperator(c, op, a, b)
            case Ok(r) => Value(c.m, Bin(op, a, b), p, t) ==
                          if AllDefined(c.m, Dropped(op, a, b), p, t) then Value(c.m, r, p, t) else None
            case Exit => Value(c.m, Bin(op, a, b), p, t) == None
  {
    AddOperatorValue(c, op, a, b, p, t);
    if Drops(op, a, b) {
      assert Dropped(op, a, b)[0] == Bin(op, a, b);
    }
  }

  /** The shifted expression has at date t the value of the expression at date t - n, wherever that is
      defined; that is exactly where both it and everything dropped are defined. The rebuild ends the
      program only where the expression is defined nowhere. */
  lemma {:induction false} ShiftValue(c: Tree, e: Expr, n: int, p: Path, t: int)
    requires Laws(c.m)
    ensures match DecreaseLeadsLags(c, e, n)
            case Ok(r) => Value(c.m, e, p, t - n) ==
                          if AllDefined(c.m, ShiftDrops(c, e, n), p, t) then Value(c.m, r, p, t) else None
            case Exit => Value(c.m, e, p, t - n) == None
  {
    match e
    case Un(op, arg) =>
      ShiftValue(c, arg, n, p, t);
      var a := DecreaseLeadsLags(c, arg, n);
      if a.Ok? {
        AddFunctionValue(c, op, a.value, p, t);
      }
    case Bin(op, l, r) =>
      ShiftValue(c, l, n, p, t);
      ShiftValue(c, r, n, p, t);
      var a, b := DecreaseLeadsLags(c, l, n), DecreaseLeadsLags(c, r, n);
      if a.Ok? && b.Ok? {
        OperatorDropped(c, op, a.value, b.value, p, t);
        AllDefinedParts(c.m, ShiftDrops(c, l, n), ShiftDrops(c, r, n), p, t);
        AllDefinedParts(c.m, ShiftDrops(c, l, n) + ShiftDrops(c, r, n), Dropped(op, a.value, b.value), p, t);
      }
    case _ =>
  }

  // ----- symbols, leads and lags of an expression

  /** All symbols have an identifier below n. */
  predicate Below(e: Expr, n: nat) {
    match e
    case Var(s, _) => s.id < n
    case Un(_, arg) => Below(arg, n)
    case Bin(_, l, r) => Below(l, n) && Below(r, n)
    case _ => true
  }

  function Larger(a: int, b: int): int {
    if a < b then b else a
  }

  /** The largest lead of the symbols of a kind, 0 if there is none. */
  function MaxLead(k: Kind, e: Expr): (lead: nat) {
    match e
    case Var(s, lag) => if s.kind == k then Larger(lag, 0) else 0
    case Un(_, arg) => MaxLead(k, arg)
    case Bin(_, l, r) => Larger(MaxLead(k, l), MaxLead(k, r))
    case _ => 0
  }

  /** The largest lag of the symbols of a kind, 0 if there is none. */
  function MaxLag(k: Kind, e: Expr): (lag: nat) {
    match e
    case Var(s, lag) => if s.kind == k then Larger(-lag, 0) else 0
    case Un(_, arg) => MaxLag(k, arg)
    case Bin(_, l, r) => Larger(MaxLag(k, l), MaxLag(k, r))
    case _ => 0
  }

  /** What every constructor keeps: symbols below n, and bounds on the leads and lags of a kind. */
  predicate Fits(e: Expr, n: nat, k: Kind, lead: nat, lag: nat) {
    Below(e, n) && MaxLead(k, e) <= lead && MaxLag(k, e) <= lag
  }

  lemma ConstantFits(v: Option<real>, n: nat, k: Kind, lead: nat, lag: nat)
    ensures Fits(AddPossiblyNegativeConstant(v), n, k, lead, lag)
  {
  }

  lemma AddFunctionFits(c: Tree, op: UnaryOp, a: Expr, n: nat, k: Kind, lead: nat, lag: nat)
    requires Fits(a, n, k, lead, lag)
    ensures AddFunction(c, op, a).Ok? ==> Fits(AddFunction(c, op, a).value, n, k, lead, lag)
  {
    ConstantFits(Value(c.m, Un(op, a), Nowhere, 0), n, k, lead, lag);
  }

  lemma AddBinaryOpFits(c: Tree, op: BinaryOp, a: Expr, b: Expr, n: nat, k: Kind, lead: nat, lag: nat)
    requires Fits(a, n, k, lead, lag) && Fits(b, n, k, lead, lag)
    ensures Fits(AddBinaryOp(c, op, a, b), n, k, lead, lag)
  {
    ConstantFits(Value(c.m, Bin(op, a, b), Nowhere, 0), n, k, lead, lag);
  }

  lemma AddOperatorFits(c: Tree, op: BinaryOp, a: Expr, b: Expr, n: nat, k: Kind, lead: nat, lag: nat)
    requires Fits(a, n, k, lead, lag) && Fits(b, n, k, lead, lag)
    ensures AddOperator(c, op, a, b).Ok? ==> Fits(AddOperator(c, op, a, b).value, n, k, lead, lag)
  {
    AddFunctionFits(c, Uminus, a, n, k, lead, lag);
    AddFunctionFits(c, Uminus, b, n, k, lead, lag);
    AddBinaryOpFits(c, op, a, b, n, k, lead, lag);
    AddBinaryOpFits(c, op, b, a, n, k, lead, lag);
    if IsUminus(b) {
      AddFunctionFits(c, Uminus, b.arg, n, k, lead, lag);
      AddBinaryOpFits(c, Minus, a, b.arg, n, k, lead, lag);
    }
  }

  /** Shifting back by n lowers the leads and raises the lags by n. */
  lemma {:induction false} ShiftFits(c: Tree, e: Expr, d: int, n: nat, k: Kind, lead: int, lag: int)
    requires Below(e, n) && lead >= 0 && lag >= 0 && k != Parameter
    requires MaxLead(k, e) - d <= lead && MaxLag(k, e) + d <= lag
    ensures DecreaseLeadsLags(c, e, d).Ok? ==> Fits(DecreaseLeadsLags(c, e, d).value, n, k, lead, lag)
  {
    match e
    case Un(op, arg) =>
      ShiftFits(c, arg, d, n, k, lead, lag);
      var a := DecreaseLeadsLags(c, arg, d);
      if a.Ok? {
        AddFunctionFits(c, op, a.value, n, k, lead, lag);
      }
    case Bin(op, l, r) =>
      ShiftFits(c, l, d, n, k, lead, lag);
      ShiftFits(c, r, d, n, k, lead, lag);
      var a, b := DecreaseLeadsLags(c, l, d), DecreaseLeadsLags(c, r, d);
      if a.Ok? && b.Ok? {
        AddOperatorFits(c, op, a.value, b.value, n, k, lead, lag);
      }
    case _ =>
  }

  /** Where the expression is undefined the rebuild may still define it: the constructors build both
      y - x and y + (-x) (for y + (-x) the node -x is the later one), which coincide after a shift, so
      that their quotient, undefined where y = x, becomes the node One. */
  lemma ShiftMayDefine(c: Tree, y: Symbol, x: Symbol, p: Path, t: int)
    requires y != x && y.kind == Endogenous && x.kind == Endogenous
    requires c.later(Un(Uminus, Var(x, 0)), Var(y, 0)) && p(y, t) == p(x, t)
    ensures var a, b := AddMinus(c, Var(y, 0), Var(x, 0)), AddPlus(c, Un(Uminus, Var(x, 0)), Var(y, 0));
            && AddDivide(c, a, b) == Ok(Bin(Divide, a, b))
            && Value(c.m, Bin(Divide, a, b), p, t) == None
            && DecreaseLeadsLags(c, Bin(Divide, a, b), 0) == Ok(One)
  {
    var a, b := AddMinus(c, Var(y, 0), Var(x, 0)), AddPlus(c, Un(Uminus, Var(x, 0)), Var(y, 0));
    assert !Closed(Var(y, 0)) && !Closed(Bin(Minus, Var(y, 0), Var(x, 0)));
    assert !Closed(Bin(Plus, Var(y, 0), Un(Uminus, Var(x, 0))));
    assert a == Bin(Minus, Var(y, 0), Var(x, 0)) && b == Bin(Plus, Var(y, 0), Un(Uminus, Var(x, 0)));
    assert DecreaseLeadsLags(c, a, 0) == Ok(a);
    assert DecreaseLeadsLags(c, Un(Uminus, Var(x, 0)), 0) == Ok(Un(Uminus, Var(x, 0)));
    assert DecreaseLeadsLags(c, b, 0) == Ok(a);
    assert Value(c.m, b, p, t) == Some(0.0) by {
      assert Value(c.m, Un(Uminus, Var(x, 0)), p, t) == Some(-p(x, t));
    }
  }
}
