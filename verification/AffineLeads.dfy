/** Where auxiliary variables may stand: expressions in which chosen symbols occur in an affine way, so that their
    conditional expectation can be taken inside. */
module AffineLeads {
  import opened Results
  import opened Expressions
  import opened Constructors
  import opened TimeShifts

  /** The symbols from `base` on: all their occurrences, or those at a lead only. */
  datatype Marks = Marks(base: nat, leads: bool) {
    predicate Has(s: Symbol, lag: int) {
      s.id >= base && (leads ==> lag >= 1)
    }
  }

  /** No marked occurrence. */
  predicate Free(e: Expr, u: Marks) {
    match e
    case Var(s, lag) => !u.Has(s, lag)
    case Un(_, arg) => Free(arg, u)
    case Bin(_, l, r) => Free(l, u) && Free(r, u)
    case _ => true
  }

  /** No lead of a variable. */
  predicate LeadFree(e: Expr) {
    MaxLead(Endogenous, e) == 0 && MaxLead(Exogenous, e) == 0
  }

  /** What may stand as the other factor or as the divisor. */
  predicate Coefficient(e: Expr, u: Marks) {
    Free(e, u) && LeadFree(e)
  }

  /** Every marked occurrence stands affinely: only below sides of an equation, terms of a sum or difference, negations,
      factors and dividends, where the other factor and the divisor have no marked occurrence and no lead. */
  predicate Affine(e: Expr, u: Marks) {
    || Free(e, u)
    || match e
       case Var(_, _) => true
       case Un(op, arg) => op == Uminus && Affine(arg, u)
       case Bin(Plus, l, r) => Affine(l, u) && Affine(r, u)
       case Bin(Minus, l, r) => Affine(l, u) && Affine(r, u)
       case Bin(Equal, l, r) => Affine(l, u) && Affine(r, u)
       case Bin(Times, l, r) => (Affine(l, u) && Coefficient(r, u)) || (Coefficient(l, u) && Affine(r, u))
       case Bin(Divide, l, r) => Affine(l, u) && Coefficient(r, u)
       case _ => false
  }

  predicate AllAffine(es: seq<Expr>, u: Marks) {
    forall i :: 0 <= i < |es| ==> Affine(es[i], u)
  }

  // ----- free expressions

  lemma {:induction false} BelowFree(e: Expr, u: Marks)
    requires Below(e, u.base)
    ensures Free(e, u)
  {
    match e
    case Un(_, arg) => BelowFree(arg, u);
    case Bin(_, l, r) =>
      BelowFree(l, u);
      BelowFree(r, u);
    case _ =>
  }

  lemma ConstantFree(v: Option<real>, u: Marks)
    ensures Free(AddPossiblyNegativeConstant(v), u)
  {
  }

  lemma FunctionFree(c: Tree, op: UnaryOp, a: Expr, u: Marks)
    requires Free(a, u) && AddFunction(c, op, a).Ok?
    ensures Free(AddFunction(c, op, a).value, u)
  {
    ConstantFree(Value(c.m, Un(op, a), Nowhere, 0), u);
  }

  lemma NodeFree(c: Tree, op: BinaryOp, a: Expr, b: Expr, u: Marks)
    requires Free(a, u) && Free(b, u)
    ensures Free(AddBinaryOp(c, op, a, b), u)
  {
    ConstantFree(Value(c.m, Bin(op, a, b), Nowhere, 0), u);
  }

  lemma OperatorFree(c: Tree, op: BinaryOp, a: Expr, b: Expr, u: Marks)
    requires Free(a, u) && Free(b, u) && AddOperator(c, op, a, b).Ok?
    ensures Free(AddOperator(c, op, a, b).value, u)
  {
    FunctionFree(c, Uminus, a, u);
    FunctionFree(c, Uminus, b, u);
    NodeFree(c, op, a, b, u);
    NodeFree(c, op, b, a, u);
    if IsUminus(b) {
      FunctionFree(c, Uminus, b.arg, u);
      NodeFree(c, Minus, a, b.arg, u);
    }
  }

  // ----- affine expressions

  lemma NegationAffine(c: Tree, a: Expr, u: Marks)
    requires Affine(a, u)
    ensures Affine(AddUMinus(c, a), u)
  {
    ConstantFree(Value(c.m, Un(Uminus, a), Nowhere, 0), u);
  }

  lemma NodeAffine(c: Tree, op: BinaryOp, a: Expr, b: Expr, u: Marks)
    requires Affine(Bin(op, a, b), u)
    ensures Affine(AddBinaryOp(c, op, a, b), u)
  {
    ConstantFree(Value(c.m, Bin(op, a, b), Nowhere, 0), u);
  }

  lemma MinusAffine(c: Tree, a: Expr, b: Expr, u: Marks)
    requires Affine(a, u) && Affine(b, u)
    ensures Affine(AddMinus(c, a, b), u)
  {
    NegationAffine(c, b, u);
    NodeAffine(c, Minus, a, b, u);
  }

  lemma PlusAffine(c: Tree, a: Expr, b: Expr, u: Marks)
    requires Affine(a, u) && Affine(b, u)
    ensures Affine(AddPlus(c, a, b), u)
  {
    if IsUminus(b) {
      MinusAffine(c, a, b.arg, u);
    }
    NodeAffine(c, Plus, a, b, u);
    NodeAffine(c, Plus, b, a, u);
  }

  lemma TimesAffine(c: Tree, a: Expr, b: Expr, u: Marks)
    requires Affine(a, u) && Affine(b, u) && Affine(Bin(Times, a, b), u) && Affine(Bin(Times, b, a), u)
    ensures Affine(AddTimes(c, a, b), u)
  {
    NegationAffine(c, a, u);
    NegationAffine(c, b, u);
    NodeAffine(c, Times, a, b, u);
    NodeAffine(c, Times, b, a, u);
  }

  lemma {:induction false} AffineArguments(op: BinaryOp, a: Expr, b: Expr, u: Marks)
    requires Affine(Bin(op, a, b), u)
    ensures Affine(a, u) && Affine(b, u)
    ensures op == Times ==> Affine(Bin(op, b, a), u)
  {
  }

  /** A constructor keeps an affine node affine. */
  lemma OperatorAffine(c: Tree, op: BinaryOp, a: Expr, b: Expr, u: Marks)
    requires Affine(Bin(op, a, b), u) && AddOperator(c, op, a, b).Ok?
    ensures Affine(AddOperator(c, op, a, b).value, u)
  {
    AffineArguments(op, a, b, u);
    match op
    case Plus => PlusAffine(c, a, b, u);
    case Minus => MinusAffine(c, a, b, u);
    case Times => TimesAffine(c, a, b, u);
    case _ => NodeAffine(c, op, a, b, u);
  }

  // ----- the mean of two continuations

  function Mix(a: real, x: real, y: real): real {
    a * x + (1.0 - a) * y
  }

  ghost predicate MixedAt(u: Marks, a: real, p: Path, q: Path, r: Path, t: int, s: Symbol, lag: int) {
    var d := DateOf(s, lag, t);
    if u.Has(s, lag) then r(s, d) == Mix(a, p(s, d), q(s, d)) else p(s, d) == r(s, d) && q(s, d) == r(s, d)
  }

  /** Seen from date t, p and q differ in the marked occurrences only, and r is their mean with weights a and 1 - a. */
  ghost predicate Mixed(u: Marks, a: real, p: Path, q: Path, r: Path, t: int) {
    forall s, lag :: MixedAt(u, a, p, q, r, t, s, lag)
  }

  lemma {:induction false} FreeValue(m: Functions, e: Expr, u: Marks, a: real, p: Path, q: Path, r: Path, t: int)
    requires Free(e, u) && Mixed(u, a, p, q, r, t)
    ensures Value(m, e, p, t) == Value(m, e, r, t) && Value(m, e, q, t) == Value(m, e, r, t)
  {
    match e
    case Var(s, lag) => assert MixedAt(u, a, p, q, r, t, s, lag);
    case Un(_, arg) => FreeValue(m, arg, u, a, p, q, r, t);
    case Bin(_, l, w) =>
      FreeValue(m, l, u, a, p, q, r, t);
      FreeValue(m, w, u, a, p, q, r, t);
    case _ =>
  }

  lemma MixProduct(a: real, x: real, y: real, k: real)
    ensures Mix(a, x, y) * k == Mix(a, x * k, y * k)
    ensures k * Mix(a, x, y) == Mix(a, k * x, k * y)
    ensures k != 0.0 ==> Mix(a, x, y) / k == Mix(a, x / k, y / k)
    ensures Mix(a, k, k) == k
  {
    if k != 0.0 {
      var i := 1.0 / k;
      assert x / k == x * i && y / k == y * i && Mix(a, x, y) / k == Mix(a, x, y) * i;
      assert Mix(a, x, y) * i == Mix(a, x * i, y * i);
    }
  }

  lemma MixSum(a: real, x: real, y: real, v: real, w: real)
    ensures Mix(a, x, y) + Mix(a, v, w) == Mix(a, x + v, y + w)
    ensures Mix(a, x, y) - Mix(a, v, w) == Mix(a, x - v, y - w)
    ensures -Mix(a, x, y) == Mix(a, -x, -y)
  {
  }

  /** What an affine expression is for: its mean over two continuations is its value at the mean of the marked occurrences. */
  lemma {:induction false} AffineMean(m: Functions, e: Expr, u: Marks, a: real, p: Path, q: Path, r: Path, t: int)
    requires Affine(e, u) && Mixed(u, a, p, q, r, t)
    requires Value(m, e, p, t).Some? && Value(m, e, q, t).Some?
    ensures Value(m, e, r, t) == Some(Mix(a, Value(m, e, p, t).value, Value(m, e, q, t).value))
  {
    hide Mix;
    if Free(e, u) {
      FreeValue(m, e, u, a, p, q, r, t);
      MixProduct(a, 0.0, 0.0, Value(m, e, r, t).value);
    } else if e.Var? {
      assert MixedAt(u, a, p, q, r, t, e.sym, e.lag);
    } else if e.Un? {
      AffineMean(m, e.arg, u, a, p, q, r, t);
      MixSum(a, Value(m, e.arg, p, t).value, Value(m, e.arg, q, t).value, 0.0, 0.0);
    } else {
      AffineArguments(e.bop, e.left, e.right, u);
      AffineMean(m, e.left, u, a, p, q, r, t);
      AffineMean(m, e.right, u, a, p, q, r, t);
      NodeMean(m, e, u, a, p, q, r, t);
    }
  }

  lemma NodeMean(m: Functions, e: Expr, u: Marks, a: real, p: Path, q: Path, r: Path, t: int)
    requires e.Bin? && Affine(e, u) && !Free(e, u) && Mixed(u, a, p, q, r, t)
    requires Value(m, e, p, t).Some? && Value(m, e, q, t).Some?
    requires Value(m, e.left, r, t) == Some(Mix(a, Value(m, e.left, p, t).value, Value(m, e.left, q, t).value))
    requires Value(m, e.right, r, t) == Some(Mix(a, Value(m, e.right, p, t).value, Value(m, e.right, q, t).value))
    ensures Value(m, e, r, t) == Some(Mix(a, Value(m, e, p, t).value, Value(m, e, q, t).value))
  {
    hide Mix, Affine, BinaryValue;
    var x, y := Value(m, e.left, p, t).value, Value(m, e.left, q, t).value;
    var v, w := Value(m, e.right, p, t).value, Value(m, e.right, q, t).value;
    var op := AffineOperator(e, u);
    if Coefficient(e.left, u) {
      FreeValue(m, e.left, u, a, p, q, r, t);
    }
    if Coefficient(e.right, u) {
      FreeValue(m, e.right, u, a, p, q, r, t);
    }
    BinaryMean(m, op, a, x, y, v, w, Value(m, e, p, t).value, Value(m, e, q, t).value);
  }

  /** The operator of an affine node with marked occurrences. */
  lemma AffineOperator(e: Expr, u: Marks) returns (op: BinaryOp)
    requires e.Bin? && Affine(e, u) && !Free(e, u)
    ensures op == e.bop && (op == Plus || op == Minus || op == Times || op == Divide || op == Equal)
    ensures op == Times ==> Coefficient(e.left, u) || Coefficient(e.right, u)
    ensures op == Divide ==> Coefficient(e.right, u)
  {
    op := e.bop;
  }

  lemma BinaryMean(m: Functions, op: BinaryOp, a: real, x: real, y: real, v: real, w: real, z1: real, z2: real)
    requires op == Plus || op == Minus || op == Equal
             || (op == Times && (x == y || v == w)) || (op == Divide && v == w)
    requires BinaryValue(m, op, x, v) == Some(z1) && BinaryValue(m, op, y, w) == Some(z2)
    ensures BinaryValue(m, op, Mix(a, x, y), Mix(a, v, w)) == Some(Mix(a, z1, z2))
  {
    hide Mix;
    match op
    case Times => TimesMean(m, a, x, y, v, w, z1, z2);
    case Divide => DivideMean(a, x, y, v, w, z1, z2);
    case _ => MixSum(a, x, y, v, w);
  }

  lemma TimesMean(m: Functions, a: real, x: real, y: real, v: real, w: real, z1: real, z2: real)
    requires x == y || v == w
    requires BinaryValue(m, Times, x, v) == Some(z1) && BinaryValue(m, Times, y, w) == Some(z2)
    ensures BinaryValue(m, Times, Mix(a, x, y), Mix(a, v, w)) == Some(Mix(a, z1, z2))
  {
    hide Mix, BinaryValue;
    TimesValue(m, x, v);
    TimesValue(m, y, w);
    TimesValue(m, Mix(a, x, y), Mix(a, v, w));
    if x == y {
      FactorLeft(a, x, y, v, w, z1, z2);
    } else {
      FactorRight(a, x, y, v, w, z1, z2);
    }
  }

  lemma TimesValue(m: Functions, x: real, y: real)
    ensures BinaryValue(m, Times, x, y) == Some(x * y)
  {
  }

  lemma FactorLeft(a: real, x: real, y: real, v: real, w: real, z1: real, z2: real)
    requires x == y && z1 == x * v && z2 == y * w
    ensures Mix(a, x, y) * Mix(a, v, w) == Mix(a, z1, z2)
  {
    MixProduct(a, v, w, x);
  }

  lemma FactorRight(a: real, x: real, y: real, v: real, w: real, z1: real, z2: real)
    requires v == w && z1 == x * v && z2 == y * w
    ensures Mix(a, x, y) * Mix(a, v, w) == Mix(a, z1, z2)
  {
    MixProduct(a, x, y, v);
  }

  lemma DivideMean(a: real, x: real, y: real, v: real, w: real, z1: real, z2: real)
    requires v == w && v != 0.0 && z1 == x / v && z2 == y / w
    ensures Mix(a, v, w) == v && Mix(a, x, y) / v == Mix(a, z1, z2)
  {
    MixProduct(a, x, y, v);
  }

  // ----- shifts

  lemma {:induction false} ShiftFree(c: Tree, e: Expr, n: nat, u: Marks)
    requires Free(e, u) && DecreaseLeadsLags(c, e, n).Ok?
    ensures Free(DecreaseLeadsLags(c, e, n).value, u)
  {
    match e
    case Un(op, arg) =>
      ShiftFree(c, arg, n, u);
      FunctionFree(c, op, DecreaseLeadsLags(c, arg, n).value, u);
    case Bin(op, l, r) =>
      ShiftFree(c, l, n, u);
      ShiftFree(c, r, n, u);
      OperatorFree(c, op, DecreaseLeadsLags(c, l, n).value, DecreaseLeadsLags(c, r, n).value, u);
    case _ =>
  }

  lemma ShiftCoefficient(c: Tree, e: Expr, n: nat, u: Marks, symbols: nat)
    requires Coefficient(e, u) && Below(e, symbols) && DecreaseLeadsLags(c, e, n).Ok?
    ensures Coefficient(DecreaseLeadsLags(c, e, n).value, u)
  {
    ShiftFree(c, e, n, u);
    ShiftFits(c, e, n, symbols, Endogenous, 0, MaxLag(Endogenous, e) + n);
    ShiftFits(c, e, n, symbols, Exogenous, 0, MaxLag(Exogenous, e) + n);
  }

  /** Shifting back keeps an affine expression affine. */
  lemma {:induction false} ShiftAffine(c: Tree, e: Expr, n: nat, u: Marks, symbols: nat)
    requires Affine(e, u) && Below(e, symbols) && DecreaseLeadsLags(c, e, n).Ok?
    ensures Affine(DecreaseLeadsLags(c, e, n).value, u)
  {
    if Free(e, u) {
      ShiftFree(c, e, n, u);
    } else if e.Un? {
      ShiftAffine(c, e.arg, n, u, symbols);
      NegationAffine(c, DecreaseLeadsLags(c, e.arg, n).value, u);
    } else if e.Bin? {
      var a, b := DecreaseLeadsLags(c, e.left, n).value, DecreaseLeadsLags(c, e.right, n).value;
      AffineArguments(e.bop, e.left, e.right, u);
      ShiftAffine(c, e.left, n, u, symbols);
      ShiftAffine(c, e.right, n, u, symbols);
      if Coefficient(e.left, u) {
        ShiftCoefficient(c, e.left, n, u, symbols);
      }
      if Coefficient(e.right, u) {
        ShiftCoefficient(c, e.right, n, u, symbols);
      }
      OperatorAffine(c, e.bop, a, b, u);
    }
  }

  /** Fewer marks. */
  lemma {:induction false} FreeAtLeads(e: Expr, base: nat)
    requires Free(e, Marks(base, false))
    ensures Free(e, Marks(base, true))
  {
    match e
    case Un(_, arg) => FreeAtLeads(arg, base);
    case Bin(_, l, r) =>
      FreeAtLeads(l, base);
      FreeAtLeads(r, base);
    case _ =>
  }

  lemma {:induction false} AffineAtLeads(e: Expr, base: nat)
    requires Affine(e, Marks(base, false))
    ensures Affine(e, Marks(base, true))
  {
    if Free(e, Marks(base, false)) {
      FreeAtLeads(e, base);
    } else if e.Un? {
      AffineAtLeads(e.arg, base);
    } else if e.Bin? {
      AffineArguments(e.bop, e.left, e.right, Marks(base, false));
      AffineAtLeads(e.left, base);
      AffineAtLeads(e.right, base);
      if Free(e.left, Marks(base, false)) {
        FreeAtLeads(e.left, base);
      }
      if Free(e.right, Marks(base, false)) {
        FreeAtLeads(e.right, base);
      }
    }
  }
}
