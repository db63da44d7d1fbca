/** The transformation into the first-order conditions: the bounds on the leads and lags are those of the equations, and
    the variables are those of the Lagrangian. All conditions hold exactly when all Euler equations do. */
module RamseyConditions {
  import opened Results
  import opened Expressions
  import opened Constructors
  import opened TimeShifts
  import opened Calculus
  import opened Derivatives
  import opened Slopes
  import opened DerivativeValues
  import opened ShiftedDerivatives
  import opened RamseyPolicy
  import opened JacobianColumns

  // ----- the symbols of the Lagrangian are those of the symbol table

  lemma FunctionTyped(c: Tree, op: UnaryOp, a: Expr, kinds: seq<Kind>)
    requires Typed(a, kinds)
    ensures AddFunction(c, op, a).Ok? ==> Typed(AddFunction(c, op, a).value, kinds)
  {
  }

  lemma BinaryOpTyped(c: Tree, op: BinaryOp, a: Expr, b: Expr, kinds: seq<Kind>)
    requires Typed(a, kinds) && Typed(b, kinds)
    ensures Typed(AddBinaryOp(c, op, a, b), kinds)
  {
  }

  lemma OperatorTyped(c: Tree, op: BinaryOp, a: Expr, b: Expr, kinds: seq<Kind>)
    requires Typed(a, kinds) && Typed(b, kinds)
    ensures AddOperator(c, op, a, b).Ok? ==> Typed(AddOperator(c, op, a, b).value, kinds)
  {
    hide AddBinaryOp;
    FunctionTyped(c, Uminus, a, kinds);
    FunctionTyped(c, Uminus, b, kinds);
    BinaryOpTyped(c, op, a, b, kinds);
    BinaryOpTyped(c, op, b, a, kinds);
    if IsUminus(b) {
      FunctionTyped(c, Uminus, b.arg, kinds);
      BinaryOpTyped(c, Minus, a, b.arg, kinds);
    }
  }

  lemma {:induction false} ShiftTyped(c: Tree, e: Expr, n: int, kinds: seq<Kind>)
    requires Typed(e, kinds)
    ensures DecreaseLeadsLags(c, e, n).Ok? ==> Typed(DecreaseLeadsLags(c, e, n).value, kinds)
  {
    hide AddFunction, AddOperator;
    match e
    case Un(op, arg) =>
      ShiftTyped(c, arg, n, kinds);
      var a := DecreaseLeadsLags(c, arg, n);
      if a.Ok? {
        FunctionTyped(c, op, a.value, kinds);
      }
    case Bin(op, l, r) =>
      ShiftTyped(c, l, n, kinds);
      ShiftTyped(c, r, n, kinds);
      var a, b := DecreaseLeadsLags(c, l, n), DecreaseLeadsLags(c, r, n);
      if a.Ok? && b.Ok? {
        OperatorTyped(c, op, a.value, b.value, kinds);
      }
    case _ =>
  }

  lemma {:induction false} TermsTyped(c: Tree, beta: Symbol, part: Expr, lo: int, n: nat, l: Expr, kinds: seq<Kind>)
    requires Typed(part, kinds) && Typed(l, kinds) && Typed(Var(beta, 0), kinds)
    ensures AddLagrangianTerms(c, Var(beta, 0), part, lo, n, l).Ok?
            ==> Typed(AddLagrangianTerms(c, Var(beta, 0), part, lo, n, l).value, kinds)
  {
    hide AddPlus, AddTimes, AddPower, DiscountExponent, Typed;
    if n > 0 && AddLagrangianTerms(c, Var(beta, 0), part, lo, n, l).Ok? {
      TermsTyped(c, beta, part, lo, n - 1, l, kinds);
      var k, l', b := lo + n - 1, AddLagrangianTerms(c, Var(beta, 0), part, lo, n - 1, l).value, Var(beta, 0);
      var w, e := Discount(c, b, k), DecreaseLeadsLags(c, part, k).value;
      ExponentTyped(c, k, kinds);
      OperatorTyped(c, Power, b, DiscountExponent(c, k), kinds);
      ShiftTyped(c, part, k, kinds);
      assert AddOperator(c, Power, b, DiscountExponent(c, k)) == Ok(w);
      OperatorTyped(c, Times, w, e, kinds);
      OperatorTyped(c, Plus, AddTimes(c, w, e), l', kinds);
    }
  }

  lemma ExponentTyped(c: Tree, lag: int, kinds: seq<Kind>)
    ensures Typed(DiscountExponent(c, lag), kinds)
  {
    OperatorTyped(c, Minus, Zero, Const(lag as real), kinds);
  }

  lemma {:induction false} LagrangianTyped(c: Tree, beta: Symbol, parts: seq<Expr>, lo: int, n: nat, kinds: seq<Kind>)
    requires Typed(Var(beta, 0), kinds) && forall e :: e in parts ==> Typed(e, kinds)
    ensures Lagrangian(c, Var(beta, 0), parts, lo, n).Ok?
            ==> Typed(Lagrangian(c, Var(beta, 0), parts, lo, n).value, kinds)
  {
    hide AddLagrangianTerms;
    if parts != [] {
      var init := parts[..|parts| - 1];
      LagrangianTyped(c, beta, init, lo, n, kinds);
      if Lagrangian(c, Var(beta, 0), init, lo, n).Ok? {
        TermsTyped(c, beta, parts[|parts| - 1], lo, n, Lagrangian(c, Var(beta, 0), init, lo, n).value, kinds);
      }
    }
  }

  /** The variables collected from an expression are those with respect to which its derivative is not null. */
  lemma {:induction false} CollectedNonNull(e: Expr, kinds: seq<Kind>, y: Symbol, k: int)
    requires Typed(e, kinds) && y.id < |kinds| && kinds[y.id] == y.kind
    ensures (y.id as int, k) in CollectVariables(e, y.kind) <==> (y, k) in NonNull(e)
  {
    match e
    case Un(_, arg) => CollectedNonNull(arg, kinds, y, k);
    case Bin(_, l, r) =>
      CollectedNonNull(l, kinds, y, k);
      CollectedNonNull(r, kinds, y, k);
    case _ =>
  }

  // ----- the bounds

  /** The largest lead and lag of the variables, 0 if there is none. */
  ghost predicate LeadLagBounds(vs: set<(int, int)>, maxLead: int, maxLag: int) {
    && maxLead >= 0 && maxLag >= 0
    && (forall v :: v in vs ==> -maxLag <= v.1 <= maxLead)
    && (maxLead == 0 || exists v :: v in vs && v.1 == maxLead)
    && (maxLag == 0 || exists v :: v in vs && v.1 == -maxLag)
  }

  method MaxLeadLag(dynvars: set<(int, int)>) returns (maxLead: int, maxLag: int)
    ensures LeadLagBounds(dynvars, maxLead, maxLag)
  {
    maxLead, maxLag := 0, 0;
    var rest := dynvars;
    while rest != {}
      invariant rest <= dynvars && LeadLagBounds(dynvars - rest, maxLead, maxLag)
    {
      LeastExists(rest);
      var v :| v in rest && forall w :: w in rest && w != v ==> Before(v, w);
      ghost var done := dynvars - rest;
      assert dynvars - (rest - {v}) == done + {v};
      rest := rest - {v};
      if maxLead < v.1 {
        maxLead := v.1;
      } else if -maxLag > v.1 {
        maxLag := -v.1;
      }
      assert LeadLagBounds(done + {v}, maxLead, maxLag);
    }
    assert dynvars - {} == dynvars;
  }

  /** Every endogenous variable of an equation's part is one of the equations. */
  lemma {:induction false} PartVariables(equations: seq<Expr>, kinds: seq<Kind>, i: nat, y: Symbol, k: int)
    requires forall j :: 0 <= j < |equations| ==> equations[j].Bin? && Typed(equations[j], kinds)
    requires i < |equations| && y.id < |kinds| && kinds[y.id] == y.kind
    requires (y, k) in NonNull(NonZeroPart(equations[i]))
    ensures (y.id as int, k) in Variables(equations, y.kind)
  {
    if i == |equations| - 1 {
      CollectedNonNull(equations[i], kinds, y, k);
    } else {
      PartVariables(equations[..|equations| - 1], kinds, i, y, k);
    }
  }

  // ----- the conditions

  predicate IsCurrent(x: DerivId) {
    x.0.kind == Endogenous && x.1 == 0
  }

  /** The conditions: for every endogenous variable at lag 0, in order, the derivative of the Lagrangian. */
  function Conditions(c: Tree, lagrangian: Expr, ids: seq<DerivId>): Outcome<seq<Expr>> {
    if ids == [] then Ok([])
    else
      var x := ids[|ids| - 1];
      var eqs :- Conditions(c, lagrangian, ids[..|ids| - 1]);
      if IsCurrent(x) then
        var d :- Derivative(c, lagrangian, x);
        Ok(eqs + [AddBinaryOp(c, Equal, d, Zero)])
      else Ok(eqs)
  }

  lemma {:induction false} ConditionsExit(c: Tree, lagrangian: Expr, ids: seq<DerivId>, n: nat)
    requires n <= |ids| && Conditions(c, lagrangian, ids[..n]) == Exit
    ensures Conditions(c, lagrangian, ids) == Exit
  {
    if n < |ids| {
      assert ids[..|ids| - 1][..n] == ids[..n];
      ConditionsExit(c, lagrangian, ids[..|ids| - 1], n);
    } else {
      assert ids[..n] == ids;
    }
  }

  /** The list holds exactly these variables, sorted. */
  ghost predicate Lists(inv: seq<(int, int)>, vs: set<(int, int)>) {
    && (forall v :: v in vs <==> v in inv)
    && (forall i, j :: 0 <= i < j < |inv| ==> Before(inv[i], inv[j]))
  }

  lemma NumberingLists(table: map<(int, int), nat>, inv: seq<(int, int)>)
    requires Numbering(table, inv)
    ensures Lists(inv, table.Keys)
  {
  }

  /** The constraints with their multipliers, and the objective. */
  ghost predicate IsProblem(c: Tree, equations: seq<Expr>, constraints: seq<Expr>, multipliers: seq<Symbol>,
                            objective: Expr)
    requires |multipliers| == |constraints| && objective.Bin? && forall e :: e in constraints ==> e.Bin?
  {
    && |equations| == |constraints| + 1 && equations[|constraints|] == objective
    && forall i :: 0 <= i < |constraints| ==>
         equations[i] == AddMultiplierToConstraint(c, constraints[i], multipliers[i])
  }

  /** The conditions are derived from the Lagrangian of the parts for the variables of the Lagrangian. */
  ghost predicate Transformed(c: Tree, kinds: seq<Kind>, beta: Symbol, parts: seq<Expr>, maxLead: nat, maxLag: nat,
                              inv: seq<(int, int)>, neweqs: Outcome<seq<Expr>>)
    requires Known(inv, kinds)
  {
    match Lagrangian(c, Var(beta, 0), parts, 0 - maxLag, maxLag + maxLead + 1)
    case Exit => neweqs == Exit
    case Ok(l) => Lists(inv, AllVariables([Bin(Equal, l, Zero)])) && neweqs == Conditions(c, l, DerivIds(inv, kinds))
  }

  /** Builds the first-order conditions from the constraints with their multipliers and the objective. */
  method ComputeRamseyPolicyFOCs(cache: DerivativeCache, tables: DerivationTables, constraints: seq<Expr>,
                                 multipliers: seq<Symbol>, objective: Expr, beta: Symbol)
    returns (neweqs: Outcome<seq<Expr>>, ghost equations: seq<Expr>, ghost maxLead: nat, ghost maxLag: nat)
    requires cache.Valid() && NonZeroConstants(cache.c.m) && tables.derivIdTable == map[] && tables.invDerivIdTable == []
    requires |multipliers| == |constraints| && objective.Bin? && objective.bop == Equal && Built(cache.c, objective)
    requires forall e :: e in constraints ==> e.Bin? && e.bop == Equal && Built(cache.c, e)
    requires Typed(Var(beta, 0), tables.kinds) && Typed(objective, tables.kinds)
    requires forall e :: e in constraints ==> Typed(e, tables.kinds)
    requires forall s :: s in multipliers ==> Typed(Var(s, 0), tables.kinds)
    modifies cache, tables
    ensures cache.Valid() && Known(tables.invDerivIdTable, tables.kinds)
    ensures IsProblem(cache.c, equations, constraints, multipliers, objective)
    ensures forall e :: e in equations ==> e.Bin? && Typed(e, tables.kinds)
    ensures LeadLagBounds(Variables(equations, Endogenous), maxLead, maxLag)
    ensures Transformed(cache.c, tables.kinds, beta, NonZeroParts(equations), maxLead, maxLag, tables.invDerivIdTable,
                        neweqs)
  {
    hide AddMultiplierToConstraint, AddTimes, AddMinus, AddBinaryOp, Lagrangian, Conditions, LeadLagBounds, Lists,
         AllVariables, Numbering, NonZeroPart, Typed, Built;
    var c, kinds := cache.c, tables.kinds;
    var problem: seq<Expr> := [];
    for i := 0 to |constraints|
      invariant |problem| == i
      invariant forall j :: 0 <= j < i ==> problem[j] == AddMultiplierToConstraint(c, constraints[j], multipliers[j])
    {
      problem := problem + [AddMultiplierToConstraint(c, constraints[i], multipliers[i])];
    }
    problem := problem + [objective];
    equations := problem;
    forall i | 0 <= i < |problem|
      ensures problem[i].Bin? && Typed(problem[i], kinds)
      ensures Built(c, NonZeroPart(problem[i])) && Typed(NonZeroPart(problem[i]), kinds)
    {
      if i < |constraints| {
        MultiplierBuilt(c, constraints[i], multipliers[i]);
        MultiplierTyped(c, constraints[i], multipliers[i], kinds);
      } else {
        ObjectivePart(c, objective, kinds);
      }
    }
    var dynvars := tables.Collect(problem, Endogenous);
    var lead, lag := MaxLeadLag(dynvars);
    maxLead, maxLag := lead, lag;
    var lagrangian := ComputeLagrangian(c, beta, problem, lead, lag);
    if lagrangian.Exit? {
      return Exit, problem, lead, lag;
    }
    ghost var parts := NonZeroParts(problem);
    LagrangianBuilt(c, beta, parts, -lag, lag + lead + 1);
    LagrangianTyped(c, beta, parts, -lag, lag + lead + 1, kinds);
    var equation := AddBinaryOp(c, Equal, lagrangian.value, Zero);
    LagrangianEquation(c, lagrangian.value, kinds);
    tables.ComputeDerivIDs([equation]);
    NumberingLists(tables.derivIdTable, tables.invDerivIdTable);
    neweqs := DeriveConditions(cache, NonZeroPart(equation), DerivIds(tables.invDerivIdTable, kinds));
  }

  lemma ObjectivePart(c: Tree, e: Expr, kinds: seq<Kind>)
    requires e.Bin? && Built(c, e) && Typed(e, kinds)
    ensures Built(c, NonZeroPart(e)) && Typed(NonZeroPart(e), kinds)
  {
  }

  lemma LagrangianEquation(c: Tree, l: Expr, kinds: seq<Kind>)
    ensures AddBinaryOp(c, Equal, l, Zero) == Bin(Equal, l, Zero) && NonZeroPart(Bin(Equal, l, Zero)) == l
    ensures Typed(l, kinds) ==> Typed(Bin(Equal, l, Zero), kinds)
  {
  }

  lemma MultiplierTyped(c: Tree, e: Expr, multiplier: Symbol, kinds: seq<Kind>)
    requires e.Bin? && Typed(e, kinds) && Typed(Var(multiplier, 0), kinds)
    ensures Typed(AddMultiplierToConstraint(c, e, multiplier), kinds)
    ensures AddMultiplierToConstraint(c, e, multiplier).Bin?
    ensures Typed(NonZeroPart(AddMultiplierToConstraint(c, e, multiplier)), kinds)
  {
    hide AddTimes, AddMinus;
    OperatorTyped(c, Minus, e.left, e.right, kinds);
    OperatorTyped(c, Times, Var(multiplier, 0), AddMinus(c, e.left, e.right), kinds);
  }

  /** Differentiates the Lagrangian through the shared cache. */
  method DeriveConditions(cache: DerivativeCache, lagrangian: Expr, ids: seq<DerivId>)
    returns (neweqs: Outcome<seq<Expr>>)
    requires cache.Valid() && NonZeroConstants(cache.c.m) && Built(cache.c, lagrangian)
    modifies cache
    ensures cache.Valid() && neweqs == Conditions(cache.c, lagrangian, ids)
  {
    var eqs: seq<Expr> := [];
    for i := 0 to |ids|
      invariant cache.Valid() && Conditions(cache.c, lagrangian, ids[..i]) == Ok(eqs)
    {
      assert ids[..i + 1][..i] == ids[..i];
      if IsCurrent(ids[i]) {
        var d := cache.GetDerivative(lagrangian, ids[i]);
        if d.Exit? {
          ConditionsExit(cache.c, lagrangian, ids, i + 1);
          return Exit;
        }
        eqs := eqs + [AddBinaryOp(cache.c, Equal, d.value, Zero)];
      }
    }
    assert ids[..|ids|] == ids;
    neweqs := Ok(eqs);
  }

  // ----- what the conditions say

  /** The derivative with respect to x is 0. */
  predicate Stationary(c: Tree, l: Expr, x: DerivId, p: Path, t: int) {
    Derivative(c, l, x).Ok? && Value(c.m, Derivative(c, l, x).value, p, t) == Some(0.0)
  }

  predicate HasValue(c: Tree, l: Expr, x: DerivId, p: Path, t: int) {
    Derivative(c, l, x).Ok? && Value(c.m, Derivative(c, l, x).value, p, t).Some?
  }

  /** A condition holds exactly where its derivative is 0. */
  lemma ConditionHolds(c: Tree, l: Expr, x: DerivId, p: Path, t: int)
    requires HasValue(c, l, x, p, t)
    ensures Holds(c.m, AddBinaryOp(c, Equal, Derivative(c, l, x).value, Zero), p, t) <==> Stationary(c, l, x, p, t)
  {
    hide Derivative, BinaryValue;
  }

  lemma MoreConditions(c: Tree, l: Expr, init: seq<DerivId>, x: DerivId)
    requires Conditions(c, l, init).Ok? && (IsCurrent(x) ==> Derivative(c, l, x).Ok?)
    ensures !IsCurrent(x) ==> Conditions(c, l, init + [x]) == Conditions(c, l, init)
    ensures IsCurrent(x) ==>
              Conditions(c, l, init + [x])
              == Ok(Conditions(c, l, init).value + [AddBinaryOp(c, Equal, Derivative(c, l, x).value, Zero)])
  {
    hide Derivative, AddBinaryOp;
    assert (init + [x])[..|init|] == init;
  }

  lemma {:induction false} ConditionsHold(c: Tree, l: Expr, ids: seq<DerivId>, p: Path, t: int)
    requires forall x :: x in ids && IsCurrent(x) ==> HasValue(c, l, x, p, t)
    ensures Conditions(c, l, ids).Ok?
    ensures (forall e :: e in Conditions(c, l, ids).value ==> Holds(c.m, e, p, t))
            <==> forall x :: x in ids && IsCurrent(x) ==> Stationary(c, l, x, p, t)
  {
    hide Derivative, AddBinaryOp, Holds, Stationary, IsCurrent, Value;
    if ids != [] {
      var init, x := ids[..|ids| - 1], ids[|ids| - 1];
      assert ids == init + [x];
      ConditionsHold(c, l, init, p, t);
      MoreConditions(c, l, init, x);
      if IsCurrent(x) {
        ConditionHolds(c, l, x, p, t);
      }
    }
  }

  /** The Euler equations of all endogenous variables. */
  ghost predicate EulerEquations(m: Functions, b: real, parts: seq<Expr>, kinds: seq<Kind>, lo: int, n: nat, p: Path,
                                 t: int) {
    forall y :: IsEndogenous(y, kinds) ==> EulerSum(m, b, parts, y, lo, n, p, t) == 0.0
  }

  predicate IsEndogenous(y: Symbol, kinds: seq<Kind>) {
    y.kind == Endogenous && y.id < |kinds| && kinds[y.id] == Endogenous
  }

  /** The leads and lags of all endogenous variables lie in [lo, lo + n). */
  ghost predicate AllWithin(parts: seq<Expr>, kinds: seq<Kind>, lo: int, n: nat) {
    forall e, y :: e in parts && IsEndogenous(y, kinds) ==> Within(e, y, lo, n)
  }

  ghost predicate AllDifferentiable(m: Functions, parts: seq<Expr>, kinds: seq<Kind>, lo: int, n: nat, p: Path, t: int) {
    forall y :: IsEndogenous(y, kinds) ==> Differentiable(m, parts, y, lo, n, p, t)
  }

  /** The bounds computed from the equations hold all leads and lags. */
  lemma BoundsWithin(equations: seq<Expr>, kinds: seq<Kind>, maxLead: nat, maxLag: nat)
    requires forall e :: e in equations ==> e.Bin? && Typed(e, kinds)
    requires LeadLagBounds(Variables(equations, Endogenous), maxLead, maxLag)
    ensures AllWithin(NonZeroParts(equations), kinds, 0 - maxLag, maxLag + maxLead + 1)
  {
    hide NonZeroPart;
    var parts := NonZeroParts(equations);
    forall e, y, k | e in parts && IsEndogenous(y, kinds) && (y, k) in NonNull(e) ensures 0 - maxLag <= k <= maxLead {
      var i :| 0 <= i < |parts| && parts[i] == e;
      PartVariables(equations, kinds, i, y, k);
    }
  }

  /** The variables for which there is a condition are those of the Lagrangian. */
  lemma ConditionFor(l: Expr, kinds: seq<Kind>, inv: seq<(int, int)>, y: Symbol)
    requires Known(inv, kinds) && Typed(l, kinds) && Lists(inv, AllVariables([Bin(Equal, l, Zero)]))
    requires IsEndogenous(y, kinds)
    ensures (y, 0) in DerivIds(inv, kinds) <==> (y, 0) in NonNull(l)
  {
    var equation := Bin(Equal, l, Zero);
    CollectedNonNull(equation, kinds, y, 0);
    AllKinds([equation], kinds);
    var v := (y.id as int, 0);
    assert v in Variables([equation], Endogenous) <==> v in CollectVariables(equation, Endogenous);
    assert v in inv <==> (y, 0) in NonNull(l);
    if (y, 0) in DerivIds(inv, kinds) {
      var i :| 0 <= i < |inv| && DerivIds(inv, kinds)[i] == (y, 0);
      assert inv[i] == v;
    }
    if v in inv {
      var i :| 0 <= i < |inv| && inv[i] == v;
      assert DerivIds(inv, kinds)[i] == (y, 0);
    }
  }

  /** The derivative of the Lagrangian with respect to y is 0 exactly when the Euler equation of y holds; this includes the
      variables that the Lagrangian does not contain, for which there is no condition. */
  lemma StationaryIsEuler(c: Tree, beta: Symbol, parts: seq<Expr>, lo: int, n: nat, y: Symbol, p: Path, t: int)
    requires Laws(c.m) && CalculusLaws(c.m) && beta.kind == Parameter && y.kind != Parameter && p(beta, 0) > 0.0
    requires Differentiable(c.m, parts, y, lo, n, p, t)
    ensures Lagrangian(c, Var(beta, 0), parts, lo, n).Ok?
    ensures var l := Lagrangian(c, Var(beta, 0), parts, lo, n).value;
            && HasValue(c, l, (y, 0), p, t)
            && (Stationary(c, l, (y, 0), p, t) <==> EulerSum(c.m, p(beta, 0), parts, y, lo, n, p, t) == 0.0)
            && ((y, 0) !in NonNull(l) ==> Stationary(c, l, (y, 0), p, t))
  {
    hide Differentiable, EulerSum, Lagrangian, Derivative, Laws, CalculusLaws;
    EulerEquation(c, beta, parts, lo, n, y, p, t);
    var l := Lagrangian(c, Var(beta, 0), parts, lo, n).value;
    if (y, 0) !in NonNull(l) {
      SparseOrExit(c, l, (y, 0));
    }
  }

  /** The transformation is correct: it ends with equations that hold at a date if and only if the Euler equations of all
      endogenous variables do, for any bounds that hold all leads and lags of the problem. */
  lemma ConditionsAreEuler(c: Tree, kinds: seq<Kind>, beta: Symbol, equations: seq<Expr>, maxLead: nat, maxLag: nat,
                           inv: seq<(int, int)>, neweqs: Outcome<seq<Expr>>, lo: int, n: nat, p: Path, t: int)
    requires Laws(c.m) && CalculusLaws(c.m) && Known(inv, kinds) && Endogenous in kinds
    requires beta.kind == Parameter && Typed(Var(beta, 0), kinds) && p(beta, 0) > 0.0
    requires forall e :: e in equations ==> e.Bin? && Typed(e, kinds)
    requires LeadLagBounds(Variables(equations, Endogenous), maxLead, maxLag)
    requires Transformed(c, kinds, beta, NonZeroParts(equations), maxLead, maxLag, inv, neweqs)
    requires AllDifferentiable(c.m, NonZeroParts(equations), kinds, 0 - maxLag, maxLag + maxLead + 1, p, t)
    requires AllWithin(NonZeroParts(equations), kinds, lo, n)
    ensures neweqs.Ok?
    ensures (forall e :: e in neweqs.value ==> Holds(c.m, e, p, t))
            <==> EulerEquations(c.m, p(beta, 0), NonZeroParts(equations), kinds, lo, n, p, t)
  {
    hide Laws, CalculusLaws, LeadLagBounds, Differentiable, EulerSum, Lagrangian, Conditions, Stationary, HasValue, Holds,
         Variables, Within, NonNull, Lists, NonZeroPart;
    var parts, lo', n', b := NonZeroParts(equations), 0 - maxLag, maxLag + maxLead + 1, p(beta, 0);
    BoundsWithin(equations, kinds, maxLead, maxLag);
    var i :| 0 <= i < |kinds| && kinds[i] == Endogenous;
    var some := Symbol(i, Endogenous);
    assert IsEndogenous(some, kinds);
    StationaryIsEuler(c, beta, parts, lo', n', some, p, t);
    var l := Lagrangian(c, Var(beta, 0), parts, lo', n').value;
    LagrangianTyped(c, beta, parts, lo', n', kinds) by {
      PartsTyped(equations, kinds);
    }
    var ids := DerivIds(inv, kinds);
    forall y | IsEndogenous(y, kinds)
      ensures HasValue(c, l, (y, 0), p, t)
      ensures EulerSum(c.m, b, parts, y, lo, n, p, t) == 0.0 <==> (y, 0) !in ids || Stationary(c, l, (y, 0), p, t)
    {
      StationaryIsEuler(c, beta, parts, lo', n', y, p, t);
      AllLeadsOfParts(c, b, parts, y, lo, n, lo', n', p, t);
      ConditionFor(l, kinds, inv, y);
    }
    forall x | x in ids && IsCurrent(x) ensures IsEndogenous(x.0, kinds) && x == (x.0, 0) {
    }
    ConditionsHold(c, l, ids, p, t);
  }

  lemma PartsTyped(equations: seq<Expr>, kinds: seq<Kind>)
    requires forall e :: e in equations ==> e.Bin? && Typed(e, kinds)
    ensures forall e :: e in NonZeroParts(equations) ==> Typed(e, kinds)
  {
    var parts := NonZeroParts(equations);
    forall i | 0 <= i < |parts| ensures Typed(parts[i], kinds) {
      assert equations[i] in equations;
    }
  }
}
