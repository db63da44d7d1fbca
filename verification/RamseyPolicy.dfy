/** The first-order conditions of the Ramsey problem, from a Lagrangian in which every constraint stands once
    for each lead and lag, so that one derivative at date t collects all of them. */
module RamseyPolicy {
  import opened Results
  import opened Expressions
  import opened Constructors
  import opened TimeShifts
  import opened Calculus
  import opened Derivatives
  import opened Slopes
  import opened DerivativeValues
  import opened ShiftedDerivatives

  /** The exponent of the discount factor for a lag: -lag. */
  function DiscountExponent(c: Tree, lag: int): Expr {
    if lag < 0 then Const((-lag) as real)
    else if lag == 0 then Zero
    else AddMinus(c, Zero, Const(lag as real))
  }

  /** beta^(-lag) */
  function Discount(c: Tree, beta: Expr, lag: int): Expr {
    AddPower(c, beta, DiscountExponent(c, lag))
  }

  /** beta^(-lag) part(-lag) + lagrangian */
  function AddLagrangianTerm(c: Tree, beta: Expr, part: Expr, lag: int, lagrangian: Expr): Outcome<Expr> {
    var shifted :- DecreaseLeadsLags(c, part, lag);
    Ok(AddPlus(c, AddTimes(c, Discount(c, beta, lag), shifted), lagrangian))
  }

  /** The Lagrangian with the n terms of one part for the lags lo, lo + 1, ... */
  function AddLagrangianTerms(c: Tree, beta: Expr, part: Expr, lo: int, n: nat, lagrangian: Expr): Outcome<Expr> {
    if n == 0 then Ok(lagrangian)
    else
      var l :- AddLagrangianTerms(c, beta, part, lo, n - 1, lagrangian);
      AddLagrangianTerm(c, beta, part, lo + n - 1, l)
  }

  /** The Lagrangian of the parts, with n lags from lo for each. */
  function Lagrangian(c: Tree, beta: Expr, parts: seq<Expr>, lo: int, n: nat): Outcome<Expr> {
    if parts == [] then Ok(Zero)
    else
      var l :- Lagrangian(c, beta, parts[..|parts| - 1], lo, n);
      AddLagrangianTerms(c, beta, parts[|parts| - 1], lo, n, l)
  }

  // ----- the Euler sum

  /** The derivative of e at date t with respect to y(k), 0 where it has none. */
  ghost function PartialAt(m: Functions, e: Expr, y: Symbol, k: int, p: Path, t: int): real {
    match Slope(m, e, (y, k), p, t)
    case Some(d) => d
    case None => 0.0
  }

  /** beta^(-k) */
  function Weight(m: Functions, b: real, k: int): real {
    match m.power(b, (-k) as real)
    case Some(w) => w
    case None => 0.0
  }

  /** The sum over the leads k in [lo, lo + n) of beta^(-k) de/dy(k), taken at date t - k. */
  ghost function EulerTerms(m: Functions, b: real, e: Expr, y: Symbol, lo: int, n: nat, p: Path, t: int): real {
    if n == 0 then 0.0
    else
      var k := lo + n - 1;
      EulerTerms(m, b, e, y, lo, n - 1, p, t) + Weight(m, b, k) * PartialAt(m, e, y, k, p, t - k)
  }

  ghost function EulerSum(m: Functions, b: real, parts: seq<Expr>, y: Symbol, lo: int, n: nat, p: Path, t: int): real {
    if parts == [] then 0.0
    else
      EulerSum(m, b, parts[..|parts| - 1], y, lo, n, p, t)
      + EulerTerms(m, b, parts[|parts| - 1], y, lo, n, p, t)
  }

  /** Every part has a derivative with respect to every y(k) at date t - k. */
  ghost predicate Differentiable(m: Functions, parts: seq<Expr>, y: Symbol, lo: int, n: nat, p: Path, t: int) {
    forall i, k :: 0 <= i < |parts| && lo <= k < lo + n ==> HasSlope(m, parts[i], y, k, p, t)
  }

  ghost predicate HasSlope(m: Functions, e: Expr, y: Symbol, k: int, p: Path, t: int) {
    Slope(m, e, (y, k), p, t - k).Some?
  }

  // ----- the slope of the Lagrangian is the Euler sum

  /** e is defined with slope d with respect to x. */
  ghost predicate Sloped(m: Functions, e: Expr, x: DerivId, p: Path, t: int, d: real) {
    Slope(m, e, x, p, t).Some? && Slope(m, e, x, p, t).value == d
  }

  lemma SlopedValue(m: Functions, e: Expr, x: DerivId, p: Path, t: int)
    requires Slope(m, e, x, p, t).Some?
    ensures Value(m, e, p, t).Some?
  {
  }

  lemma DiscountValue(c: Tree, lag: int, x: DerivId, p: Path, t: int)
    ensures Evaluates(c.m, DiscountExponent(c, lag), p, t, (-lag) as real) && Closed(DiscountExponent(c, lag))
    ensures Built(c, DiscountExponent(c, lag)) && Sloped(c.m, DiscountExponent(c, lag), x, p, t, 0.0)
  {
    if lag > 0 {
      var k := Const(lag as real);
      assert AddMinus(c, Zero, k) == Un(Uminus, k);
      assert Evaluates(c.m, k, p, t, lag as real) && Sloped(c.m, k, x, p, t, 0.0);
      assert AddFunction(c, Uminus, k) == Ok(Un(Uminus, k));
      assert Built(c, k);
    }
  }

  /** beta^(-lag), whose slope with respect to a variable is 0. */
  lemma DiscountPower(c: Tree, beta: Symbol, lag: int, x: DerivId, p: Path, t: int)
    requires Laws(c.m) && CalculusLaws(c.m) && beta.kind == Parameter && x.0.kind != Parameter && p(beta, 0) > 0.0
    ensures Evaluates(c.m, Discount(c, Var(beta, 0), lag), p, t, Weight(c.m, p(beta, 0), lag))
    ensures Sloped(c.m, Discount(c, Var(beta, 0), lag), x, p, t, 0.0)
  {
    hide DiscountExponent, AddPower;
    var b, e, v := p(beta, 0), DiscountExponent(c, lag), (-lag) as real;
    DiscountValue(c, lag, x, p, t);
    assert PowerLaw(c.m, b, v);
    PowerEvaluates(c, Var(beta, 0), e, p, t, b, v, Weight(c.m, b, lag));
    assert Sloped(c.m, Var(beta, 0), x, p, t, 0.0);
    PowerConstantSlope(c.m, Var(beta, 0), e, x, p, t, b, v);
    OperatorSlope(c, Power, Var(beta, 0), e, x, p, t);
    assert AddOperator(c, Power, Var(beta, 0), e) == Ok(AddPower(c, Var(beta, 0), e));
  }

  lemma PowerConstantSlope(m: Functions, a: Expr, e: Expr, x: DerivId, p: Path, t: int, v: real, w: real)
    requires CalculusLaws(m) && v > 0.0 && Evaluates(m, a, p, t, v) && Evaluates(m, e, p, t, w)
    requires Sloped(m, a, x, p, t, 0.0) && Sloped(m, e, x, p, t, 0.0)
    ensures Sloped(m, Bin(Power, a, e), x, p, t, 0.0)
  {
    assert PowerLaw(m, v, w);
  }

  /** The slope of w e, where w has the slope 0. */
  lemma WeightedSlope(c: Tree, w: Expr, e: Expr, x: DerivId, p: Path, t: int, wv: real, d: real, z: real)
    requires Laws(c.m) && CalculusLaws(c.m) && x.0.kind != Parameter && z == wv * d
    requires Evaluates(c.m, w, p, t, wv) && Sloped(c.m, w, x, p, t, 0.0) && Sloped(c.m, e, x, p, t, d)
    ensures Sloped(c.m, AddTimes(c, w, e), x, p, t, z)
  {
    hide AddTimes;
    TimesNodeSlope(c.m, w, e, x, p, t, wv, d, z);
    OperatorSlope(c, Times, w, e, x, p, t);
    assert AddOperator(c, Times, w, e) == Ok(AddTimes(c, w, e));
  }

  lemma TimesNodeSlope(m: Functions, w: Expr, e: Expr, x: DerivId, p: Path, t: int, wv: real, d: real, z: real)
    requires Evaluates(m, w, p, t, wv) && Sloped(m, w, x, p, t, 0.0) && Sloped(m, e, x, p, t, d) && z == wv * d
    ensures Sloped(m, Bin(Times, w, e), x, p, t, z)
  {
    hide BinarySlope;
    SlopedValue(m, e, x, p, t);
    TimesSlopeFromZero(m, x !in NonNull(e), wv, Value(m, e, p, t).value, d, z);
  }

  lemma TimesSlopeFromZero(m: Functions, constant: bool, v1: real, v2: real, d2: real, z: real)
    requires z == v1 * d2
    ensures BinarySlope(m, Times, constant, v1, v2, 0.0, d2).Some?
    ensures BinarySlope(m, Times, constant, v1, v2, 0.0, d2).value == z
  {
  }

  lemma PlusNodeSlope(m: Functions, a: Expr, b: Expr, x: DerivId, p: Path, t: int, d: real, e: real)
    requires Sloped(m, a, x, p, t, d) && Sloped(m, b, x, p, t, e)
    ensures Sloped(m, Bin(Plus, a, b), x, p, t, d + e)
  {
    SlopedValue(m, a, x, p, t);
    SlopedValue(m, b, x, p, t);
  }

  /** The slope of a sum w e + l, where w has the slope 0. */
  lemma TermSlope(c: Tree, w: Expr, e: Expr, l: Expr, x: DerivId, p: Path, t: int, wv: real, d: real, dl: real, z: real)
    requires Laws(c.m) && CalculusLaws(c.m) && x.0.kind != Parameter
    requires Evaluates(c.m, w, p, t, wv) && Sloped(c.m, w, x, p, t, 0.0)
    requires Sloped(c.m, e, x, p, t, d) && Sloped(c.m, l, x, p, t, dl) && z == wv * d + dl
    ensures Sloped(c.m, AddPlus(c, AddTimes(c, w, e), l), x, p, t, z)
  {
    hide AddTimes, AddPlus, Slope;
    WeightedSlope(c, w, e, x, p, t, wv, d, wv * d);
    var a := AddTimes(c, w, e);
    PlusNodeSlope(c.m, a, l, x, p, t, wv * d, dl);
    OperatorSlope(c, Plus, a, l, x, p, t);
    assert AddOperator(c, Plus, a, l) == Ok(AddPlus(c, a, l));
  }

  lemma {:induction false} TermsSlope(c: Tree, beta: Symbol, part: Expr, lo: int, n: nat, l: Expr, y: Symbol,
                                      p: Path, t: int, d: real)
    requires Laws(c.m) && CalculusLaws(c.m) && beta.kind == Parameter && y.kind != Parameter && p(beta, 0) > 0.0
    requires (forall k :: lo <= k < lo + n ==> HasSlope(c.m, part, y, k, p, t)) && Sloped(c.m, l, (y, 0), p, t, d)
    ensures AddLagrangianTerms(c, Var(beta, 0), part, lo, n, l).Ok?
    ensures Sloped(c.m, AddLagrangianTerms(c, Var(beta, 0), part, lo, n, l).value, (y, 0), p, t,
                   d + EulerTerms(c.m, p(beta, 0), part, y, lo, n, p, t))
  {
    hide AddTimes, AddPlus, Discount, Slope;
    if n > 0 {
      TermsSlope(c, beta, part, lo, n - 1, l, y, p, t, d);
      var b, k, l' := p(beta, 0), lo + n - 1, AddLagrangianTerms(c, Var(beta, 0), part, lo, n - 1, l).value;
      assert HasSlope(c.m, part, y, k, p, t);
      ShiftSlope(c, part, k, y, k, p, t);
      assert k - k == 0;
      DiscountPower(c, beta, k, (y, 0), p, t);
      TermSlope(c, Discount(c, Var(beta, 0), k), DecreaseLeadsLags(c, part, k).value, l', (y, 0), p, t,
                Weight(c.m, b, k), PartialAt(c.m, part, y, k, p, t - k),
                d + EulerTerms(c.m, b, part, y, lo, n - 1, p, t), d + EulerTerms(c.m, b, part, y, lo, n, p, t));
    }
  }

  /** The slope of the Lagrangian with respect to y is the Euler sum. */
  lemma {:induction false} LagrangianSlope(c: Tree, beta: Symbol, parts: seq<Expr>, lo: int, n: nat, y: Symbol,
                                           p: Path, t: int)
    requires Laws(c.m) && CalculusLaws(c.m) && beta.kind == Parameter && y.kind != Parameter && p(beta, 0) > 0.0
    requires Differentiable(c.m, parts, y, lo, n, p, t)
    ensures Lagrangian(c, Var(beta, 0), parts, lo, n).Ok?
    ensures Sloped(c.m, Lagrangian(c, Var(beta, 0), parts, lo, n).value, (y, 0), p, t,
                   EulerSum(c.m, p(beta, 0), parts, y, lo, n, p, t))
  {
    hide AddLagrangianTerms, EulerTerms;
    if parts != [] {
      var init, last := parts[..|parts| - 1], parts[|parts| - 1];
      assert Differentiable(c.m, init, y, lo, n, p, t) by {
        forall i, k | 0 <= i < |init| && lo <= k < lo + n ensures HasSlope(c.m, init[i], y, k, p, t) {
          assert HasSlope(c.m, parts[i], y, k, p, t);
        }
      }
      LagrangianSlope(c, beta, init, lo, n, y, p, t);
      forall k | lo <= k < lo + n ensures HasSlope(c.m, last, y, k, p, t) {
        assert HasSlope(c.m, parts[|parts| - 1], y, k, p, t);
      }
      TermsSlope(c, beta, last, lo, n, Lagrangian(c, Var(beta, 0), init, lo, n).value, y, p, t,
                 EulerSum(c.m, p(beta, 0), init, y, lo, n, p, t));
    }
  }

  /** The first-order conditions are the Euler equations: the derivative of the Lagrangian with respect to y at
      date t has as its value the sum, over the equations and the leads k, of beta^(-k) times the derivative
      of the equation with respect to y(k), at date t - k. */
  lemma EulerEquation(c: Tree, beta: Symbol, parts: seq<Expr>, lo: int, n: nat, y: Symbol, p: Path, t: int)
    requires Laws(c.m) && CalculusLaws(c.m) && beta.kind == Parameter && y.kind != Parameter && p(beta, 0) > 0.0
    requires Differentiable(c.m, parts, y, lo, n, p, t)
    ensures Lagrangian(c, Var(beta, 0), parts, lo, n).Ok?
    ensures Derivative(c, Lagrangian(c, Var(beta, 0), parts, lo, n).value, (y, 0)).Ok?
    ensures Evaluates(c.m, Derivative(c, Lagrangian(c, Var(beta, 0), parts, lo, n).value, (y, 0)).value, p, t,
                      EulerSum(c.m, p(beta, 0), parts, y, lo, n, p, t))
  {
    LagrangianSlope(c, beta, parts, lo, n, y, p, t);
    DerivativeIsSlope(c, Lagrangian(c, Var(beta, 0), parts, lo, n).value, (y, 0), p, t);
  }

  /** The derivatives in the Euler sum are those of the symbolic derivatives of the equations, and they are the
      derivatives of the values of the equations. */
  lemma EulerTerm(c: Tree, e: Expr, y: Symbol, k: int, p: Path, t: int)
    requires Laws(c.m) && CalculusLaws(c.m) && y.kind != Parameter && HasSlope(c.m, e, y, k, p, t)
    ensures Derivative(c, e, (y, k)).Ok?
    ensures Evaluates(c.m, Derivative(c, e, (y, k)).value, p, t - k, PartialAt(c.m, e, y, k, p, t - k))
    ensures HasDerivative(Along(c.m, e, (y, k), p, t - k), PartialAt(c.m, e, y, k, p, t - k))
  {
    hide HasDerivative, Slope, Derivative, Laws, CalculusLaws;
    DerivativeCorrect(c, e, (y, k), p, t - k);
    DerivativeIsSlope(c, e, (y, k), p, t - k);
  }

  /** A lead that does not occur contributes nothing. */
  lemma NoOtherLead(c: Tree, e: Expr, y: Symbol, k: int, p: Path, t: int)
    requires Laws(c.m) && CalculusLaws(c.m) && (y, k) !in NonNull(e)
    ensures PartialAt(c.m, e, y, k, p, t) == 0.0
  {
    SparseOrExit(c, e, (y, k));
    if Slope(c.m, e, (y, k), p, t).Some? {
      DerivativeIsSlope(c, e, (y, k), p, t);
    }
  }

  /** All leads of y lie in [lo, lo + n). */
  ghost predicate Within(e: Expr, y: Symbol, lo: int, n: nat) {
    forall k :: (y, k) in NonNull(e) ==> lo <= k < lo + n
  }

  lemma {:induction false} FirstTerm(m: Functions, b: real, e: Expr, y: Symbol, lo: int, n: nat, p: Path, t: int)
    ensures EulerTerms(m, b, e, y, lo, n + 1, p, t)
            == Weight(m, b, lo) * PartialAt(m, e, y, lo, p, t - lo) + EulerTerms(m, b, e, y, lo + 1, n, p, t)
  {
    hide Weight, PartialAt;
    if n > 0 {
      FirstTerm(m, b, e, y, lo, n - 1, p, t);
    }
  }

  /** Bounds that hold all leads can be widened on both sides. */
  lemma {:induction false} Widened(c: Tree, b: real, e: Expr, y: Symbol, lo: int, n: nat, below: nat, above: nat,
                                   p: Path, t: int)
    requires Laws(c.m) && CalculusLaws(c.m) && Within(e, y, lo, n)
    ensures EulerTerms(c.m, b, e, y, lo - below, below + n + above, p, t) == EulerTerms(c.m, b, e, y, lo, n, p, t)
    decreases below + above
  {
    hide Weight, PartialAt, Laws, CalculusLaws;
    if below > 0 {
      Widened(c, b, e, y, lo, n, below - 1, above, p, t);
      var k := lo - below;
      NoOtherLead(c, e, y, k, p, t - k);
      FirstTerm(c.m, b, e, y, k, below - 1 + n + above, p, t);
    } else if above > 0 {
      Widened(c, b, e, y, lo, n, 0, above - 1, p, t);
      var k := lo + n + above - 1;
      NoOtherLead(c, e, y, k, p, t - k);
    }
  }

  /** The Euler sum extends over all leads: it is the same for all bounds that hold them. */
  lemma AllLeads(c: Tree, b: real, e: Expr, y: Symbol, lo: int, n: nat, lo': int, n': nat, p: Path, t: int)
    requires Laws(c.m) && CalculusLaws(c.m) && Within(e, y, lo, n) && Within(e, y, lo', n')
    ensures EulerTerms(c.m, b, e, y, lo, n, p, t) == EulerTerms(c.m, b, e, y, lo', n', p, t)
  {
    hide EulerTerms, Laws, CalculusLaws;
    var first := if lo < lo' then lo else lo';
    var last := if lo + n < lo' + n' then lo' + n' else lo + n;
    Widened(c, b, e, y, lo, n, lo - first, last - (lo + n), p, t);
    Widened(c, b, e, y, lo', n', lo' - first, last - (lo' + n'), p, t);
  }

  /** The same for the sum over the parts. */
  lemma {:induction false} AllLeadsOfParts(c: Tree, b: real, parts: seq<Expr>, y: Symbol, lo: int, n: nat, lo': int,
                                           n': nat, p: Path, t: int)
    requires Laws(c.m) && CalculusLaws(c.m)
    requires forall e :: e in parts ==> Within(e, y, lo, n) && Within(e, y, lo', n')
    ensures EulerSum(c.m, b, parts, y, lo, n, p, t) == EulerSum(c.m, b, parts, y, lo', n', p, t)
  {
    hide EulerTerms, Within, Laws, CalculusLaws;
    if parts != [] {
      var init, last := parts[..|parts| - 1], parts[|parts| - 1];
      AllLeadsOfParts(c, b, init, y, lo, n, lo', n', p, t);
      AllLeads(c, b, last, y, lo, n, lo', n', p, t);
    }
  }

  // ----- the transformation

  /** The side of a constraint that is not Zero. */
  function NonZeroPart(e: Expr): Expr
    requires e.Bin?
  {
    if e.left == Zero then e.right else e.left
  }

  function NonZeroParts(equations: seq<Expr>): (parts: seq<Expr>)
    requires forall i :: 0 <= i < |equations| ==> equations[i].Bin?
    ensures |parts| == |equations|
    ensures forall i :: 0 <= i < |equations| ==> parts[i] == NonZeroPart(equations[i])
  {
    seq(|equations|, i requires 0 <= i < |equations| => NonZeroPart(equations[i]))
  }

  /** lambda (left - right) = 0 */
  function AddMultiplierToConstraint(c: Tree, e: Expr, multiplier: Symbol): Expr
    requires e.Bin?
  {
    AddBinaryOp(c, Equal, AddTimes(c, Var(multiplier, 0), AddMinus(c, e.left, e.right)), Zero)
  }

  method ComputeLagrangian(c: Tree, beta: Symbol, equations: seq<Expr>, maxLead: int, maxLag: int)
    returns (lagrangian: Outcome<Expr>)
    requires maxLead >= 0 && maxLag >= 0
    requires forall i :: 0 <= i < |equations| ==> equations[i].Bin?
    ensures lagrangian == Lagrangian(c, Var(beta, 0), NonZeroParts(equations), -maxLag, maxLag + maxLead + 1)
  {
    hide AddLagrangianTerms, NonZeroPart;
    ghost var parts := NonZeroParts(equations);
    ghost var lo, n := -maxLag, maxLag + maxLead + 1;
    var l := Zero;
    for i := 0 to |equations|
      invariant Lagrangian(c, Var(beta, 0), parts[..i], lo, n) == Ok(l)
    {
      var terms := AddAllLags(c, beta, NonZeroPart(equations[i]), -maxLag, maxLead, l);
      assert parts[..i + 1][..i] == parts[..i];
      if terms.Exit? {
        PartsExit(c, Var(beta, 0), parts, lo, n, i + 1, l);
        return Exit;
      }
      l := terms.value;
    }
    assert parts[..|equations|] == parts;
    lagrangian := Ok(l);
  }

  /** The inner loop over the lags. */
  method AddAllLags(c: Tree, beta: Symbol, part: Expr, lo: int, hi: int, start: Expr) returns (r: Outcome<Expr>)
    requires lo <= hi
    ensures r == AddLagrangianTerms(c, Var(beta, 0), part, lo, hi - lo + 1, start)
  {
    hide AddLagrangianTerm;
    var l := start;
    var lag := lo;
    while lag <= hi
      invariant lo <= lag <= hi + 1
      invariant AddLagrangianTerms(c, Var(beta, 0), part, lo, lag - lo, start) == Ok(l)
    {
      var term := AddLagrangianTerm(c, Var(beta, 0), part, lag, l);
      if term.Exit? {
        TermsExit(c, Var(beta, 0), part, lo, hi - lo + 1, lag - lo + 1, start);
        return Exit;
      }
      l := term.value;
      lag := lag + 1;
    }
    r := Ok(l);
  }

  lemma {:induction false} TermsExit(c: Tree, beta: Expr, part: Expr, lo: int, n: nat, m: nat, l: Expr)
    requires m <= n && AddLagrangianTerms(c, beta, part, lo, m, l) == Exit
    ensures AddLagrangianTerms(c, beta, part, lo, n, l) == Exit
  {
    hide AddLagrangianTerm;
    if m < n {
      TermsExit(c, beta, part, lo, n - 1, m, l);
    }
  }

  lemma {:induction false} PartsExit(c: Tree, beta: Expr, parts: seq<Expr>, lo: int, n: nat, i: nat, l: Expr)
    requires 0 < i <= |parts| && Lagrangian(c, beta, parts[..i - 1], lo, n) == Ok(l)
    requires AddLagrangianTerms(c, beta, parts[i - 1], lo, n, l) == Exit
    ensures Lagrangian(c, beta, parts, lo, n) == Exit
  {
    if i < |parts| {
      var init := parts[..|parts| - 1];
      assert init[..i - 1] == parts[..i - 1];
      PartsExit(c, beta, init, lo, n, i, l);
    } else {
      assert parts[..|parts| - 1] == parts[..i - 1];
    }
  }

  lemma {:induction false} TermsBuilt(c: Tree, beta: Symbol, part: Expr, lo: int, n: nat, l: Expr)
    requires Built(c, part) && Built(c, l)
    ensures AddLagrangianTerms(c, Var(beta, 0), part, lo, n, l).Ok?
            ==> Built(c, AddLagrangianTerms(c, Var(beta, 0), part, lo, n, l).value)
  {
    hide AddPlus, AddTimes, AddPower, DiscountExponent, Built;
    var terms := AddLagrangianTerms(c, Var(beta, 0), part, lo, n, l);
    if n > 0 && terms.Ok? {
      TermsBuilt(c, beta, part, lo, n - 1, l);
      var k, l' := lo + n - 1, AddLagrangianTerms(c, Var(beta, 0), part, lo, n - 1, l).value;
      var b := Var(beta, 0);
      DiscountValue(c, k, (beta, 0), Nowhere, 0);
      VariableBuilt(c, beta, 0);
      OperatorBuilt(c, Power, b, DiscountExponent(c, k));
      ShiftBuilt(c, part, k);
      var w, e := Discount(c, b, k), DecreaseLeadsLags(c, part, k).value;
      assert AddOperator(c, Power, b, DiscountExponent(c, k)) == Ok(w);
      OperatorBuilt(c, Times, w, e);
      OperatorBuilt(c, Plus, AddTimes(c, w, e), l');
    }
  }

  lemma VariableBuilt(c: Tree, s: Symbol, lag: int)
    ensures Built(c, Var(s, lag))
  {
  }

  /** The Lagrangian of nodes of the data tree is one. */
  lemma {:induction false} LagrangianBuilt(c: Tree, beta: Symbol, parts: seq<Expr>, lo: int, n: nat)
    requires forall e :: e in parts ==> Built(c, e)
    ensures Lagrangian(c, Var(beta, 0), parts, lo, n).Ok? ==> Built(c, Lagrangian(c, Var(beta, 0), parts, lo, n).value)
  {
    hide AddLagrangianTerms;
    if parts != [] {
      var init := parts[..|parts| - 1];
      LagrangianBuilt(c, beta, init, lo, n);
      if Lagrangian(c, Var(beta, 0), init, lo, n).Ok? {
        TermsBuilt(c, beta, parts[|parts| - 1], lo, n, Lagrangian(c, Var(beta, 0), init, lo, n).value);
      }
    }
  }

  lemma MultiplierBuilt(c: Tree, e: Expr, multiplier: Symbol)
    requires e.Bin? && Built(c, e)
    ensures var eq := AddMultiplierToConstraint(c, e, multiplier);
            && eq.Bin? && Built(c, NonZeroPart(eq))
            && NonZeroPart(eq) == AddTimes(c, Var(multiplier, 0), AddMinus(c, e.left, e.right))
  {
    hide AddTimes, AddMinus;
    VariableBuilt(c, multiplier, 0);
    OperatorBuilt(c, Minus, e.left, e.right);
    OperatorBuilt(c, Times, Var(multiplier, 0), AddMinus(c, e.left, e.right));
  }
}
