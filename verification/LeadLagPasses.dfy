/** Elimination of leads and lags by auxiliary variables. */
module LeadLagPasses {
  import opened Results
  import opened Expressions
  import opened Constructors
  import opened TimeShifts
  import opened AuxiliarySystems
  import opened AffineLeads

  /** Leads of this size or more are eliminated: endogenous from 2 on, exogenous from 1 on. */
  function Threshold(k: Kind): int {
    if k == Endogenous then 2 else 1
  }

  function OtherKind(k: Kind): Kind {
    if k == Endogenous then Exogenous else Endogenous
  }

  /** What a lead pass on kind k leaves: endogenous leads of at most 1, and no exogenous lead once the
      exogenous pass has run. */
  predicate LeadsReduced(k: Kind, e: Expr) {
    MaxLead(Endogenous, e) <= 1 && (k == Exogenous ==> MaxLead(Exogenous, e) == 0)
  }

  /** The exogenous pass runs after the endogenous one. */
  predicate LeadsReady(k: Kind, e: Expr) {
    k == Exogenous ==> MaxLead(Endogenous, e) <= 1
  }

  predicate AllReduced(k: Kind, es: seq<Expr>) {
    forall i :: 0 <= i < |es| ==> LeadsReduced(k, es[i])
  }

  lemma ReducedFunction(c: Tree, k: Kind, op: UnaryOp, a: Expr)
    requires LeadsReduced(k, a) && AddFunction(c, op, a).Ok?
    ensures LeadsReduced(k, AddFunction(c, op, a).value)
  {
    var n, lag1, lag2 := Bound(a), MaxLag(Endogenous, a), MaxLag(Exogenous, a);
    AddFunctionFits(c, op, a, n, Endogenous, 1, lag1);
    AddFunctionFits(c, op, a, n, Exogenous, MaxLead(Exogenous, a), lag2);
  }

  /** A bound on the symbols of an expression. */
  function Bound(e: Expr): (n: nat)
    ensures Below(e, n)
  {
    match e
    case Var(s, _) => s.id + 1
    case Un(_, arg) => Bound(arg)
    case Bin(_, l, r) =>
      var a, b := Bound(l), Bound(r);
      BelowMonotone(l, a, Larger(a, b));
      BelowMonotone(r, b, Larger(a, b));
      Larger(a, b)
    case _ => 0
  }

  lemma ReducedOperator(c: Tree, k: Kind, op: BinaryOp, a: Expr, b: Expr)
    requires LeadsReduced(k, a) && LeadsReduced(k, b) && AddOperator(c, op, a, b).Ok?
    ensures LeadsReduced(k, AddOperator(c, op, a, b).value)
  {
    var e := Bin(op, a, b);
    AddOperatorFits(c, op, a, b, Bound(e), Endogenous, 1, MaxLag(Endogenous, e));
    AddOperatorFits(c, op, a, b, Bound(e), Exogenous, MaxLead(Exogenous, e), MaxLag(Exogenous, e));
  }

  lemma AllReducedNext(k: Kind, neweqs: seq<Expr>, id: nat, rhs: Expr)
    requires AllReduced(k, neweqs) && LeadsReduced(k, rhs)
    ensures AllReduced(k, neweqs + [Bin(Equal, Var(Aux(id), 0), rhs)])
  {
    var e := Bin(Equal, Var(Aux(id), 0), rhs);
    assert MaxLead(Endogenous, e.left) == 0 && MaxLead(Exogenous, e.left) == 0;
  }

  /** Shifting back far enough removes the leads. */
  lemma ReducedShift(c: Tree, k: Kind, e: Expr)
    requires k == Endogenous || k == Exogenous
    requires LeadsReady(k, e) && MaxLead(k, e) >= Threshold(k)
    ensures match DecreaseLeadsLags(c, e, MaxLead(k, e) - Threshold(k) + 1)
            case Ok(r) => LeadsReduced(k, r)
            case Exit => true
  {
    var n := MaxLead(k, e) - Threshold(k) + 1;
    ShiftFits(c, e, n, Bound(e), k, Threshold(k) - 1, MaxLag(k, e) + n);
    if k == Exogenous {
      ShiftFits(c, e, n, Bound(e), Endogenous, 1, MaxLag(Endogenous, e) + n);
    }
  }

  /** What a lag pass on kind k leaves. */
  predicate LagsReduced(k: Kind, e: Expr) {
    MaxLag(Endogenous, e) <= 1 && (k == Exogenous ==> MaxLag(Exogenous, e) == 0)
  }

  predicate LagsReady(k: Kind, e: Expr) {
    k == Exogenous ==> MaxLag(Endogenous, e) <= 1
  }

  predicate LeadsBounded(e: Expr, endo: nat, exo: nat) {
    MaxLead(Endogenous, e) <= endo && MaxLead(Exogenous, e) <= exo
  }

  predicate AllLagsReduced(k: Kind, es: seq<Expr>) {
    forall i :: 0 <= i < |es| ==> LagsReduced(k, es[i]) && LeadsBounded(es[i], 0, 0)
  }

  lemma AllLagsReducedNext(k: Kind, neweqs: seq<Expr>, id: nat, rhs: Expr)
    requires AllLagsReduced(k, neweqs) && LagsReduced(k, rhs) && LeadsBounded(rhs, 0, 0)
    ensures AllLagsReduced(k, neweqs + [Bin(Equal, Var(Aux(id), 0), rhs)])
  {
    var e := Bin(Equal, Var(Aux(id), 0), rhs);
    assert LagsReduced(Exogenous, e.left) && LeadsBounded(e.left, 0, 0);
  }

  lemma LagsFunction(c: Tree, k: Kind, op: UnaryOp, a: Expr, endo: nat, exo: nat)
    requires LagsReduced(k, a) && LeadsBounded(a, endo, exo) && AddFunction(c, op, a).Ok?
    ensures LagsReduced(k, AddFunction(c, op, a).value) && LeadsBounded(AddFunction(c, op, a).value, endo, exo)
  {
    AddFunctionFits(c, op, a, Bound(a), Endogenous, endo, 1);
    AddFunctionFits(c, op, a, Bound(a), Exogenous, exo, MaxLag(Exogenous, a));
  }

  lemma LagsOperator(c: Tree, k: Kind, op: BinaryOp, a: Expr, b: Expr, endo: nat, exo: nat)
    requires LagsReduced(k, a) && LeadsBounded(a, endo, exo)
    requires LagsReduced(k, b) && LeadsBounded(b, endo, exo) && AddOperator(c, op, a, b).Ok?
    ensures var e := AddOperator(c, op, a, b).value; LagsReduced(k, e) && LeadsBounded(e, endo, exo)
  {
    var e := Bin(op, a, b);
    AddOperatorFits(c, op, a, b, Bound(e), Endogenous, endo, 1);
    AddOperatorFits(c, op, a, b, Bound(e), Exogenous, exo, MaxLag(Exogenous, e));
  }

  /** An equation between two variables. */
  predicate IsDelay(e: Expr) {
    IsEquation(e) && e.left.Var? && e.right.Var?
  }

  predicate AllDelays(es: seq<Expr>) {
    forall i :: 0 <= i < |es| ==> IsDelay(es[i])
  }

  /** What rebuilding keeps when only variables are replaced, by variables without a lead. */
  predicate Keeps(e: Expr, r: Expr, u: Marks) {
    && (Free(e, u) ==> Free(r, u)) && (Affine(e, u) ==> Affine(r, u)) && (LeadFree(e) ==> LeadFree(r))
    && (e.Var? ==> r.Var?)
  }

  lemma KeepsFunction(c: Tree, op: UnaryOp, arg: Expr, a: Expr, u: Marks)
    requires Keeps(arg, a, u) && AddFunction(c, op, a).Ok?
    ensures Keeps(Un(op, arg), AddFunction(c, op, a).value, u)
  {
    if Free(arg, u) {
      FunctionFree(c, op, a, u);
    }
    if op == Uminus && Affine(arg, u) {
      NegationAffine(c, a, u);
    }
    if LeadFree(arg) {
      AddFunctionFits(c, op, a, Bound(a), Endogenous, 0, MaxLag(Endogenous, a));
      AddFunctionFits(c, op, a, Bound(a), Exogenous, 0, MaxLag(Exogenous, a));
    }
  }

  lemma KeepsOperator(c: Tree, op: BinaryOp, l: Expr, r: Expr, a: Expr, b: Expr, u: Marks)
    requires Keeps(l, a, u) && Keeps(r, b, u) && AddOperator(c, op, a, b).Ok?
    ensures Keeps(Bin(op, l, r), AddOperator(c, op, a, b).value, u)
  {
    var e := Bin(op, a, b);
    if Free(Bin(op, l, r), u) {
      OperatorFree(c, op, a, b, u);
    } else if Affine(Bin(op, l, r), u) {
      assert Affine(e, u);
      OperatorAffine(c, op, a, b, u);
    }
    if LeadFree(Bin(op, l, r)) {
      AddOperatorFits(c, op, a, b, Bound(e), Endogenous, 0, MaxLag(Endogenous, e));
      AddOperatorFits(c, op, a, b, Bound(e), Exogenous, 0, MaxLag(Exogenous, e));
    }
  }

  class LeadLagPass {
    const c: Tree
    const k: Kind
    const deterministic: bool
    const step: int
    ghost const w: Pass
    ghost const u: Marks

    var subst: map<Expr, Expr>
    var neweqs: seq<Expr>
    var nextSymbol: nat
    ghost var aux: map<Symbol, Expr>
    ghost var drops: seq<Expr>

    ghost function Built(): Table
      reads this
    {
      Table(subst, neweqs, nextSymbol, aux, drops)
    }

    ghost predicate Valid()
      reads this
    {
      && w.c == c && w.step == step && (k == Endogenous || k == Exogenous)
      && TableOk(w, Built())
    }

    /** An expression the pass may be applied to. */
    ghost predicate Accepts(e: Expr)
    {
      Covers(w.c.m, w.roots, e) && Below(e, w.base)
    }

    /** r has the value of e along every path that satisfies the new equations and defines what was dropped. */
    ghost predicate Replaces(e: Expr, r: Expr)
      reads this
    {
      Same(w.c.m, drops, neweqs, e, r, 0) && Below(r, nextSymbol)
    }

    /** Equations, drops and symbols are only added. */
    twostate predicate Grows()
      reads this
    {
      Valid() && old(neweqs) <= neweqs && old(drops) <= drops && old(nextSymbol) <= nextSymbol
    }

    /** Each variable is substituted on its own. */
    predicate Single() {
      deterministic || step == -1
    }

    /** The nodes that get an auxiliary variable as a whole: variables and, in a lead pass over a stochastic model, what the
        conditional expectation cannot be moved into. */
    predicate Whole(e: Expr) {
      match e
      case Var(s, _) => s.kind == k
      case Un(op, _) => !Single() && op != Uminus
      case Bin(op, l, r) =>
        && !Single() && op != Plus && op != Minus && op != Equal
        && !((op == Times || op == Divide) && LeadFree(r)) && !(op == Times && LeadFree(l))
      case _ => false
    }

    ghost predicate Origin(key: Expr, e: Expr, n: int) {
      Whole(e) && DecreaseLeadsLags(c, e, n) == Ok(key)
    }

    /** The key stands for such a node at some date. */
    ghost predicate FromWhole(key: Expr) {
      exists e: Expr, n: int :: Origin(key, e, n)
    }

    /** What the definition of an auxiliary variable may be. */
    ghost predicate Suits(rhs: Expr) {
      if Single() then rhs.Var? else Affine(rhs, u)
    }

    /** The keys of the table, the new equations and the next free symbol: one symbol for each equation, only where a symbol
        is needed, and defined by an affine expression or, when each variable is substituted on its own, by a variable. */
    ghost predicate Fine(keys: set<Expr>, es: seq<Expr>, next: nat) {
      && next == w.base + |es|
      && (forall key :: key in keys ==> FromWhole(key))
      && if Single() then AllDelays(es) else AllAffine(es, u)
    }

    lemma FineNext(keys: set<Expr>, es: seq<Expr>, next: nat, key: Expr, rhs: Expr)
      requires Fine(keys, es, next) && FromWhole(key) && Suits(rhs)
      ensures Fine(keys + {key}, es + [Bin(Equal, Var(Aux(next), 0), rhs)], next + 1)
    {
      hide FromWhole;
      var e := Bin(Equal, Var(Aux(next), 0), rhs);
      if !Single() {
        assert Affine(e.left, u) && Affine(e, u);
      }
    }

    lemma VariableSuits(v: Expr)
      requires v.Var?
      ensures Suits(v)
    {
    }

    lemma FirstAuxiliary(e: Expr, n: nat)
      requires Whole(e) && Tame(e) && Below(e, w.base) && DecreaseLeadsLags(c, e, n).Ok?
      ensures Suits(DecreaseLeadsLags(c, e, n).value)
    {
      if !Single() {
        ShiftAffine(c, e, n, u, w.base);
      }
    }

    /** Nothing is asked of the marked symbols when each variable is substituted on its own. */
    ghost predicate Tame(e: Expr) {
      Single() || Affine(e, u)
    }

    constructor (c: Tree, k: Kind, deterministic: bool, roots: seq<Expr>, firstSymbol: nat, step: int, ghost u: Marks)
      requires Laws(c.m) && (k == Endogenous || k == Exogenous)
      requires forall i :: 0 <= i < |roots| ==> Below(roots[i], firstSymbol)
      ensures Valid() && neweqs == [] && drops == [] && nextSymbol == firstSymbol
      ensures this.c == c && this.k == k && this.u == u && this.deterministic == deterministic && this.step == step
      ensures w == Pass(c, roots, firstSymbol, step) && Fine(subst.Keys, neweqs, nextSymbol)
    {
      this.c, this.k, this.deterministic, this.step, this.u := c, k, deterministic, step, u;
      w := Pass(c, roots, firstSymbol, step);
      subst, neweqs, nextSymbol, aux, drops := map[], [], firstSymbol, map[], [];
    }

    /** The auxiliary variable of `key`: the one in the table, or a new one defined as `rhs`. */
    method AuxiliaryFor(key: Expr, rhs: Expr) returns (v: Expr)
      requires Valid() && Accepts(key) && Below(rhs, nextSymbol)
      requires Same(w.c.m, drops, neweqs, key, rhs, w.step)
      modifies this
      ensures Grows() && drops == old(drops)
      ensures if key in old(subst) then neweqs == old(neweqs) && subst == old(subst) && nextSymbol == old(nextSymbol)
              else neweqs == old(neweqs) + [Bin(Equal, Var(Aux(old(nextSymbol)), 0), rhs)]
                   && subst.Keys == old(subst).Keys + {key} && nextSymbol == old(nextSymbol) + 1
      ensures Replaces(key, v) && v.Var? && v.lag == step && v.sym.kind == Endogenous
    {
      hide Same, Covers, TableOk, DefinedAlong;
      if key in subst {
        UseEntry(key);
        v := subst[key];
      } else {
        EnterOk(w, Built(), key, rhs);
        v := Var(Aux(nextSymbol), step);
        neweqs := neweqs + [Bin(Equal, Var(Aux(nextSymbol), 0), rhs)];
        subst := subst[key := v];
        aux := aux[Aux(nextSymbol) := key];
        nextSymbol := nextSymbol + 1;
      }
    }

    /** What one substitution keeps and returns. */
    twostate predicate Step(e: Expr, new r: Outcome<Expr>)
      reads this
    {
      && Grows()
      && match r
         case Ok(v) => Replaces(e, v)
         case Exit => Undefined(w.c.m, w.roots)
    }

    /** Lead pass: all new equations are reduced. */
    ghost predicate ReducedSoFar()
      reads this
    {
      step == 1 && AllReduced(k, neweqs) && Fine(subst.Keys, neweqs, nextSymbol)
    }

    /** An auxiliary variable at lead 1 equal to e; the leads in between get auxiliary variables too. */
    method CreateLeadAuxiliary(e: Expr) returns (r: Outcome<Expr>)
      requires Valid() && ReducedSoFar() && Accepts(e) && Whole(e) && Tame(e)
      requires LeadsReady(k, e) && MaxLead(k, e) >= Threshold(k)
      modifies this
      ensures Step(e, r) && ReducedSoFar()
      ensures r.Ok? ==> LeadsReduced(k, r.value) && Tame(r.value)
    {
      hide TableOk, Same, Fine;
      var n := MaxLead(k, e);
      if e in subst {
        UseEntry(e);
        return Ok(subst[e]);
      }
      var substexpr :- Shifted(e, n - Threshold(k) + 1);
      ReducedShift(c, k, e);
      FirstAuxiliary(e, n - Threshold(k) + 1);
      var lag: int := n - Threshold(k);
      while lag >= 0
        invariant Grows() && ReducedSoFar()
        invariant -1 <= lag && LeadsReduced(k, substexpr) && Suits(substexpr)
        invariant Delayed(e, substexpr, lag + 1)
      {
        substexpr :- NextLead(e, substexpr, lag);
        lag := lag - 1;
      }
      return Ok(substexpr);
    }

    /** v has at each date the value e had d periods before. */
    ghost predicate Delayed(e: Expr, v: Expr, d: int)
      reads this
    {
      Same(w.c.m, drops, neweqs, e, v, d) && Below(v, nextSymbol)
    }

    /** From an expression equal to e(-lag-1), the auxiliary variable equal to e(-lag). */
    method NextLead(e: Expr, substexpr: Expr, lag: nat) returns (r: Outcome<Expr>)
      requires Valid() && ReducedSoFar() && Accepts(e) && Whole(e)
      requires Delayed(e, substexpr, lag + 1) && LeadsReduced(k, substexpr) && Suits(substexpr)
      modifies this
      ensures Grows() && ReducedSoFar()
      ensures match r
              case Ok(v) => Delayed(e, v, lag) && LeadsReduced(k, v) && Suits(v)
              case Exit => Undefined(w.c.m, w.roots)
    {
      hide TableOk, Fine, Same, Undefined, DecreaseLeadsLags, ShiftDrops, Whole, AllReduced, Affine;
      ghost var before, dropped := neweqs, drops;
      var orig :- Shifted(e, lag);
      SameMonotone(w.c.m, dropped, neweqs, drops, neweqs, e, substexpr, lag + 1);
      SameFrom(w.c.m, drops, neweqs, e, orig, substexpr, lag, lag + 1);
      AllReducedNext(k, neweqs, nextSymbol, substexpr);
      assert Origin(orig, e, lag);
      FineNext(subst.Keys, neweqs, nextSymbol, orig, substexpr);
      var v := AuxiliaryFor(orig, substexpr);
      VariableSuits(v);
      SameMonotone(w.c.m, drops, before, drops, neweqs, e, orig, lag);
      SameTransitive(w.c.m, drops, neweqs, e, orig, v, lag, 0);
      return Ok(v);
    }

    lemma UseEntry(key: Expr)
      requires Valid() && key in subst
      ensures Replaces(key, subst[key]) && subst[key].Var?
      ensures subst[key].lag == step && subst[key].sym.kind == Endogenous
    {
      assert EntryOk(w, Built(), key);
      assert SymbolOk(w, Built(), subst[key].sym);
    }

    /** The expression n periods earlier. What the constructors drop on the way is recorded. */
    method Shifted(e: Expr, n: int) returns (r: Outcome<Expr>)
      requires Valid() && Accepts(e)
      modifies this`drops
      ensures r == DecreaseLeadsLags(c, e, n) && Valid()
      ensures match r
              case Ok(v) => Accepts(v) && Same(w.c.m, drops, neweqs, e, v, n) && Below(v, nextSymbol)
              case Exit => Undefined(w.c.m, w.roots)
      ensures drops == old(drops) + if r.Ok? then ShiftDrops(c, e, n) else []
    {
      r := DecreaseLeadsLags(c, e, n);
      ShiftCovers(w.c, w.roots, e, n);
      ShiftFits(c, e, n, w.base, k, Larger(MaxLead(k, e) - n, 0), Larger(MaxLag(k, e) + n, 0));
      if r.Ok? {
        ShiftDropsOk(w, Built(), e, n);
        SameShift(w.c, drops, neweqs, e, n);
        BelowMonotone(r.value, w.base, nextSymbol);
        drops := drops + ShiftDrops(c, e, n);
      }
    }

    lemma Unchanged(e: Expr)
      requires Valid() && Accepts(e)
      ensures Replaces(e, e)
    {
      SameReflexive(w.c.m, drops, neweqs, e);
      BelowMonotone(e, w.base, nextSymbol);
    }

    lemma AcceptsArguments(e: Expr)
      requires Accepts(e)
      ensures e.Un? ==> Accepts(e.arg)
      ensures e.Bin? ==> Accepts(e.left) && Accepts(e.right)
    {
      CoversArguments(w.c.m, w.roots, e);
    }

    /** Rebuilds a function node on its substituted argument. */
    method RebuildFunction(op: UnaryOp, arg: Expr, a: Expr) returns (r: Outcome<Expr>)
      requires Valid() && Accepts(Un(op, arg)) && Replaces(arg, a)
      ensures r == AddFunction(c, op, a)
      ensures match r
              case Ok(v) => Replaces(Un(op, arg), v)
              case Exit => Undefined(w.c.m, w.roots)
    {
      r := AddFunction(c, op, a);
      AddFunctionFits(c, op, a, nextSymbol, k, MaxLead(k, a), MaxLag(k, a));
      if r.Ok? {
        SameFunction(w.c, drops, neweqs, op, arg, a);
      } else {
        FunctionEnds(w, Built(), op, arg, a);
      }
    }

    /** Rebuilds an operator node on its substituted arguments. What the constructor drops is recorded. */
    method RebuildOperator(op: BinaryOp, left: Expr, right: Expr, a: Expr, b: Expr) returns (r: Outcome<Expr>)
      requires Valid() && Accepts(Bin(op, left, right)) && Replaces(left, a) && Replaces(right, b)
      modifies this`drops
      ensures r == AddOperator(c, op, a, b) && Valid()
      ensures drops == old(drops) + if r.Ok? then Dropped(op, a, b) else []
      ensures match r
              case Ok(v) => Replaces(Bin(op, left, right), v)
              case Exit => Undefined(w.c.m, w.roots)
    {
      r := AddOperator(c, op, a, b);
      var e := Bin(op, a, b);
      AddOperatorFits(c, op, a, b, nextSymbol, k, MaxLead(k, e), MaxLag(k, e));
      if r.Ok? {
        SameOperator(w.c, drops, neweqs, op, left, right, a, b);
        OperatorDropsOk(w, Built(), op, left, right, a, b);
        drops := drops + Dropped(op, a, b);
      } else {
        OperatorEnds(w, Built(), op, left, right, a, b);
      }
    }

    /** The operators whose arguments are substituted separately; the others get an auxiliary variable
        for the whole node. */
    predicate Distributes(op: BinaryOp, left: Expr, right: Expr) {
      var n1, n2 := MaxLead(k, left), MaxLead(k, right);
      || deterministic
      || op == Plus || op == Minus || op == Equal
      || ((op == Times || op == Divide) && n1 >= Threshold(k) && n2 == 0 && MaxLead(OtherKind(k), right) == 0)
      || (op == Times && n1 == 0 && MaxLead(OtherKind(k), left) == 0 && n2 >= Threshold(k))
    }

    lemma TameArguments(e: Expr)
      requires Tame(e) && step == 1
      ensures e.Un? && (e.op == Uminus || deterministic) ==> Tame(e.arg)
      ensures e.Bin? ==> Tame(e.left) && Tame(e.right)
    {
      if e.Bin? && !Single() {
        AffineArguments(e.bop, e.left, e.right, u);
      }
    }

    lemma TameFunction(op: UnaryOp, a: Expr)
      requires (op == Uminus || deterministic) && Tame(a) && AddFunction(c, op, a).Ok?
      ensures Tame(AddFunction(c, op, a).value)
    {
      if !Single() {
        NegationAffine(c, a, u);
      }
    }

    lemma TameOperator(op: BinaryOp, left: Expr, right: Expr, a: Expr, b: Expr)
      requires (k == Endogenous || k == Exogenous) && Tame(Bin(op, left, right)) && Tame(a) && Tame(b)
      requires Distributes(op, left, right) && AddOperator(c, op, a, b).Ok?
      requires MaxLead(k, left) < Threshold(k) ==> a == left
      requires MaxLead(k, right) < Threshold(k) ==> b == right
      ensures Tame(AddOperator(c, op, a, b).value)
    {
      if !Single() {
        AffineArguments(op, left, right, u);
        assert Affine(Bin(op, a, b), u);
        OperatorAffine(c, op, a, b, u);
      }
    }

    /** Eliminates the leads of kind k from an expression. */
    method SubstituteLead(e: Expr) returns (r: Outcome<Expr>)
      requires Valid() && ReducedSoFar() && Accepts(e) && LeadsReady(k, e) && Tame(e)
      modifies this
      ensures Step(e, r) && ReducedSoFar()
      ensures r.Ok? ==> LeadsReduced(k, r.value) && Tame(r.value)
      ensures MaxLead(k, e) < Threshold(k) ==> subst == old(subst)
      decreases Size(e)
    {
      hide Fine, Tame;
      AcceptsArguments(e);
      TameArguments(e);
      match e
      case Var(s, lag) =>
        if s.kind == k && lag >= Threshold(k) {
          r := CreateLeadAuxiliary(e);
        } else {
          Unchanged(e);
          r := Ok(e);
        }
      case Un(op, arg) =>
        if op == Uminus || deterministic {
          var a :- SubstituteLead(arg);
          r := RebuildFunction(op, arg, a);
          if r.Ok? {
            ReducedFunction(c, k, op, a);
            TameFunction(op, a);
          }
        } else if MaxLead(k, e) >= Threshold(k) {
          r := CreateLeadAuxiliary(e);
        } else {
          Unchanged(e);
          r := Ok(e);
        }
      case Bin(op, left, right) =>
        if MaxLead(k, left) < Threshold(k) && MaxLead(k, right) < Threshold(k) {
          Unchanged(e);
          r := Ok(e);
        } else if Distributes(op, left, right) {
          var both :- SubstituteBoth(left, right);
          var a, b := both.0, both.1;
          r := RebuildOperator(op, left, right, a, b);
          if r.Ok? {
            ReducedOperator(c, k, op, a, b);
            TameOperator(op, left, right, a, b);
          }
        } else {
          r := CreateLeadAuxiliary(e);
        }
      case _ =>
        Unchanged(e);
        r := Ok(e);
    }

    /** Substitutes in the arguments that have leads to eliminate. */
    method SubstituteBoth(left: Expr, right: Expr) returns (r: Outcome<(Expr, Expr)>)
      requires Valid() && ReducedSoFar() && Accepts(left) && LeadsReady(k, left) && Accepts(right) && LeadsReady(k, right)
      requires Tame(left) && Tame(right)
      modifies this
      ensures Grows() && ReducedSoFar()
      ensures match r
              case Ok((a, b)) =>
                && Replaces(left, a) && Replaces(right, b) && LeadsReduced(k, a) && LeadsReduced(k, b)
                && Tame(a) && Tame(b)
                && (MaxLead(k, left) < Threshold(k) ==> a == left) && (MaxLead(k, right) < Threshold(k) ==> b == right)
              case Exit => Undefined(w.c.m, w.roots)
      ensures MaxLead(k, left) < Threshold(k) && MaxLead(k, right) < Threshold(k) ==> subst == old(subst)
      decreases Size(left) + Size(right)
    {
      hide Fine, Tame;
      var a, b := left, right;
      Unchanged(left);
      if MaxLead(k, left) >= Threshold(k) {
        a :- SubstituteLead(left);
      }
      ghost var before, dropped, first := neweqs, drops, nextSymbol;
      Unchanged(right);
      if MaxLead(k, right) >= Threshold(k) {
        b :- SubstituteLead(right);
      }
      SameMonotone(w.c.m, dropped, before, drops, neweqs, left, a, 0);
      BelowMonotone(a, first, nextSymbol);
      return Ok((a, b));
    }

    /** Lag pass: all new equations are reduced. */
    ghost predicate LagsReducedSoFar()
      reads this
    {
      step == -1 && AllLagsReduced(k, neweqs) && Fine(subst.Keys, neweqs, nextSymbol) && u.leads
    }

    /** Variables at all dates are defined, and moving the lag by one moves the date by one. */
    lemma VariableShift(s: Symbol, lag: int)
      requires Valid() && s.id < w.base && s.kind != Parameter
      ensures Accepts(Var(s, lag)) && Same(w.c.m, drops, neweqs, Var(s, lag), Var(s, lag + 1), -1)
    {
      forall p: Path, t: int
        ensures HasValue(w.c.m, Var(s, lag), p, t)
        ensures EqualAt(w.c.m, Var(s, lag), Var(s, lag + 1), -1, p, t)
      {
        assert DateOf(s, lag + 1, t - 1) == DateOf(s, lag, t);
      }
    }

    /** An auxiliary variable at lag 1 equal to the variable; the lags in between get one too. */
    method CreateLagAuxiliary(s: Symbol, lag: int) returns (v: Expr)
      requires Valid() && LagsReducedSoFar() && s.kind == k && s.id < w.base && lag <= -Threshold(k)
      modifies this
      ensures Grows() && LagsReducedSoFar()
      ensures Replaces(Var(s, lag), v) && LagsReduced(k, v) && LeadsBounded(v, 0, 0) && v.Var? && v.lag <= 0
    {
      hide Fine;
      VariableShift(s, lag);
      if Var(s, lag) in subst {
        UseEntry(Var(s, lag));
        return subst[Var(s, lag)];
      }
      var substexpr, curLag := Var(s, -(Threshold(k) - 1)), -Threshold(k);
      VariableShift(s, curLag + 1);
      Unchanged(substexpr);
      while curLag >= lag
        invariant Grows() && LagsReducedSoFar()
        invariant lag - 1 <= curLag && Replaces(Var(s, curLag + 1), substexpr)
        invariant LagsReduced(k, substexpr) && LeadsBounded(substexpr, 0, 0) && substexpr.Var? && substexpr.lag <= 0
      {
        substexpr := NextLag(s, curLag, substexpr);
        curLag := curLag - 1;
      }
      return substexpr;
    }

    /** From an expression equal to the variable at curLag + 1, the auxiliary variable equal to it at curLag. */
    method NextLag(s: Symbol, curLag: int, substexpr: Expr) returns (v: Expr)
      requires Valid() && LagsReducedSoFar() && s.id < w.base && s.kind == k
      requires Replaces(Var(s, curLag + 1), substexpr) && substexpr.Var?
      requires LagsReduced(k, substexpr) && LeadsBounded(substexpr, 0, 0)
      modifies this
      ensures Grows() && LagsReducedSoFar()
      ensures Replaces(Var(s, curLag), v) && LagsReduced(k, v) && LeadsBounded(v, 0, 0) && v.Var? && v.lag == -1
    {
      hide Fine;
      assert Origin(Var(s, curLag), Var(s, curLag), 0);
      FineNext(subst.Keys, neweqs, nextSymbol, Var(s, curLag), substexpr);
      VariableShift(s, curLag);
      SameTransitive(w.c.m, drops, neweqs, Var(s, curLag), Var(s, curLag + 1), substexpr, -1, 0);
      AllLagsReducedNext(k, neweqs, nextSymbol, substexpr);
      v := AuxiliaryFor(Var(s, curLag), substexpr);
    }

    lemma KeepsVariable(e: Expr, v: Expr)
      requires u.leads && e.Var? && v.Var? && v.lag <= 0
      ensures Keeps(e, v, u)
    {
    }

    lemma KeepsSame(e: Expr)
      ensures Keeps(e, e, u)
    {
    }

    /** Eliminates the lags of kind k from an expression. */
    method SubstituteLag(e: Expr) returns (r: Outcome<Expr>)
      requires Valid() && LagsReducedSoFar() && Accepts(e) && LagsReady(k, e)
      modifies this
      ensures Step(e, r) && LagsReducedSoFar()
      ensures r.Ok? ==> LagsReduced(k, r.value)
      ensures r.Ok? ==> LeadsBounded(r.value, MaxLead(Endogenous, e), MaxLead(Exogenous, e)) && Keeps(e, r.value, u)
      ensures MaxLag(k, e) < Threshold(k) ==> subst == old(subst)
      decreases Size(e)
    {
      hide Fine, Keeps;
      AcceptsArguments(e);
      match e
      case Var(s, lag) =>
        if s.kind == k && lag <= -Threshold(k) {
          var v := CreateLagAuxiliary(s, lag);
          KeepsVariable(e, v);
          r := Ok(v);
        } else {
          Unchanged(e);
          KeepsSame(e);
          r := Ok(e);
        }
      case Un(op, arg) =>
        var a :- SubstituteLag(arg);
        r := RebuildFunction(op, arg, a);
        if r.Ok? {
          LagsFunction(c, k, op, a, MaxLead(Endogenous, e), MaxLead(Exogenous, e));
          KeepsFunction(c, op, arg, a, u);
        }
      case Bin(op, left, right) =>
        var both :- SubstituteLags(left, right);
        var a, b := both.0, both.1;
        r := RebuildOperator(op, left, right, a, b);
        if r.Ok? {
          LagsOperator(c, k, op, a, b, MaxLead(Endogenous, e), MaxLead(Exogenous, e));
          KeepsOperator(c, op, left, right, a, b, u);
        }
      case _ =>
        Unchanged(e);
        KeepsSame(e);
        r := Ok(e);
    }

    /** Substitutes in both arguments. */
    method SubstituteLags(left: Expr, right: Expr) returns (r: Outcome<(Expr, Expr)>)
      requires Valid() && LagsReducedSoFar() && Accepts(left) && LagsReady(k, left) && Accepts(right) && LagsReady(k, right)
      modifies this
      ensures Grows() && LagsReducedSoFar()
      ensures match r
              case Ok((a, b)) =>
                var n, x := MaxLead(Endogenous, Bin(Equal, left, right)), MaxLead(Exogenous, Bin(Equal, left, right));
                && Replaces(left, a) && LagsReduced(k, a) && LeadsBounded(a, n, x)
                && Replaces(right, b) && LagsReduced(k, b) && LeadsBounded(b, n, x)
                && Keeps(left, a, u) && Keeps(right, b, u)
              case Exit => Undefined(w.c.m, w.roots)
      ensures MaxLag(k, left) < Threshold(k) && MaxLag(k, right) < Threshold(k) ==> subst == old(subst)
      decreases Size(left) + Size(right)
    {
      hide Fine, Keeps;
      var a :- SubstituteLag(left);
      ghost var before, dropped, first := neweqs, drops, nextSymbol;
      var b :- SubstituteLag(right);
      SameMonotone(w.c.m, dropped, before, drops, neweqs, left, a, 0);
      BelowMonotone(a, first, nextSymbol);
      return Ok((a, b));
    }
  }
}
