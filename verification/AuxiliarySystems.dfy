/** The meaning of a substitution table and of the auxiliary equations that define its symbols. */
module AuxiliarySystems {
  import opened Results
  import opened Expressions
  import opened Constructors
  import opened TimeShifts

  predicate IsEquation(e: Expr) {
    e.Bin? && e.bop == Equal
  }

  /** All roots are defined at every date. */
  ghost predicate DefinedAlong(m: Functions, roots: seq<Expr>, p: Path) {
    forall i, t :: 0 <= i < |roots| ==> Defined(m, roots[i], p, t)
  }

  /** All equations hold at every date. */
  ghost predicate Solves(m: Functions, eqs: seq<Expr>, p: Path) {
    forall i, t :: 0 <= i < |eqs| ==> Holds(m, eqs[i], p, t)
  }

  /** The new equations hold, and what was dropped in deriving them is defined. */
  ghost predicate Good(m: Functions, drops: seq<Expr>, neweqs: seq<Expr>, q: Path) {
    DefinedAlong(m, drops, q) && Solves(m, neweqs, q)
  }

  /** e is defined at every date along the paths that define the roots. */
  ghost predicate Covers(m: Functions, roots: seq<Expr>, e: Expr) {
    forall p: Path, t: int :: DefinedAlong(m, roots, p) ==> HasValue(m, e, p, t)
  }

  predicate HasValue(m: Functions, e: Expr, p: Path, t: int) {
    Value(m, e, p, t).Some?
  }

  /** Along the good paths r has d periods later exactly the value of e, undefined included. */
  ghost predicate Same(m: Functions, drops: seq<Expr>, neweqs: seq<Expr>, e: Expr, r: Expr, d: int) {
    forall q: Path, t: int :: Good(m, drops, neweqs, q) ==> EqualAt(m, e, r, d, q, t)
  }

  predicate EqualAt(m: Functions, e: Expr, r: Expr, d: int, q: Path, t: int) {
    Value(m, r, q, t + d) == Value(m, e, q, t)
  }

  /** No path defines all roots: the model is meaningless. */
  ghost predicate Undefined(m: Functions, roots: seq<Expr>) {
    forall p: Path :: !DefinedAlong(m, roots, p)
  }

  lemma DefinedParts(m: Functions, es: seq<Expr>, fs: seq<Expr>, p: Path)
    ensures DefinedAlong(m, es + fs, p) <==> DefinedAlong(m, es, p) && DefinedAlong(m, fs, p)
  {
    if DefinedAlong(m, es + fs, p) {
      forall i, t | 0 <= i < |es| ensures Defined(m, es[i], p, t) {
        assert es[i] == (es + fs)[i];
      }
      forall i, t | 0 <= i < |fs| ensures Defined(m, fs[i], p, t) {
        assert fs[i] == (es + fs)[|es| + i];
      }
    }
  }

  lemma SameAt(m: Functions, drops: seq<Expr>, neweqs: seq<Expr>, e: Expr, r: Expr, d: int, q: Path, t: int)
    requires Same(m, drops, neweqs, e, r, d) && Good(m, drops, neweqs, q)
    ensures Value(m, r, q, t + d) == Value(m, e, q, t)
  {
    assert EqualAt(m, e, r, d, q, t);
  }

  lemma CoversAt(m: Functions, roots: seq<Expr>, e: Expr, p: Path, t: int)
    requires Covers(m, roots, e) && DefinedAlong(m, roots, p)
    ensures Value(m, e, p, t).Some?
  {
    assert HasValue(m, e, p, t);
  }

  lemma SameReflexive(m: Functions, drops: seq<Expr>, neweqs: seq<Expr>, e: Expr)
    ensures Same(m, drops, neweqs, e, e, 0)
  {
  }

  lemma SameTransitive(m: Functions, drops: seq<Expr>, neweqs: seq<Expr>, e: Expr, a: Expr, b: Expr, d1: int, d2: int)
    requires Same(m, drops, neweqs, e, a, d1) && Same(m, drops, neweqs, a, b, d2)
    ensures Same(m, drops, neweqs, e, b, d1 + d2)
  {
    var d := d1 + d2;
    forall q: Path, t: int | Good(m, drops, neweqs, q) ensures EqualAt(m, e, b, d, q, t) {
      SameAt(m, drops, neweqs, e, a, d1, q, t);
      SameAt(m, drops, neweqs, a, b, d2, q, t + d1);
      assert (t + d1) + d2 == t + d;
    }
  }

  lemma SameFrom(m: Functions, drops: seq<Expr>, neweqs: seq<Expr>, e: Expr, a: Expr, b: Expr, d1: int, d2: int)
    requires Same(m, drops, neweqs, e, a, d1) && Same(m, drops, neweqs, e, b, d2)
    ensures Same(m, drops, neweqs, a, b, d2 - d1)
  {
    var d := d2 - d1;
    forall q: Path, t: int | Good(m, drops, neweqs, q) ensures EqualAt(m, a, b, d, q, t) {
      SameAt(m, drops, neweqs, e, a, d1, q, t - d1);
      SameAt(m, drops, neweqs, e, b, d2, q, t - d1);
      assert (t - d1) + d1 == t && (t - d1) + d2 == t + d;
    }
  }

  /** With more equations and more drops, fewer paths are good. */
  lemma GoodPrefix(m: Functions, drops: seq<Expr>, neweqs: seq<Expr>, drops': seq<Expr>, neweqs': seq<Expr>, q: Path)
    requires drops <= drops' && neweqs <= neweqs' && Good(m, drops', neweqs', q)
    ensures Good(m, drops, neweqs, q)
  {
    assert forall i :: 0 <= i < |neweqs| ==> neweqs[i] == neweqs'[i];
    assert forall i :: 0 <= i < |drops| ==> drops[i] == drops'[i];
  }

  lemma SameMonotone(m: Functions, drops: seq<Expr>, neweqs: seq<Expr>, drops': seq<Expr>, neweqs': seq<Expr>,
                     e: Expr, r: Expr, d: int)
    requires Same(m, drops, neweqs, e, r, d) && drops <= drops' && neweqs <= neweqs'
    ensures Same(m, drops', neweqs', e, r, d)
  {
    forall q: Path, t: int | Good(m, drops', neweqs', q) ensures EqualAt(m, e, r, d, q, t) {
      GoodPrefix(m, drops, neweqs, drops', neweqs', q);
    }
  }

  /** Shifting an expression: what it drops must be defined. */
  lemma SameShift(c: Tree, drops: seq<Expr>, neweqs: seq<Expr>, e: Expr, n: int)
    requires Laws(c.m) && DecreaseLeadsLags(c, e, n).Ok?
    ensures Same(c.m, drops + ShiftDrops(c, e, n), neweqs, e, DecreaseLeadsLags(c, e, n).value, n)
  {
    hide DecreaseLeadsLags, ShiftDrops, Laws;
    var r, more := DecreaseLeadsLags(c, e, n).value, ShiftDrops(c, e, n);
    forall q: Path, t: int | Good(c.m, drops + more, neweqs, q) ensures EqualAt(c.m, e, r, n, q, t) {
      DefinedParts(c.m, drops, more, q);
      ShiftValue(c, e, n, q, t + n);
      assert t + n - n == t && AllDefined(c.m, more, q, t + n);
    }
  }

  /** Shifting a covered expression: the result and what is dropped are covered. */
  lemma ShiftCovers(c: Tree, roots: seq<Expr>, e: Expr, n: int)
    requires Laws(c.m) && Covers(c.m, roots, e)
    ensures match DecreaseLeadsLags(c, e, n)
            case Ok(r) => Covers(c.m, roots, r)
            case Exit => Undefined(c.m, roots)
    ensures DecreaseLeadsLags(c, e, n).Ok? ==>
              forall p: Path :: DefinedAlong(c.m, roots, p) ==> DefinedAlong(c.m, ShiftDrops(c, e, n), p)
  {
    hide DecreaseLeadsLags, ShiftDrops, Laws;
    var r, more := DecreaseLeadsLags(c, e, n), ShiftDrops(c, e, n);
    forall p: Path, t: int | DefinedAlong(c.m, roots, p)
      ensures r.Ok? && HasValue(c.m, r.value, p, t) && AllDefined(c.m, more, p, t)
    {
      CoversAt(c.m, roots, e, p, t - n);
      ShiftValue(c, e, n, p, t);
    }
    forall p: Path | DefinedAlong(c.m, roots, p) ensures r.Ok? && DefinedAlong(c.m, more, p) {
      forall i, t | 0 <= i < |more| ensures Defined(c.m, more[i], p, t) {
        assert AllDefined(c.m, more, p, t);
      }
      assert AllDefined(c.m, more, p, 0);
    }
  }

  /** Rebuilding a function node on an equal argument. */
  lemma SameFunction(c: Tree, drops: seq<Expr>, neweqs: seq<Expr>, op: UnaryOp, arg: Expr, a: Expr)
    requires Laws(c.m) && Same(c.m, drops, neweqs, arg, a, 0) && AddFunction(c, op, a).Ok?
    ensures Same(c.m, drops, neweqs, Un(op, arg), AddFunction(c, op, a).value, 0)
  {
    var r := AddFunction(c, op, a).value;
    forall q: Path, t: int | Good(c.m, drops, neweqs, q) ensures EqualAt(c.m, Un(op, arg), r, 0, q, t) {
      SameAt(c.m, drops, neweqs, arg, a, 0, q, t);
      AddFunctionValue(c, op, a, q, t);
      assert Value(c.m, Un(op, a), q, t) == Value(c.m, Un(op, arg), q, t);
    }
  }

  /** Rebuilding an operator node on equal arguments: what it drops must be defined. */
  lemma SameOperator(c: Tree, drops: seq<Expr>, neweqs: seq<Expr>, op: BinaryOp, l: Expr, r: Expr, a: Expr, b: Expr)
    requires Laws(c.m) && AddOperator(c, op, a, b).Ok?
    requires Same(c.m, drops, neweqs, l, a, 0) && Same(c.m, drops, neweqs, r, b, 0)
    ensures Same(c.m, drops + Dropped(op, a, b), neweqs, Bin(op, l, r), AddOperator(c, op, a, b).value, 0)
  {
    var e, more := AddOperator(c, op, a, b).value, Dropped(op, a, b);
    forall q: Path, t: int | Good(c.m, drops + more, neweqs, q) ensures EqualAt(c.m, Bin(op, l, r), e, 0, q, t) {
      DefinedParts(c.m, drops, more, q);
      ArgumentsAt(c.m, drops, neweqs, op, l, r, a, b, q, t);
      OperatorDropped(c, op, a, b, q, t);
      assert AllDefined(c.m, more, q, t);
    }
  }

  lemma ArgumentsAt(m: Functions, drops: seq<Expr>, neweqs: seq<Expr>, op: BinaryOp, l: Expr, r: Expr, a: Expr, b: Expr,
                    q: Path, t: int)
    requires Same(m, drops, neweqs, l, a, 0) && Same(m, drops, neweqs, r, b, 0) && Good(m, drops, neweqs, q)
    ensures Value(m, Bin(op, a, b), q, t) == Value(m, Bin(op, l, r), q, t)
  {
    SameAt(m, drops, neweqs, l, a, 0, q, t);
    SameAt(m, drops, neweqs, r, b, 0, q, t);
  }

  /** Arguments of a covered node are covered. */
  lemma CoversArguments(m: Functions, roots: seq<Expr>, e: Expr)
    requires Covers(m, roots, e)
    ensures e.Un? ==> Covers(m, roots, e.arg)
    ensures e.Bin? ==> Covers(m, roots, e.left) && Covers(m, roots, e.right)
  {
    forall p: Path, t: int | DefinedAlong(m, roots, p)
      ensures e.Un? ==> HasValue(m, e.arg, p, t)
      ensures e.Bin? ==> HasValue(m, e.left, p, t) && HasValue(m, e.right, p, t)
    {
      CoversAt(m, roots, e, p, t);
    }
  }

  // ----- the table of auxiliary symbols

  /** The symbol of an auxiliary variable. */
  function Aux(id: nat): Symbol {
    Symbol(id, Endogenous)
  }

  /** Every auxiliary symbol gets at date t the value of its definition at date t - step. */
  ghost function Extend(m: Functions, aux: map<Symbol, Expr>, step: int, p: Path): Path {
    (s: Symbol, t: int) =>
      if s in aux then
        match Value(m, aux[s], p, t - step)
        case Some(v) => v
        case None => 0.0
      else p(s, t)
  }

  /** Paths that agree on all symbols below n give the same values to expressions below n. */
  lemma {:induction false} ValueBelow(m: Functions, e: Expr, n: nat, p: Path, q: Path, t: int)
    requires Below(e, n) && forall s: Symbol, t: int :: s.id < n ==> p(s, t) == q(s, t)
    ensures Value(m, e, p, t) == Value(m, e, q, t)
  {
    match e
    case Un(_, arg) => ValueBelow(m, arg, n, p, q, t);
    case Bin(_, l, r) => ValueBelow(m, l, n, p, q, t); ValueBelow(m, r, n, p, q, t);
    case _ =>
  }

  /** The parameters of one pass: the roots, whose symbols lie below `base`, and the date offset
      (+1 for leads, -1 for lags) of the auxiliary variable that replaces a table key. */
  datatype Pass = Pass(c: Tree, roots: seq<Expr>, base: nat, step: int)

  /** What a pass builds: the substitution table, the equations that define its auxiliary symbols, the
      next free symbol, for each auxiliary symbol the expression it stands for, and the operations that
      constructors have dropped. */
  datatype Table =
    Table(subst: map<Expr, Expr>, neweqs: seq<Expr>, next: nat, aux: map<Symbol, Expr>, drops: seq<Expr>)

  ghost predicate EntryOk(w: Pass, tb: Table, key: Expr)
    requires key in tb.subst
  {
    var v := tb.subst[key];
    && v.Var? && v.lag == w.step
    && v.sym in tb.aux && tb.aux[v.sym] == key
    && Same(w.c.m, tb.drops, tb.neweqs, key, v, 0)
  }

  ghost predicate SymbolOk(w: Pass, tb: Table, s: Symbol)
    requires s in tb.aux
  {
    && w.base <= s.id < tb.next && s.kind == Endogenous
    && Below(tb.aux[s], w.base) && Covers(w.c.m, w.roots, tb.aux[s])
    && tb.aux[s] in tb.subst && tb.subst[tb.aux[s]] == Var(s, w.step)
  }

  /** Along every path that defines the roots, the extended path solves the new equations. */
  ghost predicate Adequate(w: Pass, tb: Table) {
    forall p: Path :: DefinedAlong(w.c.m, w.roots, p) ==>
      Solves(w.c.m, tb.neweqs, Extend(w.c.m, tb.aux, w.step, p))
  }

  /** Where the roots are defined and the new equations hold, nothing undefined was dropped. */
  ghost predicate DropsOk(w: Pass, tb: Table) {
    && (forall i :: 0 <= i < |tb.drops| ==> IsDropped(tb.drops[i]))
    && forall q: Path :: DefinedAlong(w.c.m, w.roots, q) && Solves(w.c.m, tb.neweqs, q) ==>
         DefinedAlong(w.c.m, tb.drops, q)
  }

  predicate IsDropped(e: Expr) {
    e.Bin? && Drops(e.bop, e.left, e.right)
  }

  ghost predicate TableOk(w: Pass, tb: Table) {
    && Laws(w.c.m)
    && w.base <= tb.next
    && (forall i :: 0 <= i < |w.roots| ==> Below(w.roots[i], w.base))
    && (forall key :: key in tb.subst ==> EntryOk(w, tb, key))
    && (forall s :: s in tb.aux ==> SymbolOk(w, tb, s))
    && (forall id: nat :: w.base <= id < tb.next ==> Aux(id) in tb.aux)
    && (forall i :: 0 <= i < |tb.neweqs| ==> IsEquation(tb.neweqs[i]) && Below(tb.neweqs[i], tb.next))
    && Adequate(w, tb)
    && DropsOk(w, tb)
  }

  /** An extended path that defines the roots is good. */
  lemma ExtendGood(w: Pass, tb: Table, p: Path)
    requires TableOk(w, tb) && DefinedAlong(w.c.m, w.roots, p)
    ensures var q := Extend(w.c.m, tb.aux, w.step, p);
            DefinedAlong(w.c.m, w.roots, q) && Good(w.c.m, tb.drops, tb.neweqs, q)
  {
    var q := Extend(w.c.m, tb.aux, w.step, p);
    assert forall s :: s in tb.aux ==> SymbolOk(w, tb, s);
    forall i, t | 0 <= i < |w.roots| ensures Defined(w.c.m, w.roots[i], q, t) {
      DefinedBelow(w.c.m, w.roots[i], w.base, p, q, t);
      assert Defined(w.c.m, w.roots[i], p, t);
    }
  }

  lemma DefinedBelow(m: Functions, e: Expr, n: nat, p: Path, q: Path, t: int)
    requires Below(e, n) && forall s: Symbol, t: int :: s.id < n ==> p(s, t) == q(s, t)
    ensures Defined(m, e, p, t) <==> Defined(m, e, q, t)
    ensures Holds(m, e, p, t) <==> Holds(m, e, q, t)
  {
    ValueBelow(m, e, n, p, q, t);
    if e.Bin? {
      ValueBelow(m, e.left, n, p, q, t);
      ValueBelow(m, e.right, n, p, q, t);
    }
  }

  /** The table after a new auxiliary symbol for `key`, defined as `rhs`. */
  function Enter(w: Pass, tb: Table, key: Expr, rhs: Expr): Table {
    var a := Aux(tb.next);
    Table(tb.subst[key := Var(a, w.step)], tb.neweqs + [Bin(Equal, Var(a, 0), rhs)], tb.next + 1, tb.aux[a := key],
          tb.drops)
  }

  lemma SolvesAt(m: Functions, eqs: seq<Expr>, q: Path, i: nat, t: int)
    requires Solves(m, eqs, q) && i < |eqs|
    ensures Holds(m, eqs[i], q, t)
  {
  }

  /** Where the definition of an auxiliary symbol holds, the symbol has the value of the right side. */
  lemma DefinitionValue(m: Functions, id: nat, rhs: Expr, q: Path, t: int)
    ensures Value(m, Var(Aux(id), 0), q, t) == Some(q(Aux(id), t))
    ensures Holds(m, Bin(Equal, Var(Aux(id), 0), rhs), q, t) <==> Value(m, rhs, q, t) == Some(q(Aux(id), t))
  {
    assert DateOf(Aux(id), 0, t) == t;
  }

  /** A good path of the larger system gives the new symbol the value of its definition. */
  lemma EnterSame(w: Pass, tb: Table, key: Expr, rhs: Expr)
    requires Same(w.c.m, tb.drops, tb.neweqs, key, rhs, w.step)
    ensures Same(w.c.m, tb.drops, Enter(w, tb, key, rhs).neweqs, key, Var(Aux(tb.next), w.step), 0)
  {
    var more := Enter(w, tb, key, rhs).neweqs;
    SameMonotone(w.c.m, tb.drops, tb.neweqs, tb.drops, more, key, rhs, w.step);
    forall q: Path, t: int | Good(w.c.m, tb.drops, more, q)
      ensures EqualAt(w.c.m, key, Var(Aux(tb.next), w.step), 0, q, t)
    {
      NewSymbolValue(w, tb, key, rhs, q, t);
    }
  }

  lemma NewSymbolValue(w: Pass, tb: Table, key: Expr, rhs: Expr, q: Path, t: int)
    requires Same(w.c.m, tb.drops, Enter(w, tb, key, rhs).neweqs, key, rhs, w.step)
    requires Good(w.c.m, tb.drops, Enter(w, tb, key, rhs).neweqs, q)
    ensures Value(w.c.m, Var(Aux(tb.next), w.step), q, t) == Value(w.c.m, key, q, t)
  {
    var more := Enter(w, tb, key, rhs).neweqs;
    SameAt(w.c.m, tb.drops, more, key, rhs, w.step, q, t);
    SolvesAt(w.c.m, more, q, |tb.neweqs|, t + w.step);
    DefinitionValue(w.c.m, tb.next, rhs, q, t + w.step);
    assert DateOf(Aux(tb.next), w.step, t) == t + w.step;
  }

  /** The extended path also solves the new equation. */
  lemma EnterAdequate(w: Pass, tb: Table, key: Expr, rhs: Expr)
    requires TableOk(w, tb) && Covers(w.c.m, w.roots, key) && Below(key, w.base) && Below(rhs, tb.next)
    requires Same(w.c.m, tb.drops, tb.neweqs, key, rhs, w.step)
    ensures Adequate(w, Enter(w, tb, key, rhs))
  {
    var tb' := Enter(w, tb, key, rhs);
    forall p: Path | DefinedAlong(w.c.m, w.roots, p)
      ensures Solves(w.c.m, tb'.neweqs, Extend(w.c.m, tb'.aux, w.step, p))
    {
      forall i, t | 0 <= i < |tb'.neweqs|
        ensures Holds(w.c.m, tb'.neweqs[i], Extend(w.c.m, tb'.aux, w.step, p), t)
      {
        EnterSolves(w, tb, key, rhs, p, i, t);
      }
    }
  }

  lemma EnterSolves(w: Pass, tb: Table, key: Expr, rhs: Expr, p: Path, i: nat, t: int)
    requires TableOk(w, tb) && Covers(w.c.m, w.roots, key) && Below(key, w.base) && Below(rhs, tb.next)
    requires Same(w.c.m, tb.drops, tb.neweqs, key, rhs, w.step)
    requires DefinedAlong(w.c.m, w.roots, p) && i < |Enter(w, tb, key, rhs).neweqs|
    ensures var tb' := Enter(w, tb, key, rhs);
            Holds(w.c.m, tb'.neweqs[i], Extend(w.c.m, tb'.aux, w.step, p), t)
  {
    hide Value, Holds, Below, Same, Covers, DefinedAlong;
    var m, tb' := w.c.m, Enter(w, tb, key, rhs);
    var q, q' := Extend(m, tb.aux, w.step, p), Extend(m, tb'.aux, w.step, p);
    ExtendGood(w, tb, p);
    assert forall s :: s in tb.aux ==> SymbolOk(w, tb, s);
    if i < |tb.neweqs| {
      SolvesAt(m, tb.neweqs, q, i, t);
      DefinedBelow(m, tb.neweqs[i], tb.next, q, q', t);
    } else {
      CoversAt(m, w.roots, key, p, t - w.step);
      NewDefinitionHolds(w, tb, key, rhs, p, t);
    }
  }

  lemma NewDefinitionHolds(w: Pass, tb: Table, key: Expr, rhs: Expr, p: Path, t: int)
    requires TableOk(w, tb) && Below(key, w.base) && Below(rhs, tb.next)
    requires Same(w.c.m, tb.drops, tb.neweqs, key, rhs, w.step)
    requires Good(w.c.m, tb.drops, tb.neweqs, Extend(w.c.m, tb.aux, w.step, p))
    requires Value(w.c.m, key, p, t - w.step).Some?
    ensures var q' := Extend(w.c.m, Enter(w, tb, key, rhs).aux, w.step, p);
            Holds(w.c.m, Bin(Equal, Var(Aux(tb.next), 0), rhs), q', t)
  {
    hide Holds, Below, Same, DefinedAlong, Solves;
    var m := w.c.m;
    var q, q' := Extend(m, tb.aux, w.step, p), Extend(m, Enter(w, tb, key, rhs).aux, w.step, p);
    SameAt(m, tb.drops, tb.neweqs, key, rhs, w.step, q, t - w.step);
    assert t - w.step + w.step == t;
    assert forall s :: s in tb.aux ==> SymbolOk(w, tb, s);
    ValueBelow(m, key, w.base, p, q, t - w.step);
    ValueBelow(m, rhs, tb.next, q, q', t);
    DefinitionValue(m, tb.next, rhs, q', t);
  }

  /** Entering a new auxiliary symbol keeps the table correct. */
  lemma EnterOk(w: Pass, tb: Table, key: Expr, rhs: Expr)
    requires TableOk(w, tb) && key !in tb.subst
    requires Covers(w.c.m, w.roots, key) && Below(key, w.base) && Below(rhs, tb.next)
    requires Same(w.c.m, tb.drops, tb.neweqs, key, rhs, w.step)
    ensures TableOk(w, Enter(w, tb, key, rhs))
    ensures Same(w.c.m, tb.drops, Enter(w, tb, key, rhs).neweqs, key, Var(Aux(tb.next), w.step), 0)
  {
    var tb' := Enter(w, tb, key, rhs);
    EnterSame(w, tb, key, rhs);
    EnterAdequate(w, tb, key, rhs);
    forall k | k in tb'.subst ensures EntryOk(w, tb', k) {
      if k != key {
        assert EntryOk(w, tb, k) && SymbolOk(w, tb, tb.subst[k].sym);
        SameMonotone(w.c.m, tb.drops, tb.neweqs, tb.drops, tb'.neweqs, k, tb.subst[k], 0);
      }
    }
    forall s | s in tb'.aux ensures SymbolOk(w, tb', s) {
      if s != Aux(tb.next) {
        assert SymbolOk(w, tb, s);
      }
    }
    forall i | 0 <= i < |tb'.neweqs| ensures IsEquation(tb'.neweqs[i]) && Below(tb'.neweqs[i], tb'.next) {
      BelowMonotone(if i < |tb.neweqs| then tb.neweqs[i] else rhs, tb.next, tb'.next);
    }
    forall id: nat | w.base <= id < tb'.next ensures Aux(id) in tb'.aux {
      assert id < tb.next ==> Aux(id) in tb.aux;
    }
    forall q: Path | DefinedAlong(w.c.m, w.roots, q) && Solves(w.c.m, tb'.neweqs, q)
      ensures DefinedAlong(w.c.m, tb.drops, q)
    {
      GoodPrefix(w.c.m, [], tb.neweqs, [], tb'.neweqs, q);
    }
  }

  // ----- dropped operations

  /** The paths along which the roots are defined and the new equations hold. */
  ghost predicate Admitted(w: Pass, tb: Table, q: Path) {
    DefinedAlong(w.c.m, w.roots, q) && Good(w.c.m, tb.drops, tb.neweqs, q)
  }

  /** Recording drops that are harmless along all admitted paths keeps the table correct. */
  lemma MoreDrops(w: Pass, tb: Table, more: seq<Expr>)
    requires TableOk(w, tb) && forall i :: 0 <= i < |more| ==> IsDropped(more[i])
    requires forall q: Path :: Admitted(w, tb, q) ==> DefinedAlong(w.c.m, more, q)
    ensures TableOk(w, tb.(drops := tb.drops + more))
  {
    var tb' := tb.(drops := tb.drops + more);
    forall key | key in tb'.subst ensures EntryOk(w, tb', key) {
      assert EntryOk(w, tb, key);
      SameMonotone(w.c.m, tb.drops, tb.neweqs, tb'.drops, tb.neweqs, key, tb.subst[key], 0);
    }
    forall s | s in tb'.aux ensures SymbolOk(w, tb', s) {
      assert SymbolOk(w, tb, s);
    }
    forall q: Path | DefinedAlong(w.c.m, w.roots, q) && Solves(w.c.m, tb'.neweqs, q)
      ensures DefinedAlong(w.c.m, tb'.drops, q)
    {
      assert Admitted(w, tb, q);
      DefinedParts(w.c.m, tb.drops, more, q);
    }
  }

  lemma {:induction false} ShiftDropsDropped(c: Tree, e: Expr, n: int)
    ensures forall i :: 0 <= i < |ShiftDrops(c, e, n)| ==> IsDropped(ShiftDrops(c, e, n)[i])
  {
    match e
    case Un(_, arg) => ShiftDropsDropped(c, arg, n);
    case Bin(_, l, r) => ShiftDropsDropped(c, l, n); ShiftDropsDropped(c, r, n);
    case _ =>
  }

  /** The drops of the shift of a covered expression. */
  lemma ShiftDropsOk(w: Pass, tb: Table, e: Expr, n: int)
    requires TableOk(w, tb) && Covers(w.c.m, w.roots, e) && DecreaseLeadsLags(w.c, e, n).Ok?
    ensures TableOk(w, tb.(drops := tb.drops + ShiftDrops(w.c, e, n)))
  {
    ShiftCovers(w.c, w.roots, e, n);
    ShiftDropsDropped(w.c, e, n);
    MoreDrops(w, tb, ShiftDrops(w.c, e, n));
  }

  /** The drop of a rebuilt operator node that is covered. */
  lemma OperatorDropsOk(w: Pass, tb: Table, op: BinaryOp, l: Expr, r: Expr, a: Expr, b: Expr)
    requires TableOk(w, tb) && Covers(w.c.m, w.roots, Bin(op, l, r))
    requires Same(w.c.m, tb.drops, tb.neweqs, l, a, 0) && Same(w.c.m, tb.drops, tb.neweqs, r, b, 0)
    ensures TableOk(w, tb.(drops := tb.drops + Dropped(op, a, b)))
  {
    var more := Dropped(op, a, b);
    forall q: Path | Admitted(w, tb, q) ensures DefinedAlong(w.c.m, more, q) {
      forall i, t | 0 <= i < |more| ensures Defined(w.c.m, more[i], q, t) {
        CoversAt(w.c.m, w.roots, Bin(op, l, r), q, t);
        ArgumentsAt(w.c.m, tb.drops, tb.neweqs, op, l, r, a, b, q, t);
      }
    }
    MoreDrops(w, tb, more);
  }

  /** The program ends on a function node only if the roots are undefined. */
  lemma FunctionEnds(w: Pass, tb: Table, op: UnaryOp, arg: Expr, a: Expr)
    requires TableOk(w, tb) && Covers(w.c.m, w.roots, Un(op, arg)) && AddFunction(w.c, op, a).Exit?
    requires Same(w.c.m, tb.drops, tb.neweqs, arg, a, 0)
    ensures Undefined(w.c.m, w.roots)
  {
    forall p: Path ensures !DefinedAlong(w.c.m, w.roots, p) {
      if DefinedAlong(w.c.m, w.roots, p) {
        var q := Extend(w.c.m, tb.aux, w.step, p);
        ExtendGood(w, tb, p);
        CoversAt(w.c.m, w.roots, Un(op, arg), q, 0);
        SameAt(w.c.m, tb.drops, tb.neweqs, arg, a, 0, q, 0);
        AddFunctionValue(w.c, op, a, q, 0);
      }
    }
  }

  /** The program ends on an operator node only if the roots are undefined. */
  lemma OperatorEnds(w: Pass, tb: Table, op: BinaryOp, l: Expr, r: Expr, a: Expr, b: Expr)
    requires TableOk(w, tb) && Covers(w.c.m, w.roots, Bin(op, l, r)) && AddOperator(w.c, op, a, b).Exit?
    requires Same(w.c.m, tb.drops, tb.neweqs, l, a, 0) && Same(w.c.m, tb.drops, tb.neweqs, r, b, 0)
    ensures Undefined(w.c.m, w.roots)
  {
    forall p: Path ensures !DefinedAlong(w.c.m, w.roots, p) {
      if DefinedAlong(w.c.m, w.roots, p) {
        var q := Extend(w.c.m, tb.aux, w.step, p);
        ExtendGood(w, tb, p);
        CoversAt(w.c.m, w.roots, Bin(op, l, r), q, 0);
        ArgumentsAt(w.c.m, tb.drops, tb.neweqs, op, l, r, a, b, q, 0);
        AddOperatorValue(w.c, op, a, b, q, 0);
      }
    }
  }

  lemma BelowMonotone(e: Expr, n: nat, n': nat)
    requires Below(e, n) && n <= n'
    ensures Below(e, n')
  {
  }
}
