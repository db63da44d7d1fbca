/** The code of the equations of a block, with the temporary terms of each equation before it. */
module BlockCode {
  import opened Results
  import opened Expressions
  import opened Derivatives
  import opened Bytecode
  import opened ExpressionCode

  /** An equation of a block: evaluated (its right-hand side is stored in the variable on its left), or solved
      (its residual is stored). */
  datatype Equation =
    | Evaluate(id: nat, sym: Symbol, lag: int, rhs: Expr)
    | Solve(id: nat, lhs: Expr, rhs: Expr, pos: nat)

  function Node(eq: Equation): Expr {
    match eq
    case Evaluate(_, sym, lag, rhs) => Bin(Equal, Var(sym, lag), rhs)
    case Solve(_, lhs, rhs, _) => Bin(Equal, lhs, rhs)
  }

  function Elements(list: seq<Expr>): set<Expr> {
    set e | e in list
  }

  /** The code of the temporary terms of an equation; each may load the ones before it. */
  function TermsCode(list: seq<Expr>, slot: map<Expr, nat>): seq<Instruction>
    requires Elements(list) <= slot.Keys
  {
    if list == [] then []
    else
      var init, e := list[..|list| - 1], list[|list| - 1];
      TermsCode(init, slot) + TermCode(e, Elements(init), slot)
  }

  function TermCode(e: Expr, terms: set<Expr>, slot: map<Expr, nat>): seq<Instruction>
    requires terms <= slot.Keys && e in slot
  {
    [FNUMEXPR(TemporaryTerm, slot[e])] + (Code(e, terms, slot) + [FSTPT(slot[e])])
  }

  function SideCode(eq: Equation, terms: set<Expr>, slot: map<Expr, nat>): seq<Instruction>
    requires terms <= slot.Keys
  {
    match eq
    case Evaluate(_, sym, lag, rhs) => Code(rhs, terms, slot) + [FSTPV(sym, lag)]
    case Solve(_, lhs, rhs, pos) => Code(lhs, terms, slot) + (Code(rhs, terms, slot) + [FBINARY(Minus), FSTPR(pos)])
  }

  function EquationCode(eq: Equation, terms: set<Expr>, slot: map<Expr, nat>): seq<Instruction>
    requires terms <= slot.Keys
  {
    [FNUMEXPR(ModelEquation, eq.id)] + SideCode(eq, terms, slot)
  }

  ghost predicate HaveSlots(lists: seq<seq<Expr>>, slot: map<Expr, nat>) {
    forall i :: 0 <= i < |lists| ==> Elements(lists[i]) <= slot.Keys
  }

  /** The code of the first n equations of a block; lists[i] are the temporary terms of equation i. */
  ghost function EquationsCode(eqs: seq<Equation>, lists: seq<seq<Expr>>, n: nat, terms: set<Expr>, slot: map<Expr, nat>)
    : seq<Instruction>
    requires n <= |eqs| == |lists| && terms <= slot.Keys && HaveSlots(lists, slot)
  {
    if n == 0 then []
    else
      EquationsCode(eqs, lists, n - 1, terms, slot)
      + (TermsCode(lists[n - 1], slot) + EquationCode(eqs[n - 1], terms, slot))
  }

  // ----- which terms matter

  /** Only the terms among the nodes of an expression influence its code. */
  lemma {:induction false} SameCode(e: Expr, terms: set<Expr>, terms': set<Expr>, slot: map<Expr, nat>)
    requires terms <= slot.Keys && terms' <= slot.Keys
    requires forall x :: x in Operators(e) ==> (x in terms <==> x in terms')
    ensures Code(e, terms, slot) == Code(e, terms', slot)
  {
    match e
    case Un(_, arg) =>
      assert e in Operators(e);
      SameCode(arg, terms, terms', slot);
    case Bin(_, l, r) =>
      assert e in Operators(e);
      SameCode(l, terms, terms', slot);
      SameCode(r, terms, terms', slot);
    case _ =>
  }

  lemma {:induction false} SameExecutable(e: Expr, terms: set<Expr>, terms': set<Expr>)
    requires forall x :: x in Operators(e) ==> (x in terms <==> x in terms')
    ensures Executable(e, terms) <==> Executable(e, terms')
  {
    match e
    case Un(_, arg) =>
      assert e in Operators(e);
      SameExecutable(arg, terms, terms');
    case Bin(_, l, r) =>
      assert e in Operators(e);
      SameExecutable(l, terms, terms');
      SameExecutable(r, terms, terms');
    case _ =>
  }

  /** Assigning a variable that an expression does not read keeps its value. */
  lemma {:induction false} Unread(m: Functions, e: Expr, p: Path, t: int, s: Symbol, lag: int, v: real)
    requires s.kind != Parameter && (s, lag) !in NonNull(e)
    ensures Value(m, e, Assign(p, s, t + lag, v), t) == Value(m, e, p, t)
  {
    match e
    case Un(_, arg) => Unread(m, arg, p, t, s, lag, v);
    case Bin(_, l, r) =>
      Unread(m, l, p, t, s, lag, v);
      Unread(m, r, p, t, s, lag, v);
    case _ =>
  }

  // ----- temporary terms

  ghost predicate Injective(slot: map<Expr, nat>) {
    forall a, b :: a in slot && b in slot && slot[a] == slot[b] ==> a == b
  }

  /** Every term of the list has a value and is executable with the ones before it. */
  predicate TermsRun(m: Functions, t: int, list: seq<Expr>, path: Path) {
    list == [] ||
    var init, e := list[..|list| - 1], list[|list| - 1];
    TermsRun(m, t, init, path) && Computes(m, t, e, Elements(init), path)
  }

  /** Running the code of one temporary term from a state in which the listed terms hold. */
  lemma TermCorrect(m: Functions, t: int, e: Expr, terms: set<Expr>, slot: map<Expr, nat>, s: State)
    requires terms <= slot.Keys && e in slot && SlotsHold(m, t, terms, slot, s) && NoEquality(e)
    ensures ExecAll(m, t, TermCode(e, terms, slot), s)
            == if Computes(m, t, e, terms, s.path)
               then Some(Announce(s, TemporaryTerm, slot[e]).(slots := s.slots[slot[e] := Value(m, e, s.path, t).value]))
               else None
  {
    hide Code;
    var code := Code(e, terms, slot);
    ExecAppend(m, t, [FNUMEXPR(TemporaryTerm, slot[e])], code + [FSTPT(slot[e])], s);
    var s1 := Announce(s, TemporaryTerm, slot[e]);
    ExecOne(m, t, FNUMEXPR(TemporaryTerm, slot[e]), s);
    ExecAppend(m, t, code, [FSTPT(slot[e])], s1);
    SlotsSame(m, t, terms, slot, s, s1);
    CodeCorrect(m, t, e, terms, slot, s1);
    if Computes(m, t, e, terms, s.path) {
      var v := Value(m, e, s.path, t).value;
      ExecOne(m, t, FSTPT(slot[e]), Push(s1, v));
      PushPop(s1, v);
    }
  }

  /** The state after the temporary terms of an equation. */
  ghost predicate TermsStored(m: Functions, t: int, list: seq<Expr>, slot: map<Expr, nat>, s: State, s': State)
    requires Elements(list) <= slot.Keys
  {
    && s' == s.(slots := s'.slots, expression := s'.expression)
    && (forall k :: k in s.slots ==> k in s'.slots)
    && (forall e :: e in slot && e !in list && slot[e] in s.slots ==> s'.slots[slot[e]] == s.slots[slot[e]])
    && SlotsHold(m, t, Elements(list), slot, s')
  }

  lemma {:induction false} TermsCorrect(m: Functions, t: int, list: seq<Expr>, slot: map<Expr, nat>, s: State)
    requires Elements(list) <= slot.Keys && Injective(slot) && (forall e :: e in list ==> NoEquality(e))
    ensures ExecAll(m, t, TermsCode(list, slot), s).Some? <==> TermsRun(m, t, list, s.path)
    ensures TermsRun(m, t, list, s.path) ==> TermsStored(m, t, list, slot, s, ExecAll(m, t, TermsCode(list, slot), s).value)
  {
    if list != [] {
      var init, e := list[..|list| - 1], list[|list| - 1];
      ExecAppend(m, t, TermsCode(init, slot), TermCode(e, Elements(init), slot), s);
      TermsCorrect(m, t, init, slot, s);
      if TermsRun(m, t, init, s.path) {
        var s1 := ExecAll(m, t, TermsCode(init, slot), s).value;
        TermCorrect(m, t, e, Elements(init), slot, s1);
        if TermsRun(m, t, list, s.path) {
          TermStored(m, t, init, e, slot, s, s1);
        }
      }
    } else {
      ExecNothing(m, t, s);
    }
  }

  /** One more term. */
  lemma TermStored(m: Functions, t: int, init: seq<Expr>, e: Expr, slot: map<Expr, nat>, s: State, s1: State)
    requires Elements(init + [e]) <= slot.Keys && Injective(slot) && Elements(init) <= slot.Keys
    requires TermsStored(m, t, init, slot, s, s1) && Value(m, e, s1.path, t).Some?
    ensures var v := Value(m, e, s1.path, t).value;
            TermsStored(m, t, init + [e], slot, s, Announce(s1, TemporaryTerm, slot[e]).(slots := s1.slots[slot[e] := v]))
  {
    var v := Value(m, e, s1.path, t).value;
    var s' := Announce(s1, TemporaryTerm, slot[e]).(slots := s1.slots[slot[e] := v]);
    forall x | x in Elements(init + [e]) ensures SlotHolds(m, t, x, slot[x], s') {
      if x != e {
        assert x in Elements(init);
        assert SlotHolds(m, t, x, slot[x], s1);
      }
    }
  }

  // ----- equations

  /** The sides that the code of an equation computes have a value and are executable. */
  predicate EquationRuns(m: Functions, t: int, eq: Equation, terms: set<Expr>, path: Path) {
    match eq
    case Evaluate(_, _, _, rhs) => Computes(m, t, rhs, terms, path)
    case Solve(_, lhs, rhs, _) => Computes(m, t, lhs, terms, path) && Computes(m, t, rhs, terms, path)
  }

  /** The code of an evaluated equation, when the terms among its nodes hold: it runs exactly when the right-hand side can
      be computed, and then stores it in the variable. */
  lemma EvaluateCorrect(m: Functions, t: int, id: nat, sym: Symbol, lag: int, rhs: Expr, terms: set<Expr>,
                        slot: map<Expr, nat>, s: State)
    requires terms <= slot.Keys && SlotsHold(m, t, terms, slot, s) && NoEquality(rhs)
    ensures ExecAll(m, t, EquationCode(Evaluate(id, sym, lag, rhs), terms, slot), s)
            == if Computes(m, t, rhs, terms, s.path)
               then Some(Announce(s, ModelEquation, id).(path := Assign(s.path, sym, DateOf(sym, lag, t),
                                                                        Value(m, rhs, s.path, t).value)))
               else None
  {
    hide Code, ExecAll, Value, Executable;
    var code := Code(rhs, terms, slot);
    ExecAppend(m, t, [FNUMEXPR(ModelEquation, id)], code + [FSTPV(sym, lag)], s);
    var s1 := Announce(s, ModelEquation, id);
    ExecOne(m, t, FNUMEXPR(ModelEquation, id), s);
    ExecAppend(m, t, code, [FSTPV(sym, lag)], s1);
    SlotsSame(m, t, terms, slot, s, s1);
    CodeCorrect(m, t, rhs, terms, slot, s1);
    if Computes(m, t, rhs, terms, s.path) {
      var v := Value(m, rhs, s.path, t).value;
      ExecOne(m, t, FSTPV(sym, lag), Push(s1, v));
      PushPop(s1, v);
    }
  }

  /** The code of a solved equation runs exactly when both sides can be computed, and then stores left minus right. */
  lemma SolveCorrect(m: Functions, t: int, id: nat, lhs: Expr, rhs: Expr, pos: nat, terms: set<Expr>,
                     slot: map<Expr, nat>, s: State)
    requires terms <= slot.Keys && SlotsHold(m, t, terms, slot, s) && NoEquality(lhs) && NoEquality(rhs)
    ensures ExecAll(m, t, EquationCode(Solve(id, lhs, rhs, pos), terms, slot), s)
            == if Computes(m, t, lhs, terms, s.path) && Computes(m, t, rhs, terms, s.path)
               then Some(Announce(s, ModelEquation, id).(residuals :=
                           s.residuals[pos := Value(m, lhs, s.path, t).value - Value(m, rhs, s.path, t).value]))
               else None
  {
    hide ExecAll, Exec, Value, Executable, Code;
    var s1 := Announce(s, ModelEquation, id);
    ExecAppend(m, t, [FNUMEXPR(ModelEquation, id)], SideCode(Solve(id, lhs, rhs, pos), terms, slot), s);
    Heading(m, t, ModelEquation, id, s);
    SlotsSame(m, t, terms, slot, s, s1);
    ResidualCorrect(m, t, lhs, rhs, pos, terms, slot, s1);
  }

  /** Both sides of a solved equation and the residual. */
  lemma ResidualCorrect(m: Functions, t: int, lhs: Expr, rhs: Expr, pos: nat, terms: set<Expr>, slot: map<Expr, nat>,
                        s: State)
    requires terms <= slot.Keys && SlotsHold(m, t, terms, slot, s) && NoEquality(lhs) && NoEquality(rhs)
    ensures ExecAll(m, t, Code(lhs, terms, slot) + (Code(rhs, terms, slot) + [FBINARY(Minus), FSTPR(pos)]), s)
            == if Computes(m, t, lhs, terms, s.path) && Computes(m, t, rhs, terms, s.path)
               then Some(s.(residuals := s.residuals[pos := Value(m, lhs, s.path, t).value - Value(m, rhs, s.path, t).value]))
               else None
  {
    hide Code, ExecAll, Exec, Value, Executable, SlotsHold;
    var tail := [FBINARY(Minus), FSTPR(pos)];
    ArgumentCode(m, t, lhs, terms, slot, s, s, Code(rhs, terms, slot) + tail);
    if Computes(m, t, lhs, terms, s.path) {
      var s1 := Push(s, Value(m, lhs, s.path, t).value);
      ArgumentCode(m, t, rhs, terms, slot, s, s1, tail);
      if Computes(m, t, rhs, terms, s.path) {
        SubtractCode(m, t, pos, s, Value(m, lhs, s.path, t).value, Value(m, rhs, s.path, t).value);
      }
    }
  }

  lemma Heading(m: Functions, t: int, kind: ExpressionType, equation: nat, s: State)
    ensures ExecAll(m, t, [FNUMEXPR(kind, equation)], s) == Some(Announce(s, kind, equation))
  {
    ExecOne(m, t, FNUMEXPR(kind, equation), s);
  }

  lemma SubtractCode(m: Functions, t: int, pos: nat, s: State, v: real, w: real)
    ensures ExecAll(m, t, [FBINARY(Minus), FSTPR(pos)], Push(Push(s, v), w))
            == Some(s.(residuals := s.residuals[pos := v - w]))
  {
    hide ExecAll;
    assert [FBINARY(Minus)] + [FSTPR(pos)] == [FBINARY(Minus), FSTPR(pos)];
    ExecAppend(m, t, [FBINARY(Minus)], [FSTPR(pos)], Push(Push(s, v), w));
    BinaryOnTop(m, t, Minus, s, v, w);
    ExecOne(m, t, FSTPR(pos), Push(s, v - w));
    PushPop(s, v - w);
  }

  lemma BinaryOnTop(m: Functions, t: int, op: BinaryOp, s: State, v: real, w: real)
    requires op != Equal && !op.PowerDeriv? && BinaryValue(m, op, v, w).Some?
    ensures ExecAll(m, t, [FBINARY(op)], Push(Push(s, v), w)) == Some(Push(s, BinaryValue(m, op, v, w).value))
  {
    hide BinaryValue;
    ExecOne(m, t, FBINARY(op), Push(Push(s, v), w));
    PushPop(Push(s, v), w);
    PushPop(s, v);
  }

  // ----- blocks

  /** The terms stored by the first n equations. */
  function Stored(lists: seq<seq<Expr>>, n: nat): set<Expr>
    requires n <= |lists|
  {
    if n == 0 then {} else Stored(lists, n - 1) + Elements(lists[n - 1])
  }

  predicate NoInnerEquality(eq: Equation) {
    NoEquality(Node(eq).left) && NoEquality(Node(eq).right)
  }

  /** The terms among the nodes of an equation are stored before it. */
  ghost predicate Covered(eq: Equation, terms: set<Expr>, stored: set<Expr>) {
    forall x :: x in Operators(Node(eq)) && x in terms ==> x in stored
  }

  /** What the choice of the temporary terms guarantees for a block; `before` are the terms of earlier blocks. */
  ghost predicate Planned(eqs: seq<Equation>, lists: seq<seq<Expr>>, terms: set<Expr>, slot: map<Expr, nat>,
                          before: set<Expr>) {
    && |lists| == |eqs| && terms == slot.Keys && Injective(slot) && before <= terms
    && (forall i :: 0 <= i < |lists| ==> Elements(lists[i]) <= terms)
    && (forall i, e :: 0 <= i < |lists| && e in lists[i] ==> NoEquality(e))
    && (forall i :: 0 <= i < |eqs| ==> NoInnerEquality(eqs[i]))
    && (forall i :: 0 <= i < |eqs| ==> Covered(eqs[i], terms, before + Stored(lists, i + 1)))
  }

  ghost predicate UnreadBy(x: DerivId, e: Expr) {
    x !in NonNull(e)
  }

  /** The recursive ordering of a block: a variable is not read before or by the equation that evaluates it, nor by
      a term stored until then; residuals have distinct places. */
  ghost predicate RecursiveOrder(eqs: seq<Equation>, lists: seq<seq<Expr>>, before: set<Expr>)
    requires |lists| == |eqs|
  {
    && (forall i :: 0 <= i < |eqs| && eqs[i].Evaluate? ==>
          && eqs[i].sym.kind == Endogenous
          && UnreadBy((eqs[i].sym, eqs[i].lag), eqs[i].rhs)
          && (forall j :: 0 <= j < i ==> UnreadBy((eqs[i].sym, eqs[i].lag), Node(eqs[j])))
          && (forall e :: e in before + Stored(lists, i + 1) ==> UnreadBy((eqs[i].sym, eqs[i].lag), e)))
    && (forall i, j :: 0 <= j < i < |eqs| && eqs[i].Solve? && eqs[j].Solve? ==> eqs[i].pos != eqs[j].pos)
  }

  /** The variable holds the value of the right-hand side, or the residual slot holds left minus right. */
  ghost predicate DoneAt(m: Functions, t: int, eq: Equation, s: State) {
    match eq
    case Evaluate(_, sym, lag, rhs) => Value(m, rhs, s.path, t) == Some(s.path(sym, t + lag))
    case Solve(_, lhs, rhs, pos) =>
      && pos in s.residuals
      && Value(m, lhs, s.path, t).Some? && Value(m, rhs, s.path, t).Some?
      && s.residuals[pos] == Value(m, lhs, s.path, t).value - Value(m, rhs, s.path, t).value
  }

  ghost predicate Done(m: Functions, t: int, eqs: seq<Equation>, n: nat, s: State)
    requires n <= |eqs|
  {
    forall j :: 0 <= j < n ==> DoneAt(m, t, eqs[j], s)
  }

  /** The terms of an equation leave what earlier equations have done. */
  lemma TermsKeep(m: Functions, t: int, eqs: seq<Equation>, n: nat, list: seq<Expr>, slot: map<Expr, nat>,
                  stored: set<Expr>, s: State, s': State)
    requires n <= |eqs| && Elements(list) <= slot.Keys && stored <= slot.Keys && Injective(slot)
    requires TermsStored(m, t, list, slot, s, s') && Done(m, t, eqs, n, s) && SlotsHold(m, t, stored, slot, s)
    ensures Done(m, t, eqs, n, s') && SlotsHold(m, t, stored + Elements(list), slot, s')
  {
    forall j | 0 <= j < n ensures DoneAt(m, t, eqs[j], s') {
      assert DoneAt(m, t, eqs[j], s);
    }
    forall e | e in stored + Elements(list) ensures SlotHolds(m, t, e, slot[e], s') {
      if e in list {
        assert e in Elements(list);
      } else {
        assert SlotHolds(m, t, e, slot[e], s);
      }
    }
  }

  /** Evaluating a variable that nothing done so far has read. */
  lemma EvaluateKeeps(m: Functions, t: int, eqs: seq<Equation>, n: nat, slot: map<Expr, nat>, stored: set<Expr>,
                      s: State, v: real)
    requires n < |eqs| && eqs[n].Evaluate? && eqs[n].sym.kind == Endogenous && stored <= slot.Keys
    requires Done(m, t, eqs, n, s) && SlotsHold(m, t, stored, slot, s) && Value(m, eqs[n].rhs, s.path, t) == Some(v)
    requires UnreadBy((eqs[n].sym, eqs[n].lag), eqs[n].rhs)
    requires forall j :: 0 <= j < n ==> UnreadBy((eqs[n].sym, eqs[n].lag), Node(eqs[j]))
    requires forall e :: e in stored ==> UnreadBy((eqs[n].sym, eqs[n].lag), e)
    ensures var s' := Announce(s, ModelEquation, eqs[n].id).(path := Assign(s.path, eqs[n].sym, t + eqs[n].lag, v));
            Done(m, t, eqs, n + 1, s') && SlotsHold(m, t, stored, slot, s')
  {
    var sym, lag := eqs[n].sym, eqs[n].lag;
    var s' := Announce(s, ModelEquation, eqs[n].id).(path := Assign(s.path, sym, t + lag, v));
    forall j | 0 <= j < n + 1 ensures DoneAt(m, t, eqs[j], s') {
      if j < n {
        assert DoneAt(m, t, eqs[j], s) && UnreadBy((sym, lag), Node(eqs[j]));
        Unread(m, Node(eqs[j]).left, s.path, t, sym, lag, v);
        Unread(m, Node(eqs[j]).right, s.path, t, sym, lag, v);
      } else {
        Unread(m, eqs[n].rhs, s.path, t, sym, lag, v);
      }
    }
    forall e | e in stored ensures SlotHolds(m, t, e, slot[e], s') {
      assert SlotHolds(m, t, e, slot[e], s) && UnreadBy((sym, lag), e);
      Unread(m, e, s.path, t, sym, lag, v);
    }
  }

  /** Storing the residual of a solved equation at a place of its own. */
  lemma SolveKeeps(m: Functions, t: int, eqs: seq<Equation>, n: nat, slot: map<Expr, nat>, stored: set<Expr>, s: State)
    requires n < |eqs| && eqs[n].Solve? && stored <= slot.Keys
    requires Done(m, t, eqs, n, s) && SlotsHold(m, t, stored, slot, s)
    requires forall j :: 0 <= j < n && eqs[j].Solve? ==> eqs[j].pos != eqs[n].pos
    requires Value(m, eqs[n].lhs, s.path, t).Some? && Value(m, eqs[n].rhs, s.path, t).Some?
    ensures var v := Value(m, eqs[n].lhs, s.path, t).value - Value(m, eqs[n].rhs, s.path, t).value;
            var s' := Announce(s, ModelEquation, eqs[n].id).(residuals := s.residuals[eqs[n].pos := v]);
            Done(m, t, eqs, n + 1, s') && SlotsHold(m, t, stored, slot, s')
  {
    var v := Value(m, eqs[n].lhs, s.path, t).value - Value(m, eqs[n].rhs, s.path, t).value;
    var s' := Announce(s, ModelEquation, eqs[n].id).(residuals := s.residuals[eqs[n].pos := v]);
    forall j | 0 <= j < n + 1 ensures DoneAt(m, t, eqs[j], s') {
      if j < n {
        assert DoneAt(m, t, eqs[j], s);
      }
    }
    SlotsSame(m, t, stored, slot, s, s');
  }

  /** The path after an equation: an evaluated one assigns its variable. */
  function StepPath(m: Functions, t: int, eq: Equation, path: Path): Path {
    if eq.Evaluate? && Value(m, eq.rhs, path, t).Some?
    then Assign(path, eq.sym, DateOf(eq.sym, eq.lag, t), Value(m, eq.rhs, path, t).value)
    else path
  }

  /** The path after the first n equations. */
  function PathAfter(m: Functions, t: int, eqs: seq<Equation>, n: nat, path: Path): Path
    requires n <= |eqs|
  {
    if n == 0 then path else StepPath(m, t, eqs[n - 1], PathAfter(m, t, eqs, n - 1, path))
  }

  /** What the first n equations of a block compute, in their order and each on the path that the ones before it have made,
      has a value and is executable: the temporary terms, then the sides. */
  predicate BlockRuns(m: Functions, t: int, eqs: seq<Equation>, lists: seq<seq<Expr>>, n: nat, terms: set<Expr>, path: Path)
    requires n <= |eqs| == |lists|
  {
    n == 0 ||
    (&& BlockRuns(m, t, eqs, lists, n - 1, terms, path)
     && TermsRun(m, t, lists[n - 1], PathAfter(m, t, eqs, n - 1, path))
     && EquationRuns(m, t, eqs[n - 1], terms, PathAfter(m, t, eqs, n - 1, path)))
  }

  /** One equation with its terms. */
  lemma EquationStep(m: Functions, t: int, eqs: seq<Equation>, lists: seq<seq<Expr>>, n: nat, terms: set<Expr>,
                     slot: map<Expr, nat>, before: set<Expr>, s: State)
    requires Planned(eqs, lists, terms, slot, before) && RecursiveOrder(eqs, lists, before) && n < |eqs|
    requires Done(m, t, eqs, n, s) && before + Stored(lists, n) <= slot.Keys
    requires SlotsHold(m, t, before + Stored(lists, n), slot, s)
    ensures before + Stored(lists, n + 1) <= slot.Keys
    ensures var r := ExecAll(m, t, TermsCode(lists[n], slot) + EquationCode(eqs[n], terms, slot), s);
            && (r.Some? <==> TermsRun(m, t, lists[n], s.path) && EquationRuns(m, t, eqs[n], terms, s.path))
            && (r.Some? ==> Done(m, t, eqs, n + 1, r.value) && r.value.stack == s.stack
                            && SlotsHold(m, t, before + Stored(lists, n + 1), slot, r.value)
                            && r.value.path == StepPath(m, t, eqs[n], s.path))
  {
    hide TermsCode, EquationCode, ExecAll, Computes;
    var list, stored := lists[n], before + Stored(lists, n + 1);
    ExecAppend(m, t, TermsCode(list, slot), EquationCode(eqs[n], terms, slot), s);
    TermsCorrect(m, t, list, slot, s);
    assert before + Stored(lists, n) + Elements(list) == stored;
    assert Covered(eqs[n], terms, stored) && NoInnerEquality(eqs[n]);
    EquationSameCode(m, t, eqs[n], terms, stored, slot, s.path);
    if TermsRun(m, t, list, s.path) {
      var s1 := ExecAll(m, t, TermsCode(list, slot), s).value;
      TermsKeep(m, t, eqs, n, list, slot, before + Stored(lists, n), s, s1);
      EquationKeeps(m, t, eqs, lists, n, stored, slot, before, s1);
    }
  }

  /** An equation whose terms are stored. */
  lemma EquationKeeps(m: Functions, t: int, eqs: seq<Equation>, lists: seq<seq<Expr>>, n: nat, stored: set<Expr>,
                      slot: map<Expr, nat>, before: set<Expr>, s: State)
    requires n < |eqs| == |lists| && RecursiveOrder(eqs, lists, before) && NoInnerEquality(eqs[n])
    requires stored == before + Stored(lists, n + 1) && stored <= slot.Keys
    requires Done(m, t, eqs, n, s) && SlotsHold(m, t, stored, slot, s)
    ensures var r := ExecAll(m, t, EquationCode(eqs[n], stored, slot), s);
            && (r.Some? <==> EquationRuns(m, t, eqs[n], stored, s.path))
            && (r.Some? ==> Done(m, t, eqs, n + 1, r.value) && r.value.stack == s.stack
                            && SlotsHold(m, t, stored, slot, r.value)
                            && r.value.path == StepPath(m, t, eqs[n], s.path))
  {
    hide ExecAll, EquationCode, Stored;
    match eqs[n]
    case Evaluate(id, sym, lag, rhs) =>
      EvaluateCorrect(m, t, id, sym, lag, rhs, stored, slot, s);
      if Computes(m, t, rhs, stored, s.path) {
        EvaluateKeeps(m, t, eqs, n, slot, stored, s, Value(m, rhs, s.path, t).value);
      }
    case Solve(id, lhs, rhs, pos) =>
      SolveCorrect(m, t, id, lhs, rhs, pos, stored, slot, s);
      if EquationRuns(m, t, eqs[n], stored, s.path) {
        SolveKeeps(m, t, eqs, n, slot, stored, s);
      }
  }

  lemma OnlyStored(eq: Equation, terms: set<Expr>, stored: set<Expr>, slot: map<Expr, nat>)
    requires terms == slot.Keys && stored <= terms && Covered(eq, terms, stored)
    ensures EquationCode(eq, terms, slot) == EquationCode(eq, stored, slot)
  {
    var e := Node(eq);
    assert Operators(e) == {e} + Operators(e.left) + Operators(e.right);
    SameCode(e.left, terms, stored, slot);
    SameCode(e.right, terms, stored, slot);
  }

  /** Only the terms stored so far matter to an equation. */
  lemma EquationSameCode(m: Functions, t: int, eq: Equation, terms: set<Expr>, stored: set<Expr>, slot: map<Expr, nat>,
                         path: Path)
    requires terms == slot.Keys && stored <= terms && Covered(eq, terms, stored)
    ensures EquationCode(eq, terms, slot) == EquationCode(eq, stored, slot)
    ensures EquationRuns(m, t, eq, terms, path) <==> EquationRuns(m, t, eq, stored, path)
  {
    OnlyStored(eq, terms, stored, slot);
    var e := Node(eq);
    assert Operators(e) == {e} + Operators(e.left) + Operators(e.right);
    SameExecutable(e.left, terms, stored);
    SameExecutable(e.right, terms, stored);
  }

  /** The code of the equations of a block runs to its end exactly when all that it has to compute has a value and is
      executable. Then, on the final path, every evaluated equation holds, every solved one has left minus right in its
      residual slot, the slots of all terms stored so far hold their values, and the stack is what it was. */
  lemma {:induction false} BlockCorrect(m: Functions, t: int, eqs: seq<Equation>, lists: seq<seq<Expr>>, n: nat,
                                        terms: set<Expr>, slot: map<Expr, nat>, before: set<Expr>, s: State)
    requires Planned(eqs, lists, terms, slot, before) && RecursiveOrder(eqs, lists, before) && n <= |eqs|
    requires SlotsHold(m, t, before, slot, s)
    ensures before + Stored(lists, n) <= slot.Keys
    ensures var r := ExecAll(m, t, EquationsCode(eqs, lists, n, terms, slot), s);
            && (r.Some? <==> BlockRuns(m, t, eqs, lists, n, terms, s.path))
            && (r.Some? ==> Done(m, t, eqs, n, r.value) && r.value.stack == s.stack
                            && SlotsHold(m, t, before + Stored(lists, n), slot, r.value)
                            && r.value.path == PathAfter(m, t, eqs, n, s.path))
    decreases n
  {
    hide ExecAll, TermsCode, EquationCode, TermsRun, EquationRuns;
    if n == 0 {
      ExecNothing(m, t, s);
      assert before + Stored(lists, 0) == before;
    } else {
      var code, last := EquationsCode(eqs, lists, n - 1, terms, slot),
                        TermsCode(lists[n - 1], slot) + EquationCode(eqs[n - 1], terms, slot);
      ExecAppend(m, t, code, last, s);
      BlockCorrect(m, t, eqs, lists, n - 1, terms, slot, before, s);
      StoredWithin(eqs, lists, n, terms, slot, before);
      if BlockRuns(m, t, eqs, lists, n - 1, terms, s.path) {
        EquationStep(m, t, eqs, lists, n - 1, terms, slot, before, ExecAll(m, t, code, s).value);
      }
    }
  }

  lemma {:induction false} StoredWithin(eqs: seq<Equation>, lists: seq<seq<Expr>>, n: nat, terms: set<Expr>,
                                        slot: map<Expr, nat>, before: set<Expr>)
    requires Planned(eqs, lists, terms, slot, before) && n <= |eqs|
    ensures before + Stored(lists, n) <= slot.Keys
  {
    if n > 0 {
      StoredWithin(eqs, lists, n - 1, terms, slot, before);
    }
  }

  lemma ExecNothing(m: Functions, t: int, s: State)
    ensures ExecAll(m, t, [], s) == Some(s)
  {
  }
}
