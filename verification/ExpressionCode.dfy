/** Compilation of expressions for the stack machine. */
module ExpressionCode {
  import opened Results
  import opened Expressions
  import opened Bytecode

  /** The opcode of a binary operator; the order of a power derivative is not part of it. */
  function Opcode(op: BinaryOp): BinaryOp {
    if op.PowerDeriv? then PowerDeriv(0) else op
  }

  /** The code of an expression: operator nodes among the temporary terms are loaded from their slots. */
  function Code(e: Expr, terms: set<Expr>, slot: map<Expr, nat>): seq<Instruction>
    requires terms <= slot.Keys
  {
    match e
    case Const(v) => [FLDC(Some(v))]
    case NotANumber => [FLDC(None)]
    case Var(s, lag) => [FLDV(s, lag)]
    case Un(op, arg) =>
      if e in terms then [FLDT(slot[e])] else Code(arg, terms, slot) + [FUNARY(op)]
    case Bin(op, l, r) =>
      if e in terms then [FLDT(slot[e])]
      else
        (if op.PowerDeriv? then [FLDC(Some(op.order as real))] else [])
        + Code(l, terms, slot) + Code(r, terms, slot) + [FBINARY(Opcode(op))]
  }

  /** No equality below, and no abs or sign outside the temporary terms: the machine has no such operators. */
  predicate Executable(e: Expr, terms: set<Expr>) {
    match e
    case Un(op, arg) => e in terms || (op != Abs && op != Sign && Executable(arg, terms))
    case Bin(op, l, r) => e in terms || (Executable(l, terms) && Executable(r, terms))
    case _ => true
  }

  /** The operator nodes of an expression. */
  function Operators(e: Expr): set<Expr> {
    match e
    case Un(_, arg) => {e} + Operators(arg)
    case Bin(_, l, r) => {e} + Operators(l) + Operators(r)
    case _ => {}
  }

  predicate NoEquality(e: Expr) {
    match e
    case Un(_, arg) => NoEquality(arg)
    case Bin(op, l, r) => op != Equal && NoEquality(l) && NoEquality(r)
    case _ => true
  }

  /** The expression has a value, and its code needs no operator that the machine lacks. */
  predicate Computes(m: Functions, t: int, e: Expr, terms: set<Expr>, path: Path) {
    Value(m, e, path, t).Some? && Executable(e, terms)
  }

  /** The slots of the terms hold their values. */
  ghost predicate SlotsHold(m: Functions, t: int, terms: set<Expr>, slot: map<Expr, nat>, s: State)
    requires terms <= slot.Keys
  {
    forall e :: e in terms ==> SlotHolds(m, t, e, slot[e], s)
  }

  ghost predicate SlotHolds(m: Functions, t: int, e: Expr, k: nat, s: State) {
    k in s.slots && Value(m, e, s.path, t) == Some(s.slots[k])
  }

  lemma PushPop(s: State, v: real)
    ensures Pop(Push(s, v)) == s && Top(Push(s, v)) == v
  {
    assert (s.stack + [v])[..|s.stack|] == s.stack;
  }

  /** Compiler correctness: when the slots hold the values of their terms, the code of an expression runs to its
      end exactly when the expression is defined and needs no operator that the machine lacks, and then it has
      pushed the value and changed nothing else. */
  lemma {:induction false} CodeCorrect(m: Functions, t: int, e: Expr, terms: set<Expr>, slot: map<Expr, nat>, s: State)
    requires terms <= slot.Keys && SlotsHold(m, t, terms, slot, s) && NoEquality(e)
    ensures ExecAll(m, t, Code(e, terms, slot), s)
            == if Value(m, e, s.path, t).Some? && Executable(e, terms) then Some(Push(s, Value(m, e, s.path, t).value))
               else None
    decreases e, 1
  {
    match e
    case Un(op, arg) =>
      if e in terms {
        assert SlotHolds(m, t, e, slot[e], s);
        ExecOne(m, t, FLDT(slot[e]), s);
      } else {
        CodeCorrect(m, t, arg, terms, slot, s);
        ExecAppend(m, t, Code(arg, terms, slot), [FUNARY(op)], s);
        UnaryCode(m, t, op, arg, s);
      }
    case Bin(op, l, r) =>
      if e in terms {
        assert SlotHolds(m, t, e, slot[e], s);
        ExecOne(m, t, FLDT(slot[e]), s);
      } else {
        BinaryCodeCorrect(m, t, op, l, r, terms, slot, s);
      }
    case Const(v) => ExecOne(m, t, FLDC(Some(v)), s);
    case NotANumber => ExecOne(m, t, FLDC(None), s);
    case Var(sym, lag) => ExecOne(m, t, FLDV(sym, lag), s);
  }

  lemma UnaryCode(m: Functions, t: int, op: UnaryOp, arg: Expr, s: State)
    ensures forall v :: Value(m, arg, s.path, t) == Some(v) ==>
      ExecAll(m, t, [FUNARY(op)], Push(s, v))
      == if op == Abs || op == Sign || UnaryValue(m, op, v).None? then None
         else Some(Push(s, UnaryValue(m, op, v).value))
  {
    forall v | Value(m, arg, s.path, t) == Some(v)
      ensures ExecAll(m, t, [FUNARY(op)], Push(s, v))
              == if op == Abs || op == Sign || UnaryValue(m, op, v).None? then None
                 else Some(Push(s, UnaryValue(m, op, v).value))
    {
      ExecOne(m, t, FUNARY(op), Push(s, v));
      PushPop(s, v);
    }
  }

  /** The code of the two arguments and of the operator, run from a state s (with the order of a power
      derivative already pushed on s0). */
  lemma BinaryCode(m: Functions, t: int, op: BinaryOp, s0: State, s: State, v1: real, v2: real)
    requires op != Equal && s == WithOrder(op, s0)
    ensures ExecAll(m, t, [FBINARY(Opcode(op))], Push(Push(s, v1), v2))
            == if BinaryValue(m, op, v1, v2).Some? then Some(Push(s0, BinaryValue(m, op, v1, v2).value)) else None
  {
    hide BinaryValue;
    ExecOne(m, t, FBINARY(Opcode(op)), Push(Push(s, v1), v2));
    PushPop(Push(s, v1), v2);
    PushPop(s, v1);
    if op.PowerDeriv? {
      PushPop(s0, op.order as real);
      assert ToNat(op.order as real) == op.order;
    }
  }

  function OrderCode(op: BinaryOp): seq<Instruction> {
    if op.PowerDeriv? then [FLDC(Some(op.order as real))] else []
  }

  function WithOrder(op: BinaryOp, s: State): State {
    if op.PowerDeriv? then Push(s, op.order as real) else s
  }

  lemma OrderCodeCorrect(m: Functions, t: int, op: BinaryOp, s: State)
    ensures ExecAll(m, t, OrderCode(op), s) == Some(WithOrder(op, s))
  {
    if op.PowerDeriv? {
      ExecOne(m, t, FLDC(Some(op.order as real)), s);
    }
  }

  lemma BinaryCodeIs(op: BinaryOp, l: Expr, r: Expr, terms: set<Expr>, slot: map<Expr, nat>)
    requires terms <= slot.Keys && Bin(op, l, r) !in terms
    ensures Code(Bin(op, l, r), terms, slot)
            == OrderCode(op) + (Code(l, terms, slot) + (Code(r, terms, slot) + [FBINARY(Opcode(op))]))
  {
    var a, b, o := Code(l, terms, slot), Code(r, terms, slot), [FBINARY(Opcode(op))];
    assert OrderCode(op) + a + b + o == OrderCode(op) + (a + (b + o));
  }

  /** The code of an argument, followed by more code. */
  lemma ArgumentCode(m: Functions, t: int, e: Expr, terms: set<Expr>, slot: map<Expr, nat>, s0: State, s: State,
                     rest: seq<Instruction>)
    requires terms <= slot.Keys && SlotsHold(m, t, terms, slot, s0) && NoEquality(e)
    requires s.slots == s0.slots && s.path == s0.path
    ensures ExecAll(m, t, Code(e, terms, slot) + rest, s)
            == if Value(m, e, s.path, t).Some? && Executable(e, terms)
               then ExecAll(m, t, rest, Push(s, Value(m, e, s.path, t).value)) else None
    decreases e, 2
  {
    hide Exec, Value, Executable, Code;
    SlotsSame(m, t, terms, slot, s0, s);
    CodeCorrect(m, t, e, terms, slot, s);
    ExecAppend(m, t, Code(e, terms, slot), rest, s);
  }

  lemma {:induction false} BinaryCodeCorrect(m: Functions, t: int, op: BinaryOp, l: Expr, r: Expr, terms: set<Expr>,
                                             slot: map<Expr, nat>, s: State)
    requires terms <= slot.Keys && SlotsHold(m, t, terms, slot, s)
    requires op != Equal && NoEquality(l) && NoEquality(r) && Bin(op, l, r) !in terms
    ensures ExecAll(m, t, Code(Bin(op, l, r), terms, slot), s)
            == if Value(m, Bin(op, l, r), s.path, t).Some? && Executable(Bin(op, l, r), terms)
               then Some(Push(s, Value(m, Bin(op, l, r), s.path, t).value)) else None
    decreases Bin(op, l, r), 0
  {
    hide BinaryValue, Exec, ExecAll, Code;
    var o := [FBINARY(Opcode(op))];
    BinaryCodeIs(op, l, r, terms, slot);
    ExecAppend(m, t, OrderCode(op), Code(l, terms, slot) + (Code(r, terms, slot) + o), s);
    OrderCodeCorrect(m, t, op, s);
    var s1 := WithOrder(op, s);
    ArgumentCode(m, t, l, terms, slot, s, s1, Code(r, terms, slot) + o);
    if Value(m, l, s.path, t).Some? {
      var s2 := Push(s1, Value(m, l, s.path, t).value);
      ArgumentCode(m, t, r, terms, slot, s, s2, o);
      if Value(m, r, s.path, t).Some? {
        BinaryCode(m, t, op, s, s1, Value(m, l, s.path, t).value, Value(m, r, s.path, t).value);
      }
    }
  }

  /** What the slots hold does not depend on the stack. */
  lemma SlotsSame(m: Functions, t: int, terms: set<Expr>, slot: map<Expr, nat>, s: State, s': State)
    requires terms <= slot.Keys && SlotsHold(m, t, terms, slot, s) && s'.slots == s.slots && s'.path == s.path
    ensures SlotsHold(m, t, terms, slot, s')
  {
    forall e | e in terms ensures SlotHolds(m, t, e, slot[e], s') {
      assert SlotHolds(m, t, e, slot[e], s);
    }
  }

  lemma AppendCode(old0: seq<Instruction>, order: seq<Instruction>, a: seq<Instruction>, b: seq<Instruction>,
                   o: seq<Instruction>)
    ensures old0 + order + a + b + o == old0 + (order + (a + (b + o)))
  {
  }

  /** Writes the code of an expression that is read. */
  method Compile(file: CodeFile, e: Expr, terms: set<Expr>, slot: map<Expr, nat>)
    requires terms <= slot.Keys
    modifies file
    ensures file.code == old(file.code) + Code(e, terms, slot)
    ensures file.instructionNumber == old(file.instructionNumber) + |Code(e, terms, slot)|
    decreases e, 1
  {
    match e
    case Const(v) => file.Write(FLDC(Some(v)));
    case NotANumber => file.Write(FLDC(None));
    case Var(s, lag) => file.Write(FLDV(s, lag));
    case Un(op, arg) =>
      if e in terms {
        file.Write(FLDT(slot[e]));
      } else {
        Compile(file, arg, terms, slot);
        file.Write(FUNARY(op));
      }
    case Bin(op, l, r) =>
      if e in terms {
        file.Write(FLDT(slot[e]));
      } else {
        CompileOperator(file, op, l, r, terms, slot);
      }
  }

  method CompileOperator(file: CodeFile, op: BinaryOp, l: Expr, r: Expr, terms: set<Expr>, slot: map<Expr, nat>)
    requires terms <= slot.Keys && Bin(op, l, r) !in terms
    modifies file
    ensures file.code == old(file.code) + Code(Bin(op, l, r), terms, slot)
    ensures file.instructionNumber == old(file.instructionNumber) + |Code(Bin(op, l, r), terms, slot)|
    decreases Bin(op, l, r), 0
  {
    hide Code;
    ghost var before := file.code;
    if op.PowerDeriv? {
      file.Write(FLDC(Some(op.order as real)));
    }
    assert file.code == before + OrderCode(op);
    Compile(file, l, terms, slot);
    Compile(file, r, terms, slot);
    file.Write(FBINARY(Opcode(op)));
    BinaryCodeIs(op, l, r, terms, slot);
    AppendCode(before, OrderCode(op), Code(l, terms, slot), Code(r, terms, slot), [FBINARY(Opcode(op))]);
  }
}
