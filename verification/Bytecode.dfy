/** The bytecode, the stack machine that runs it, and the stream it is written to. */
module Bytecode {
  import opened Results
  import opened Expressions

  datatype ExpressionType = TemporaryTerm | ModelEquation | FirstEndoDerivative | FirstExoDerivative

  datatype Instruction =
    | FLDZ
    | FLDC(value: Option<real>)
    | FDIMT(size: nat)
    | FLDT(slot: nat)
    | FSTPT(slot: nat)
    | FLDV(sym: Symbol, lag: int)
    | FSTPV(sym: Symbol, lag: int)
    | FLDU(pos: nat)
    | FSTPU(pos: nat)
    | FLDR(pos: nat)
    | FSTPR(pos: nat)
    | FSTPG3(row: nat, col: nat, shift: int, place: nat)
    | FUNARY(op: UnaryOp)
    | FBINARY(bop: BinaryOp)
    | FCUML
    | FJMPIFEVAL(offset: int)
    | FJMP(offset: int)
    | FNUMEXPR(kind: ExpressionType, equation: nat)
    | FBEGINBLOCK(size: nat)
    | FENDEQU
    | FENDBLOCK
    | FEND

  /** The state of the machine at one date: the stack (its top is the last element), the temporary slots, the
      values of the variables, the residuals, the vector u, the entries of the Jacobian and of that of the exogenous
      variables, and the kind and the equation of the expression announced last. */
  datatype State = State(stack: seq<real>, slots: map<nat, real>, path: Path, residuals: map<nat, real>,
                         u: map<nat, real>, jacobian: map<(nat, nat), real>, jacobianExo: map<(nat, nat), real>,
                         expression: (ExpressionType, nat))

  function Announce(s: State, kind: ExpressionType, equation: nat): State {
    s.(expression := (kind, equation))
  }

  function Assign(p: Path, s: Symbol, date: int, v: real): Path {
    (s': Symbol, t': int) => if s' == s && t' == date then v else p(s', t')
  }

  function Push(s: State, v: real): State {
    s.(stack := s.stack + [v])
  }

  function Pop(s: State): State
    requires s.stack != []
  {
    s.(stack := s.stack[..|s.stack| - 1])
  }

  function Top(s: State): real
    requires s.stack != []
  {
    s.stack[|s.stack| - 1]
  }

  function ToNat(v: real): nat {
    if v.Floor >= 0 then v.Floor else 0
  }

  /** A unary operator; the machine has no abs and no sign. */
  function ExecUnary(m: Functions, op: UnaryOp, s: State): Option<State> {
    if s.stack == [] || op == Abs || op == Sign then None
    else
      var v :- UnaryValue(m, op, Top(s));
      Some(Push(Pop(s), v))
  }

  /** A binary operator: the second argument is on top; the order of a power derivative lies below the first
      one; an equality pushes nothing. */
  function ExecBinary(m: Functions, op: BinaryOp, s: State): Option<State> {
    if |s.stack| < 2 then None
    else
      var v2, v1, rest := Top(s), Top(Pop(s)), Pop(Pop(s));
      if op == Equal then Some(rest)
      else if op.PowerDeriv? then
        if rest.stack == [] then None
        else
          var v :- BinaryValue(m, PowerDeriv(ToNat(Top(rest))), v1, v2);
          Some(Push(Pop(rest), v))
      else
        var v :- BinaryValue(m, op, v1, v2);
        Some(Push(rest, v))
  }

  predicate IsJump(i: Instruction) {
    i.FJMPIFEVAL? || i.FJMP? || i.FENDBLOCK? || i.FEND?
  }

  /** An instruction that is not a jump, None where the machine stops with an error or has no value to use. */
  function Exec(m: Functions, t: int, i: Instruction, s: State): Option<State> {
    match i
    case FLDZ => Some(Push(s, 0.0))
    case FLDC(v) => if v.Some? then Some(Push(s, v.value)) else None
    case FLDT(k) => if k in s.slots then Some(Push(s, s.slots[k])) else None
    case FSTPT(k) => if s.stack == [] then None else Some(Pop(s).(slots := s.slots[k := Top(s)]))
    case FLDV(sym, lag) => Some(Push(s, s.path(sym, DateOf(sym, lag, t))))
    case FSTPV(sym, lag) =>
      if s.stack == [] then None else Some(Pop(s).(path := Assign(s.path, sym, DateOf(sym, lag, t), Top(s))))
    case FLDU(k) => if k in s.u then Some(Push(s, s.u[k])) else None
    case FSTPU(k) => if s.stack == [] then None else Some(Pop(s).(u := s.u[k := Top(s)]))
    case FLDR(k) => if k in s.residuals then Some(Push(s, s.residuals[k])) else None
    case FSTPR(k) => if s.stack == [] then None else Some(Pop(s).(residuals := s.residuals[k := Top(s)]))
    case FSTPG3(row, _, _, place) =>
      if s.stack == [] then None
      else if s.expression.0 == FirstEndoDerivative then
        Some(Pop(s).(jacobian := s.jacobian[(row, place) := Top(s)]))
      else if s.expression.0 == FirstExoDerivative then
        Some(Pop(s).(jacobianExo := s.jacobianExo[(s.expression.1, place) := Top(s)]))
      else None
    case FUNARY(op) => ExecUnary(m, op, s)
    case FBINARY(op) => ExecBinary(m, op, s)
    case FNUMEXPR(kind, equation) => Some(Announce(s, kind, equation))
    case FCUML => if |s.stack| < 2 then None else Some(Push(Pop(Pop(s)), Top(s) + Top(Pop(s))))
    case _ => Some(s)
  }

  /** A straight stretch of code. */
  function ExecAll(m: Functions, t: int, code: seq<Instruction>, s: State): Option<State> {
    if code == [] then Some(s)
    else
      var s' :- Exec(m, t, code[0], s);
      ExecAll(m, t, code[1..], s')
  }

  lemma {:induction false} ExecAppend(m: Functions, t: int, a: seq<Instruction>, b: seq<Instruction>, s: State)
    ensures ExecAll(m, t, a + b, s) == match ExecAll(m, t, a, s)
                                       case Some(s') => ExecAll(m, t, b, s')
                                       case None => None
  {
    hide Exec;
    if a == [] {
      assert a + b == b;
    } else {
      assert (a + b)[0] == a[0] && (a + b)[1..] == a[1..] + b;
      var s' := Exec(m, t, a[0], s);
      if s'.Some? {
        ExecAppend(m, t, a[1..], b, s'.value);
      }
    }
  }

  lemma ExecOne(m: Functions, t: int, i: Instruction, s: State)
    ensures ExecAll(m, t, [i], s) == Exec(m, t, i, s)
  {
    hide Exec;
    var s' := Exec(m, t, i, s);
    assert [i][1..] == [];
    if s'.Some? {
      assert ExecAll(m, t, [], s'.value) == s';
    }
  }

  // ----- jumps

  /** One step of the machine at position pc: the offset of a jump is added before the usual increment. */
  function Step(m: Functions, t: int, evaluate: bool, code: seq<Instruction>, pc: int, s: State): Option<(int, State)> {
    if !(0 <= pc < |code|) then None
    else
      match code[pc]
      case FJMPIFEVAL(offset) => Some((if evaluate then pc + offset + 1 else pc + 1, s))
      case FJMP(offset) => Some((pc + offset + 1, s))
      case FENDBLOCK => None
      case FEND => None
      case i =>
        var s' :- Exec(m, t, i, s);
        Some((pc + 1, s'))
  }

  /** n steps from pc. */
  function Run(m: Functions, t: int, evaluate: bool, code: seq<Instruction>, pc: int, s: State, n: nat)
    : Option<(int, State)>
    decreases n
  {
    if n == 0 then Some((pc, s))
    else
      var next :- Step(m, t, evaluate, code, pc, s);
      Run(m, t, evaluate, code, next.0, next.1, n - 1)
  }

  predicate NoJump(code: seq<Instruction>) {
    forall k :: 0 <= k < |code| ==> !IsJump(code[k])
  }

  /** A straight stretch inside a program runs like it does alone: it ends just behind itself, or stops where it would. */
  lemma {:induction false} RunStraight(m: Functions, t: int, evaluate: bool, code: seq<Instruction>, pc: nat,
                                       part: seq<Instruction>, s: State)
    requires pc + |part| <= |code| && code[pc..pc + |part|] == part && NoJump(part)
    ensures Run(m, t, evaluate, code, pc, s, |part|) == match ExecAll(m, t, part, s)
                                                        case Some(s') => Some((pc + |part|, s'))
                                                        case None => None
    decreases part
  {
    hide Exec;
    if part != [] {
      assert code[pc] == code[pc..pc + |part|][0];
      var s' := Exec(m, t, part[0], s);
      assert code[pc + 1..pc + 1 + |part[1..]|] == part[1..];
      assert NoJump(part[1..]);
      if s'.Some? {
        RunStraight(m, t, evaluate, code, pc + 1, part[1..], s'.value);
      }
    }
  }

  /** A run that has stopped stays stopped. */
  lemma {:induction false} RunStopped(m: Functions, t: int, evaluate: bool, code: seq<Instruction>, pc: int, s: State,
                                      n: nat, k: nat)
    requires Run(m, t, evaluate, code, pc, s, n) == None
    ensures Run(m, t, evaluate, code, pc, s, n + k) == None
    decreases n
  {
    hide Step;
    var next := Step(m, t, evaluate, code, pc, s);
    if next.Some? {
      RunStopped(m, t, evaluate, code, next.value.0, next.value.1, n - 1, k);
    }
  }

  lemma {:induction false} RunAppend(m: Functions, t: int, evaluate: bool, code: seq<Instruction>, pc: int, s: State,
                                     n: nat, k: nat, mid: (int, State))
    requires Run(m, t, evaluate, code, pc, s, n) == Some(mid)
    ensures Run(m, t, evaluate, code, pc, s, n + k) == Run(m, t, evaluate, code, mid.0, mid.1, k)
    decreases n
  {
    hide Step;
    if n > 0 {
      var next := Step(m, t, evaluate, code, pc, s).value;
      RunAppend(m, t, evaluate, code, next.0, next.1, n - 1, k, mid);
    }
  }

  // ----- writing

  /** The file being written and the running instruction number. */
  class CodeFile {
    var code: seq<Instruction>
    var instructionNumber: nat

    constructor ()
      ensures code == [] && instructionNumber == 0
    {
      code := [];
      instructionNumber := 0;
    }

    method Write(i: Instruction)
      modifies this
      ensures code == old(code) + [i] && instructionNumber == old(instructionNumber) + 1
    {
      code := code + [i];
      instructionNumber := instructionNumber + 1;
    }

    /** Overwrites an earlier instruction; the instruction number advances all the same. */
    method Rewrite(pos: nat, i: Instruction)
      requires pos < |code|
      modifies this
      ensures code == old(code)[pos := i] && instructionNumber == old(instructionNumber) + 1
    {
      code := code[pos := i];
      instructionNumber := instructionNumber + 1;
    }
  }
}
