/** The choice of temporary terms: nodes met more than once whose cost is high, each attached to the equation
    of its first occurrence. */
module TemporaryTerms {
  import opened Results
  import opened Expressions
  import opened Bytecode
  import opened ExpressionCode

  const MIN_COST_C := 160

  predicate IsOperator(e: Expr) {
    e.Un? || e.Bin?
  }

  function UnaryCost(op: UnaryOp): nat {
    match op
    case Uminus => 3
    case Sign => 3
    case Exp => 210
    case Acosh => 210
    case Log => 137
    case Log10 => 139
    case Cos => 160
    case Sin => 160
    case Tan => 170
    case Acos => 190
    case Atan => 190
    case Asin => 180
    case Cosh => 240
    case Sinh => 240
    case Tanh => 240
    case Erf => 240
    case Asinh => 220
    case Atanh => 150
    case Sqrt => 90
    case Abs => 90
  }

  function BinaryCost(op: BinaryOp): nat {
    match op
    case Plus => 4
    case Minus => 4
    case Times => 4
    case Max => 5
    case Min => 5
    case Divide => 15
    case Power => 520
    case PowerDeriv(_) => 520
    case Equal => 0
    case _ => 2
  }

  /** The cost of computing a node when the terms are already there. */
  function Cost(e: Expr, terms: set<Expr>): nat {
    match e
    case Un(op, arg) => if e in terms then 0 else Cost(arg, terms) + UnaryCost(op)
    case Bin(op, l, r) => if e in terms then 0 else Cost(l, terms) + Cost(r, terms) + BinaryCost(op)
    case _ => 0
  }

  lemma {:induction false} CostFalls(e: Expr, terms: set<Expr>, more: set<Expr>)
    requires terms <= more
    ensures Cost(e, more) <= Cost(e, terms)
  {
    match e
    case Un(_, arg) => CostFalls(arg, terms, more);
    case Bin(_, l, r) =>
      CostFalls(l, terms, more);
      CostFalls(r, terms, more);
    case _ =>
  }

  /** The cost of the operators that a piece of code executes. */
  function CodeCost(code: seq<Instruction>): nat {
    if code == [] then 0
    else
      CodeCost(code[..|code| - 1])
      + match code[|code| - 1]
        case FUNARY(op) => UnaryCost(op)
        case FBINARY(op) => BinaryCost(op)
        case _ => 0
  }

  lemma {:induction false} CodeCostAppend(a: seq<Instruction>, b: seq<Instruction>)
    ensures CodeCost(a + b) == CodeCost(a) + CodeCost(b)
  {
    if b == [] {
      assert a + b == a;
    } else {
      assert (a + b)[..|a + b| - 1] == a + b[..|b| - 1];
      CodeCostAppend(a, b[..|b| - 1]);
    }
  }

  lemma CodeCostOne(i: Instruction)
    ensures CodeCost([i]) == match i
                             case FUNARY(op) => UnaryCost(op)
                             case FBINARY(op) => BinaryCost(op)
                             case _ => 0
  {
    assert [i][..0] == [];
  }

  /** The cost that decides is the cost of the operators in the code that is written with these terms. */
  lemma {:induction false} CostOfCode(e: Expr, terms: set<Expr>, slot: map<Expr, nat>)
    requires terms <= slot.Keys
    ensures CodeCost(Code(e, terms, slot)) == Cost(e, terms)
  {
    hide CodeCost;
    match e
    case Un(op, arg) =>
      CostOfCode(arg, terms, slot);
      CodeCostAppend(Code(arg, terms, slot), [FUNARY(op)]);
      CodeCostOne(FUNARY(op));
      CodeCostOne(FLDT(if e in terms then slot[e] else 0));
    case Bin(op, l, r) =>
      CostOfCode(l, terms, slot);
      CostOfCode(r, terms, slot);
      CodeCostOne(FLDT(if e in terms then slot[e] else 0));
      if e !in terms {
        var a, b, o := Code(l, terms, slot), Code(r, terms, slot), [FBINARY(Opcode(op))];
        BinaryCodeIs(op, l, r, terms, slot);
        CodeCostAppend(OrderCode(op), a + (b + o));
        CodeCostAppend(a, b + o);
        CodeCostAppend(b, o);
        CodeCostOne(o[0]);
        OrderCost(op);
      }
    case Const(v) => CodeCostOne(FLDC(Some(v)));
    case NotANumber => CodeCostOne(FLDC(None));
    case Var(s, lag) => CodeCostOne(FLDV(s, lag));
  }

  lemma OrderCost(op: BinaryOp)
    ensures CodeCost(OrderCode(op)) == 0 && BinaryCost(Opcode(op)) == BinaryCost(op)
  {
    if op.PowerDeriv? {
      CodeCostOne(FLDC(Some(op.order as real)));
    }
  }

  function Burden(count: nat, cost: nat): nat {
    count * cost
  }

  lemma BurdenGrows(n: nat, m: nat, c: nat, d: nat)
    requires n <= m && c <= d
    ensures Burden(n, c) <= Burden(m, d)
  {
    assert n * c <= m * c && m * c <= m * d;
  }

  predicate IsEquationNode(e: Expr) {
    e.Bin? && e.bop == Equal
  }

  // ----- how often a node is met

  ghost function ArgumentOf(met: set<Expr>, x: Expr): set<Expr> {
    set p | p in met && p.Un? && p.arg == x
  }

  ghost function LeftOf(met: set<Expr>, x: Expr): set<Expr> {
    set p | p in met && p.Bin? && p.left == x
  }

  ghost function RightOf(met: set<Expr>, x: Expr): set<Expr> {
    set p | p in met && p.Bin? && p.right == x
  }

  /** How often x is an argument of the nodes of a set. */
  ghost function Uses(met: set<Expr>, x: Expr): nat {
    |ArgumentOf(met, x)| + |LeftOf(met, x)| + |RightOf(met, x)|
  }

  function Slots(p: Expr, x: Expr): nat {
    match p
    case Un(_, arg) => if arg == x then 1 else 0
    case Bin(_, l, r) => (if l == x then 1 else 0) + if r == x then 1 else 0
    case _ => 0
  }

  lemma OneMore(a: set<Expr>, p: Expr, joins: bool)
    requires p !in a
    ensures |a + if joins then {p} else {}| == |a| + if joins then 1 else 0
  {
  }

  lemma UsesMore(met: set<Expr>, p: Expr, x: Expr)
    requires p !in met
    ensures Uses(met + {p}, x) == Uses(met, x) + Slots(p, x)
  {
    var a, l, r := p.Un? && p.arg == x, p.Bin? && p.left == x, p.Bin? && p.right == x;
    UsersMore(met, p, x);
    OneMore(ArgumentOf(met, x), p, a);
    OneMore(LeftOf(met, x), p, l);
    OneMore(RightOf(met, x), p, r);
    hide ArgumentOf, LeftOf, RightOf;
  }

  lemma UsersMore(met: set<Expr>, p: Expr, x: Expr)
    requires p !in met
    ensures p !in ArgumentOf(met, x) && p !in LeftOf(met, x) && p !in RightOf(met, x)
    ensures ArgumentOf(met + {p}, x) == ArgumentOf(met, x) + if p.Un? && p.arg == x then {p} else {}
    ensures LeftOf(met + {p}, x) == LeftOf(met, x) + if p.Bin? && p.left == x then {p} else {}
    ensures RightOf(met + {p}, x) == RightOf(met, x) + if p.Bin? && p.right == x then {p} else {}
  {
  }

  /** How often x is an equation or a derivative of the blocks. */
  ghost function RootUses(blocks: seq<Block>, x: Expr): nat {
    if blocks == [] then 0
    else
      var block := blocks[|blocks| - 1];
      RootUses(blocks[..|blocks| - 1], x) + multiset(block.equations)[x] + multiset(block.derivatives)[x]
  }

  /** The place of an equation: block and equation in the block, in the order in which code is written. */
  type Place = (nat, nat)

  predicate Before(p: Place, q: Place) {
    p.0 < q.0 || (p.0 == q.0 && p.1 <= q.1)
  }

  ghost predicate HasPlace(v: seq<seq<set<Expr>>>, p: Place) {
    p.0 < |v| && p.1 < |v[p.0]|
  }

  /** An equation, or an expression without equality. */
  predicate Plain(e: Expr) {
    NoEquality(e) || (e.Bin? && e.bop == Equal && NoEquality(e.left) && NoEquality(e.right))
  }

  predicate IsChild(a: Expr, e: Expr) {
    match e
    case Un(_, arg) => a == arg
    case Bin(_, l, r) => a == l || a == r
    case _ => false
  }

  /** The equation nodes of a block, and the derivatives that are visited after them. */
  datatype Block = Block(equations: seq<Expr>, derivatives: seq<Expr>)

  predicate PlainBlock(block: Block) {
    && (forall i :: 0 <= i < |block.equations| ==> Plain(block.equations[i]))
    && (forall i :: 0 <= i < |block.derivatives| ==> Plain(block.derivatives[i]))
  }

  /** A node is below the equation of a place, or below a derivative of its block at the last equation. */
  ghost predicate OccursAt(blocks: seq<Block>, x: Expr, p: Place) {
    && p.0 < |blocks| && p.1 < |blocks[p.0].equations|
    && (x in Operators(blocks[p.0].equations[p.1])
        || (p.1 == |blocks[p.0].equations| - 1 && exists d :: d in blocks[p.0].derivatives && x in Operators(d)))
  }

  class TermTables {
    var referenceCount: map<Expr, nat>
    var firstOccurrence: map<Expr, Place>
    var temporaryTerms: set<Expr>
    var vTemporaryTerms: seq<seq<set<Expr>>>

    /** Every operator node among the children has been met, no later than the node. */
    ghost predicate ChildrenMet(e: Expr)
      reads this
      requires e in firstOccurrence
    {
      forall a :: IsChild(a, e) && IsOperator(a) ==>
        a in firstOccurrence && Before(firstOccurrence[a], firstOccurrence[e])
    }

    /** What holds between two visits; the nodes in `open` are being visited. */
    ghost predicate Valid(open: set<Expr>)
      reads this
    {
      && referenceCount.Keys == firstOccurrence.Keys
      && (forall e :: e in firstOccurrence ==>
            IsOperator(e) && Plain(e) && HasPlace(vTemporaryTerms, firstOccurrence[e]))
      && (forall e :: e in firstOccurrence && e !in open ==> ChildrenMet(e))
      && temporaryTerms <= firstOccurrence.Keys
      && (forall e :: e in temporaryTerms ==> !IsEquationNode(e))
      && Attached()
    }

    /** The terms of a place are the temporary terms that first occur there. */
    ghost predicate Attached()
      reads this
      requires temporaryTerms <= firstOccurrence.Keys
    {
      forall b, i, e :: 0 <= b < |vTemporaryTerms| && 0 <= i < |vTemporaryTerms[b]| ==>
        (e in vTemporaryTerms[b][i] <==> e in temporaryTerms && firstOccurrence[e] == (b, i))
    }

    ghost predicate WellChosen(e: Expr)
      reads this
      requires e in referenceCount
    {
      ChosenBy(e, referenceCount[e], temporaryTerms)
    }

    ghost predicate Economical()
      reads this
    {
      forall e :: e in referenceCount ==> WellChosen(e)
    }

    /** The choice: a node that is no equation is a temporary term only if it is met more than once and computing it each time
        is too costly, and it is none only if it is met once or, with the terms there are, computing it is not. */
    static ghost predicate ChosenBy(e: Expr, count: nat, terms: set<Expr>) {
      count >= 1 &&
      (!IsEquationNode(e) ==>
         if e in terms then count >= 2 && Burden(count, Cost(e, {})) > MIN_COST_C
         else count == 1 || Burden(count, Cost(e, terms)) <= MIN_COST_C)
    }

    /** How often x was met beyond its uses as an argument of the nodes met. */
    ghost function Surplus(x: Expr): int
      reads `referenceCount
    {
      (if x in referenceCount then referenceCount[x] else 0) - Uses(referenceCount.Keys, x)
    }

    /** The visits since have met each operator node x exactly n(x) times more than as an argument of nodes met since. */
    twostate predicate Met(n: Expr -> int)
      reads `referenceCount
    {
      forall x :: IsOperator(x) ==> Surplus(x) == old(Surplus(x)) + n(x)
    }

    /** All nodes met so far were met at p or before. */
    ghost predicate UpTo(p: Place)
      reads `firstOccurrence
    {
      forall e :: e in firstOccurrence ==> Before(firstOccurrence[e], p)
    }

    constructor ()
      ensures Valid({}) && firstOccurrence == map[] && temporaryTerms == {} && vTemporaryTerms == []
      ensures Economical() && forall x :: Surplus(x) == 0
    {
      referenceCount := map[];
      firstOccurrence := map[];
      temporaryTerms := {};
      vTemporaryTerms := [];
    }

    /** What every visit keeps: nodes, their places, the terms and the number of places. */
    twostate predicate Grows()
      reads this
    {
      && (forall x :: x in old(firstOccurrence) ==> x in firstOccurrence && firstOccurrence[x] == old(firstOccurrence)[x])
      && old(temporaryTerms) <= temporaryTerms
      && |vTemporaryTerms| == |old(vTemporaryTerms)|
      && (forall b :: 0 <= b < |vTemporaryTerms| ==> |vTemporaryTerms[b]| == |old(vTemporaryTerms)[b]|)
    }

    /** Every node met since is below e, and was met at p. */
    twostate predicate MetBelow(e: Expr, p: Place)
      reads this
    {
      forall x :: x in firstOccurrence && x !in old(firstOccurrence) ==> firstOccurrence[x] == p && x in Operators(e)
    }

    /** Every node met so far occurs at its place. */
    ghost predicate Originates(blocks: seq<Block>)
      reads `firstOccurrence
    {
      forall x :: x in firstOccurrence ==> OccursAt(blocks, x, firstOccurrence[x])
    }

    /** Visits an expression at an equation. */
    method ComputeTemporaryTerms(e: Expr, block: nat, equation: nat, ghost open: set<Expr>)
      requires Valid(open) && HasPlace(vTemporaryTerms, (block, equation)) && UpTo((block, equation)) && Plain(e)
      requires Economical()
      modifies this
      ensures Valid(open) && UpTo((block, equation)) && Grows() && MetBelow(e, (block, equation))
      ensures IsOperator(e) ==> e in firstOccurrence
      ensures Economical() && Met((x: Expr) => if x == e then 1 else 0)
      decreases e, 1
    {
      hide Valid, Economical, Surplus;
      if !IsOperator(e) {
        return;
      }
      if e !in referenceCount {
        Meet(e, block, equation, open);
        VisitChildren(e, block, equation, open + {e});
        Close(e, open, (block, equation));
      } else {
        MeetAgain(e, open, (block, equation));
      }
    }

    /** A further visit. */
    method MeetAgain(e: Expr, ghost open: set<Expr>, ghost p: Place)
      requires Valid(open) && e in referenceCount && UpTo(p) && Economical()
      modifies this`referenceCount, this`temporaryTerms, this`vTemporaryTerms
      ensures Valid(open) && UpTo(p) && Grows() && e in firstOccurrence
      ensures Economical() && Met((x: Expr) => if x == e then 1 else 0)
    {
      hide Cost, Burden, Valid, ChosenBy, Surplus, Uses, UpTo, IsEquationNode;
      ghost var counts, terms := referenceCount, temporaryTerms;
      assert forall x :: x in counts ==> WellChosen(x);
      hide WellChosen, Economical;
      MetBefore(e, open);
      Count(e, open);
      Choose(e, open);
      ChoiceKept(e, counts, terms);
    }

    /** Makes a node that has become too costly a temporary term, except equations. */
    method Choose(e: Expr, ghost open: set<Expr>)
      requires Valid(open) && e in firstOccurrence && e in referenceCount
      modifies this`temporaryTerms, this`vTemporaryTerms
      ensures Valid(open) && old(temporaryTerms) <= temporaryTerms <= old(temporaryTerms) + {e}
      ensures e in temporaryTerms <==>
              || e in old(temporaryTerms)
              || (Burden(referenceCount[e], Cost(e, old(temporaryTerms))) > MIN_COST_C && !IsEquationNode(e))
      ensures |vTemporaryTerms| == |old(vTemporaryTerms)|
      ensures forall b :: 0 <= b < |vTemporaryTerms| ==> |vTemporaryTerms[b]| == |old(vTemporaryTerms)[b]|
    {
      hide Valid, Cost, IsEquationNode;
      if referenceCount[e] * Cost(e, temporaryTerms) > MIN_COST_C && !IsEquationNode(e) {
        Declare(e, open);
      }
    }

    lemma MetBefore(e: Expr, open: set<Expr>)
      requires Valid(open) && e in referenceCount
      ensures e in firstOccurrence
    {
    }

    /** The choice is still right after a further visit of e. */
    lemma ChoiceKept(e: Expr, counts: map<Expr, nat>, terms: set<Expr>)
      requires e in counts && referenceCount == counts[e := counts[e] + 1] && terms <= temporaryTerms <= terms + {e}
      requires forall x :: x in counts ==> ChosenBy(x, counts[x], terms)
      requires e in temporaryTerms <==>
               e in terms || (Burden(referenceCount[e], Cost(e, terms)) > MIN_COST_C && !IsEquationNode(e))
      ensures Economical()
    {
      forall x | x in referenceCount ensures WellChosen(x) {
        CostFalls(x, terms, temporaryTerms);
        CostFalls(x, {}, terms);
        BurdenGrows(referenceCount[x], referenceCount[x], Cost(x, temporaryTerms), Cost(x, terms));
        BurdenGrows(referenceCount[x], referenceCount[x], Cost(x, terms), Cost(x, {}));
        BurdenGrows(counts[x], referenceCount[x], Cost(x, {}), Cost(x, {}));
      }
    }

    method VisitChildren(e: Expr, block: nat, equation: nat, ghost open: set<Expr>)
      requires Valid(open) && HasPlace(vTemporaryTerms, (block, equation)) && UpTo((block, equation))
      requires IsOperator(e) && Plain(e) && Economical()
      modifies this
      ensures Valid(open) && UpTo((block, equation)) && Grows() && MetBelow(e, (block, equation))
      ensures forall a :: IsChild(a, e) && IsOperator(a) ==> a in firstOccurrence
      ensures Economical() && Met((x: Expr) => Slots(e, x))
      decreases e, 0
    {
      hide Valid, UpTo, Economical, Surplus;
      if e.Un? {
        ComputeTemporaryTerms(e.arg, block, equation, open);
      } else {
        ComputeTemporaryTerms(e.left, block, equation, open);
        ComputeTemporaryTerms(e.right, block, equation, open);
      }
    }

    /** Counts a further visit. */
    method Count(e: Expr, ghost open: set<Expr>)
      requires Valid(open) && e in firstOccurrence
      modifies this`referenceCount
      ensures Valid(open) && e in old(referenceCount) && referenceCount == old(referenceCount)[e := old(referenceCount)[e] + 1]
      ensures Met((x: Expr) => if x == e then 1 else 0)
    {
      assert referenceCount[e := referenceCount[e] + 1].Keys == referenceCount.Keys;
      referenceCount := referenceCount[e := referenceCount[e] + 1];
    }

    /** The first visit of a node, before its children are visited. */
    method Meet(e: Expr, block: nat, equation: nat, ghost open: set<Expr>)
      requires Valid(open) && HasPlace(vTemporaryTerms, (block, equation)) && UpTo((block, equation))
      requires IsOperator(e) && Plain(e) && e !in referenceCount && Economical()
      modifies this`referenceCount, this`firstOccurrence
      ensures Valid(open + {e}) && UpTo((block, equation)) && Grows()
      ensures Economical() && Met((x: Expr) => (if x == e then 1 else 0) - Slots(e, x))
      ensures firstOccurrence == old(firstOccurrence)[e := (block, equation)]
    {
      hide Valid, Uses, Burden, Cost;
      ghost var counts := referenceCount;
      forall x ensures Uses(counts.Keys + {e}, x) == Uses(counts.Keys, x) + Slots(e, x) {
        UsesMore(counts.Keys, e, x);
      }
      assert referenceCount[e := 1].Keys == counts.Keys + {e};
      Record(e, block, equation, open);
      forall x | x in referenceCount ensures WellChosen(x) {
        assert x in counts ==> old(WellChosen(x));
      }
    }

    /** The tables after the first visit. */
    method Record(e: Expr, block: nat, equation: nat, ghost open: set<Expr>)
      requires Valid(open) && HasPlace(vTemporaryTerms, (block, equation)) && UpTo((block, equation))
      requires IsOperator(e) && Plain(e) && e !in referenceCount
      modifies this`referenceCount, this`firstOccurrence
      ensures Valid(open + {e}) && UpTo((block, equation)) && Grows() && e !in temporaryTerms
      ensures referenceCount == old(referenceCount)[e := 1]
      ensures firstOccurrence == old(firstOccurrence)[e := (block, equation)]
    {
      assert e !in temporaryTerms;
      referenceCount := referenceCount[e := 1];
      firstOccurrence := firstOccurrence[e := (block, equation)];
      forall x | x in firstOccurrence && x !in open + {e} ensures ChildrenMet(x) {
        assert old(ChildrenMet(x));
      }
      assert Attached();
    }

    /** A node whose children have been visited at its own place is no longer open. */
    lemma Close(e: Expr, open: set<Expr>, p: Place)
      requires Valid(open + {e}) && UpTo(p) && e in firstOccurrence && firstOccurrence[e] == p
      requires forall a :: IsChild(a, e) && IsOperator(a) ==> a in firstOccurrence
      ensures Valid(open)
    {
      assert ChildrenMet(e);
    }

    /** Makes a node met before a temporary term of the equation of its first occurrence. */
    method Declare(e: Expr, ghost open: set<Expr>)
      requires Valid(open) && e in firstOccurrence && !IsEquationNode(e)
      modifies this`temporaryTerms, this`vTemporaryTerms
      ensures Valid(open) && temporaryTerms == old(temporaryTerms) + {e}
      ensures |vTemporaryTerms| == |old(vTemporaryTerms)|
      ensures forall b :: 0 <= b < |vTemporaryTerms| ==> |vTemporaryTerms[b]| == |old(vTemporaryTerms)[b]|
    {
      var p := firstOccurrence[e];
      temporaryTerms := temporaryTerms + {e};
      var inBlock := vTemporaryTerms[p.0];
      vTemporaryTerms := vTemporaryTerms[p.0 := inBlock[p.1 := inBlock[p.1] + {e}]];
    }

    /** The equations of the blocks up to p have been visited. */
    ghost predicate Visited(blocks: seq<Block>, p: Place)
      reads this
    {
      forall b, i :: 0 <= b < |blocks| && 0 <= i < |blocks[b].equations| && Before((b, i), p) ==>
        VisitedAt(blocks[b].equations[i], (b, i))
    }

    ghost predicate VisitedAt(e: Expr, p: Place)
      reads this
    {
      IsOperator(e) ==> e in firstOccurrence && Before(firstOccurrence[e], p)
    }

    /** Opens the places of the next block. */
    method AddBlock(size: nat)
      requires Valid({}) && Economical()
      modifies this`vTemporaryTerms
      ensures Valid({}) && vTemporaryTerms == old(vTemporaryTerms) + [seq(size, _ => {})]
      ensures Economical() && Met(_ => 0)
    {
      var empty: set<Expr> := {};
      vTemporaryTerms := vTemporaryTerms + [seq(size, _ => empty)];
    }

    /** Visits all blocks in order: the equations of a block, then its derivatives at its last equation. */
    method ComputeTemporaryTermsOrdered(blocks: seq<Block>)
      requires Valid({}) && firstOccurrence == map[] && vTemporaryTerms == []
      requires Economical() && forall x :: Surplus(x) == 0
      requires forall b :: 0 <= b < |blocks| ==> |blocks[b].equations| > 0 && PlainBlock(blocks[b])
      modifies this
      ensures Valid({}) && |vTemporaryTerms| == |blocks|
      ensures forall b :: 0 <= b < |blocks| ==> |vTemporaryTerms[b]| == |blocks[b].equations|
      ensures Visited(blocks, (|blocks|, 0)) && Originates(blocks)
      ensures Economical() && forall x :: IsOperator(x) ==> Surplus(x) == RootUses(blocks, x)
    {
      hide Valid, OccursAt, Economical, Surplus;
      for b := 0 to |blocks|
        invariant Valid({}) && |vTemporaryTerms| == b
        invariant forall k :: 0 <= k < b ==> |vTemporaryTerms[k]| == |blocks[k].equations|
        invariant UpTo((b, 0)) && Visited(blocks[..b], (b, 0)) && Originates(blocks)
        invariant Economical() && forall x :: IsOperator(x) ==> Surplus(x) == RootUses(blocks[..b], x)
      {
        assert blocks[..b + 1][..b] == blocks[..b];
        VisitBlock(blocks, b);
      }
      assert blocks[..|blocks|] == blocks;
    }

    /** Visits an equation, or a derivative at the last equation of its block. */
    method VisitAt(ghost blocks: seq<Block>, e: Expr, block: nat, equation: nat)
      requires Valid({}) && HasPlace(vTemporaryTerms, (block, equation)) && UpTo((block, equation)) && Plain(e)
      requires Originates(blocks) && block < |blocks| && equation < |blocks[block].equations|
      requires e == blocks[block].equations[equation]
               || (equation == |blocks[block].equations| - 1 && e in blocks[block].derivatives)
      requires Economical()
      modifies this
      ensures Valid({}) && UpTo((block, equation)) && Grows() && Originates(blocks)
      ensures VisitedAt(e, (block, equation)) &&
              forall x, b: nat, i: nat :: old(VisitedAt(x, (b, i))) ==> VisitedAt(x, (b, i))
      ensures Economical() && Met((x: Expr) => if x == e then 1 else 0)
    {
      hide Valid, Economical, Surplus;
      ghost var first := firstOccurrence;
      ComputeTemporaryTerms(e, block, equation, {});
      forall x | x in firstOccurrence ensures OccursAt(blocks, x, firstOccurrence[x]) {
        assert x in first ==> OccursAt(blocks, x, first[x]);
      }
    }

    method VisitBlock(blocks: seq<Block>, b: nat)
      requires Valid({}) && |vTemporaryTerms| == b < |blocks| && |blocks[b].equations| > 0 && PlainBlock(blocks[b])
      requires forall k :: 0 <= k < b ==> |vTemporaryTerms[k]| == |blocks[k].equations|
      requires UpTo((b, 0)) && Visited(blocks[..b], (b, 0)) && Originates(blocks) && Economical()
      modifies this
      ensures Valid({}) && |vTemporaryTerms| == b + 1
      ensures forall k :: 0 <= k <= b ==> |vTemporaryTerms[k]| == |blocks[k].equations|
      ensures UpTo((b + 1, 0)) && Visited(blocks[..b + 1], (b + 1, 0)) && Originates(blocks)
      ensures Economical() && Met((x: Expr) => multiset(blocks[b].equations)[x] + multiset(blocks[b].derivatives)[x])
    {
      hide Valid, Originates, Economical, Surplus;
      AddBlock(|blocks[b].equations|);
      VisitEquations(blocks, b);
      VisitDerivatives(blocks, b);
    }

    method VisitEquations(blocks: seq<Block>, b: nat)
      requires Valid({}) && |vTemporaryTerms| == b + 1 <= |blocks| && |blocks[b].equations| > 0 && PlainBlock(blocks[b])
      requires forall k :: 0 <= k <= b ==> |vTemporaryTerms[k]| == |blocks[k].equations|
      requires UpTo((b, 0)) && Visited(blocks[..b], (b, 0)) && Originates(blocks) && Economical()
      modifies this
      ensures Valid({}) && |vTemporaryTerms| == b + 1
      ensures forall k :: 0 <= k <= b ==> |vTemporaryTerms[k]| == |blocks[k].equations|
      ensures UpTo((b, |blocks[b].equations| - 1)) && Visited(blocks[..b], (b, 0)) && Originates(blocks)
      ensures forall k :: 0 <= k < |blocks[b].equations| ==> VisitedAt(blocks[b].equations[k], (b, k))
      ensures Economical() && Met((x: Expr) => multiset(blocks[b].equations)[x])
    {
      hide Valid, Originates, Economical, Surplus, VisitedAt;
      var size := |blocks[b].equations|;
      for i := 0 to size
        invariant Valid({}) && |vTemporaryTerms| == b + 1
        invariant forall k :: 0 <= k <= b ==> |vTemporaryTerms[k]| == |blocks[k].equations|
        invariant UpTo((b, if i == 0 then 0 else i - 1)) && Visited(blocks[..b], (b, 0)) && Originates(blocks)
        invariant forall k :: 0 <= k < i ==> VisitedAt(blocks[b].equations[k], (b, k))
        invariant Economical() && Met((x: Expr) => multiset(blocks[b].equations[..i])[x])
      {
        assert blocks[b].equations[..i + 1] == blocks[b].equations[..i] + [blocks[b].equations[i]];
        VisitAt(blocks, blocks[b].equations[i], b, i);
      }
      assert blocks[b].equations[..size] == blocks[b].equations;
    }

    method VisitDerivatives(blocks: seq<Block>, b: nat)
      requires Valid({}) && |vTemporaryTerms| == b + 1 <= |blocks| && |blocks[b].equations| > 0 && PlainBlock(blocks[b])
      requires forall k :: 0 <= k <= b ==> |vTemporaryTerms[k]| == |blocks[k].equations|
      requires UpTo((b, |blocks[b].equations| - 1)) && Visited(blocks[..b], (b, 0)) && Originates(blocks)
      requires forall k :: 0 <= k < |blocks[b].equations| ==> VisitedAt(blocks[b].equations[k], (b, k))
      requires Economical()
      modifies this
      ensures Valid({}) && |vTemporaryTerms| == b + 1
      ensures forall k :: 0 <= k <= b ==> |vTemporaryTerms[k]| == |blocks[k].equations|
      ensures UpTo((b, |blocks[b].equations| - 1)) && Visited(blocks[..b], (b, 0)) && Originates(blocks)
      ensures forall k :: 0 <= k < |blocks[b].equations| ==> VisitedAt(blocks[b].equations[k], (b, k))
      ensures Economical() && Met((x: Expr) => multiset(blocks[b].derivatives)[x])
    {
      hide Valid, Originates, Economical, Surplus, UpTo, VisitedAt;
      var size := |blocks[b].equations|;
      for j := 0 to |blocks[b].derivatives|
        invariant Valid({}) && |vTemporaryTerms| == b + 1
        invariant forall k :: 0 <= k <= b ==> |vTemporaryTerms[k]| == |blocks[k].equations|
        invariant UpTo((b, size - 1)) && Visited(blocks[..b], (b, 0)) && Originates(blocks)
        invariant forall k :: 0 <= k < size ==> VisitedAt(blocks[b].equations[k], (b, k))
        invariant Economical() && Met((x: Expr) => multiset(blocks[b].derivatives[..j])[x])
      {
        assert blocks[b].derivatives[..j + 1] == blocks[b].derivatives[..j] + [blocks[b].derivatives[j]];
        VisitAt(blocks, blocks[b].derivatives[j], b, size - 1);
      }
      assert blocks[b].derivatives[..|blocks[b].derivatives|] == blocks[b].derivatives;
    }
  }
}
