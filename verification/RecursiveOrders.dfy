/** The recursive equations of a block, in the order in which the block's variables have been listed: no variable is read
    before the equation that evaluates it. */
module RecursiveOrders {
  import opened Results
  import opened Expressions
  import opened Constructors
  import opened Derivatives
  import DerivativeClosure
  import opened ExpressionCode
  import opened TemporaryTerms
  import opened BlockCode
  import opened ModelCode
  import Digraphs
  import ReorderVariables

  /** The equations of a block: those of the listed vertices evaluate their variables, the others are solved, with the
      places of their residuals counted from the first one. */
  ghost predicate Arranged(eqs: seq<Equation>, order: seq<int>, symOf: int -> Symbol) {
    && |order| <= |eqs|
    && (forall i :: 0 <= i < |order| ==> Evaluates(eqs[i], symOf(order[i])))
    && (forall i :: |order| <= i < |eqs| ==> eqs[i].Solve? && eqs[i].pos == i - |order|)
  }

  predicate Evaluates(eq: Equation, y: Symbol) {
    eq.Evaluate? && eq.sym == y && eq.lag == 0 && y.kind == Endogenous
  }

  /** What the code of an equation reads. */
  function ReadBy(eq: Equation): set<DerivId> {
    match eq
    case Evaluate(_, _, _, rhs) => NonNull(rhs)
    case Solve(_, lhs, rhs, _) => NonNull(lhs) + NonNull(rhs)
  }

  /** The edges of the graph are the contemporaneous dependencies between the equations, and no equation reads the variable
      that it evaluates. */
  ghost predicate Dependencies(eqs: seq<Equation>, order: seq<int>, symOf: int -> Symbol, E: Digraphs.Edges)
    requires Arranged(eqs, order, symOf)
  {
    && (forall i, j :: 0 <= i < j < |order| ==> symOf(order[i]) != symOf(order[j]))
    && (forall i, j :: 0 <= i < |order| && 0 <= j < |order| && Reads(eqs[j], symOf(order[i])) ==>
          i != j && (order[i], order[j]) in E)
  }

  predicate Reads(eq: Equation, y: Symbol) {
    (y, 0) in ReadBy(eq)
  }

  /** The derivatives of a block read nothing that its equations do not read. */
  ghost predicate DerivativesRead(eqs: seq<Equation>, block: Block) {
    forall d, x :: d in block.derivatives && x in NonNull(d) ==> ReadSomewhere(eqs, x)
  }

  ghost predicate ReadSomewhere(eqs: seq<Equation>, x: DerivId) {
    exists j :: 0 <= j < |eqs| && x in ReadBy(eqs[j])
  }

  /** d is a derivative of an equation of the block. */
  ghost predicate DerivedFrom(c: Tree, eqs: seq<Equation>, d: Expr) {
    exists j, x :: 0 <= j < |eqs| && Derivative(c, Node(eqs[j]), x) == Ok(d)
  }

  /** The derivatives of the equations do so. */
  lemma PlainDerivativesRead(c: Tree, eqs: seq<Equation>, block: Block)
    requires forall d :: d in block.derivatives ==> DerivedFrom(c, eqs, d)
    ensures DerivativesRead(eqs, block)
  {
    hide Derivative;
    forall d, y | d in block.derivatives && y in NonNull(d) ensures ReadSomewhere(eqs, y) {
      assert DerivedFrom(c, eqs, d);
      var j, x :| 0 <= j < |eqs| && Derivative(c, Node(eqs[j]), x) == Ok(d);
      EquationDerivativeReads(c, eqs[j], x);
    }
  }

  lemma EquationDerivativeReads(c: Tree, eq: Equation, x: DerivId)
    ensures Derivative(c, Node(eq), x).Ok? ==> NonNull(Derivative(c, Node(eq), x).value) <= ReadBy(eq)
  {
    match eq
    case Evaluate(_, sym, lag, rhs) => DerivativeClosure.EvaluatedDerivativeReads(c, sym, lag, rhs, x);
    case Solve(_, _, _, _) => DerivativeClosure.DerivativeReads(c, Node(eq), x);
  }

  /** No earlier block reads a variable that this one evaluates. */
  ghost predicate Triangular(model: seq<seq<Equation>>, b: nat, y: Symbol)
    requires b < |model|
  {
    forall c, j :: 0 <= c < b && 0 <= j < |model[c]| ==> UnreadBy((y, 0), Node(model[c][j]))
  }

  /** A node reads nothing that an expression above it does not read. */
  lemma {:induction false} OperatorReads(e: Expr, x: Expr)
    requires x in Operators(e)
    ensures NonNull(x) <= NonNull(e)
  {
    if x != e {
      match e
      case Un(_, arg) => OperatorReads(arg, x);
      case Bin(_, l, r) => OperatorReads(if x in Operators(l) then l else r, x);
    }
  }

  /** Predecessors first: an equation does not read the variable of a later one, nor its own. */
  lemma LaterUnread(eqs: seq<Equation>, order: seq<int>, symOf: int -> Symbol, E: Digraphs.Edges, F: set<int>, i: nat,
                    j: nat)
    requires Arranged(eqs, order, symOf) && Dependencies(eqs, order, symOf, E)
    requires Digraphs.Distinct(order) && ReorderVariables.PredecessorsFirst(E, F, order)
    requires j <= i < |order| && order[i] !in F
    ensures !Reads(eqs[j], symOf(order[i]))
    ensures j < i ==> UnreadBy((symOf(order[i]), 0), Node(eqs[j]))
  {
    assert Evaluates(eqs[j], symOf(order[j])) && Evaluates(eqs[i], symOf(order[i]));
    assert order[i] !in order[..j];
  }

  /** y is not read before or by the equation at place (b, i) that evaluates it. */
  ghost predicate UnreadUpTo(model: seq<seq<Equation>>, b: nat, i: nat, y: Symbol)
    requires b < |model| && i < |model[b]|
  {
    && Evaluates(model[b][i], y) && Triangular(model, b, y)
    && (forall j :: 0 <= j <= i ==> !Reads(model[b][j], y))
    && (forall j :: 0 <= j < i ==> UnreadBy((y, 0), Node(model[b][j])))
  }

  /** A node below an equation up to that place does not read y; of the equation itself, a node below its right side. */
  lemma EquationTermUnread(model: seq<seq<Equation>>, b: nat, i: nat, y: Symbol, p: Place, e: Expr)
    requires b < |model| && i < |model[b]| && UnreadUpTo(model, b, i, y)
    requires (p.0 < b || (p.0 == b && p.1 <= i)) && p.1 < |model[p.0]|
    requires e in Operators(Node(model[p.0][p.1])) && e != Node(model[p.0][p.1])
    ensures UnreadBy((y, 0), e)
  {
    var eq := model[p.0][p.1];
    OperatorReads(Node(eq), e);
    if p == (b, i) {
      assert !Reads(eq, y) && Evaluates(eq, y);
      assert Operators(Node(eq)) == {Node(eq)} + Operators(Node(eq).left) + Operators(Node(eq).right);
      OperatorReads(eq.rhs, e);
    } else {
      assert UnreadBy((y, 0), Node(eq));
    }
  }

  /** A node below a derivative of a block of which no equation reads y does not read it. */
  lemma DerivativeTermUnread(eqs: seq<Equation>, block: Block, y: Symbol, d: Expr, e: Expr)
    requires DerivativesRead(eqs, block) && d in block.derivatives && e in Operators(d)
    requires forall j :: 0 <= j < |eqs| ==> !Reads(eqs[j], y)
    ensures UnreadBy((y, 0), e)
  {
    OperatorReads(d, e);
    assert !ReadSomewhere(eqs, (y, 0)) by {
      forall j | 0 <= j < |eqs| ensures (y, 0) !in ReadBy(eqs[j]) {
        assert !Reads(eqs[j], y);
      }
    }
  }

  lemma SidesUnread(eq: Equation, y: Symbol)
    requires UnreadBy((y, 0), Node(eq))
    ensures !Reads(eq, y)
  {
  }

  /** A temporary term of an earlier place, or of the equation that evaluates y, does not read y. */
  lemma TermUnread(tables: TermTables, blocks: seq<Block>, model: seq<seq<Equation>>, b: nat, i: nat, y: Symbol, e: Expr)
    requires tables.Valid({}) && tables.Originates(blocks) && e in tables.temporaryTerms
    requires |model| == |blocks| && b < |blocks| && i < |model[b]| && UnreadUpTo(model, b, i, y)
    requires forall c :: 0 <= c <= b ==> Visits(model[c], blocks[c]) && DerivativesRead(model[c], blocks[c])
    requires var p := tables.firstOccurrence[e]; p.0 < b || (p.0 == b && p.1 <= i)
    ensures UnreadBy((y, 0), e)
  {
    var p := tables.firstOccurrence[e];
    assert OccursAt(blocks, e, p);
    hide Operators, UnreadBy, ReadBy, DerivativesRead;
    if e in Operators(Node(model[p.0][p.1])) {
      EquationTermUnread(model, b, i, y, p, e);
    } else {
      var d :| d in blocks[p.0].derivatives && e in Operators(d);
      forall j | 0 <= j < |model[p.0]| ensures !Reads(model[p.0][j], y) {
        if p.0 < b {
          SidesUnread(model[p.0][j], y);
        }
      }
      DerivativeTermUnread(model[p.0], blocks[p.0], y, d, e);
    }
  }

  lemma StoredPlace(tables: TermTables, nodes: seq<Expr>, b: nat, i: nat, e: Expr)
    requires tables.Valid({}) && InNodes(nodes, tables.temporaryTerms)
    requires b < |tables.vTemporaryTerms| && i < |tables.vTemporaryTerms[b]|
    requires e in TermsBefore(tables, b) + Stored(ListsOf(nodes, tables.vTemporaryTerms[b]), i + 1)
    ensures e in tables.temporaryTerms
    ensures var p := tables.firstOccurrence[e]; p.0 < b || (p.0 == b && p.1 <= i)
  {
    hide Stored, ListsOf;
    StoredIs(tables, nodes, b, i + 1, e);
  }

  /** The order of the recursive variables is the one that the code of a block relies on. */
  lemma OrderIsRecursive(tables: TermTables, nodes: seq<Expr>, blocks: seq<Block>, model: seq<seq<Equation>>,
                         slot: map<Expr, nat>, b: nat, order: seq<int>, symOf: int -> Symbol, E: Digraphs.Edges,
                         F: set<int>)
    requires Chosen(tables, nodes, blocks, model, slot) && b < |model| && |tables.vTemporaryTerms[b]| == |model[b]|
    requires Arranged(model[b], order, symOf) && Dependencies(model[b], order, symOf, E)
    requires Digraphs.Distinct(order) && ReorderVariables.PredecessorsFirst(E, F, order)
    requires forall i :: 0 <= i < |order| ==> order[i] !in F && Triangular(model, b, symOf(order[i]))
    requires forall c :: 0 <= c <= b ==> DerivativesRead(model[c], blocks[c])
    ensures RecursiveOrder(model[b], ListsOf(nodes, tables.vTemporaryTerms[b]), TermsBefore(tables, b))
  {
    hide Chosen, Arranged, Dependencies, Stored, ListsOf, TermsBefore, Triangular, UnreadBy;
    ArrangedAt(model[b], order, symOf);
    forall i | 0 <= i < |order| {
      OrderAt(tables, nodes, blocks, model, slot, b, order, symOf, E, F, i);
    }
  }

  lemma ArrangedAt(eqs: seq<Equation>, order: seq<int>, symOf: int -> Symbol)
    requires Arranged(eqs, order, symOf)
    ensures |order| <= |eqs|
    ensures forall i :: 0 <= i < |eqs| && eqs[i].Evaluate? ==> i < |order| && Evaluates(eqs[i], symOf(order[i]))
    ensures forall i, j :: 0 <= j < i < |eqs| && eqs[i].Solve? && eqs[j].Solve? ==> eqs[i].pos != eqs[j].pos
  {
    forall i | 0 <= i < |order| ensures eqs[i].Evaluate? {
      assert Evaluates(eqs[i], symOf(order[i]));
    }
  }

  /** One equation of the recursive order. */
  lemma OrderAt(tables: TermTables, nodes: seq<Expr>, blocks: seq<Block>, model: seq<seq<Equation>>,
                slot: map<Expr, nat>, b: nat, order: seq<int>, symOf: int -> Symbol, E: Digraphs.Edges, F: set<int>,
                i: nat)
    requires Chosen(tables, nodes, blocks, model, slot) && b < |model| && |tables.vTemporaryTerms[b]| == |model[b]|
    requires Arranged(model[b], order, symOf) && Dependencies(model[b], order, symOf, E)
    requires Digraphs.Distinct(order) && ReorderVariables.PredecessorsFirst(E, F, order)
    requires i < |order| && order[i] !in F && Triangular(model, b, symOf(order[i]))
    requires forall c :: 0 <= c <= b ==> DerivativesRead(model[c], blocks[c])
    ensures Evaluates(model[b][i], symOf(order[i]))
    ensures UnreadBy((symOf(order[i]), 0), model[b][i].rhs)
    ensures forall j :: 0 <= j < i ==> UnreadBy((symOf(order[i]), 0), Node(model[b][j]))
    ensures forall e :: e in TermsBefore(tables, b) + Stored(ListsOf(nodes, tables.vTemporaryTerms[b]), i + 1) ==>
              UnreadBy((symOf(order[i]), 0), e)
  {
    hide Stored, ListsOf, TermsBefore, Triangular;
    var y := symOf(order[i]);
    assert Evaluates(model[b][i], y);
    forall j | 0 <= j <= i
      ensures !Reads(model[b][j], y) && (j < i ==> UnreadBy((y, 0), Node(model[b][j])))
    {
      LaterUnread(model[b], order, symOf, E, F, i, j);
    }
    assert !Reads(model[b][i], y);
    TermsUnread(tables, nodes, blocks, model, slot, b, i, y);
  }

  lemma TermsUnread(tables: TermTables, nodes: seq<Expr>, blocks: seq<Block>, model: seq<seq<Equation>>,
                    slot: map<Expr, nat>, b: nat, i: nat, y: Symbol)
    requires Chosen(tables, nodes, blocks, model, slot) && b < |model| && |tables.vTemporaryTerms[b]| == |model[b]|
    requires i < |model[b]| && UnreadUpTo(model, b, i, y)
    requires forall c :: 0 <= c <= b ==> DerivativesRead(model[c], blocks[c])
    ensures forall e :: e in TermsBefore(tables, b) + Stored(ListsOf(nodes, tables.vTemporaryTerms[b]), i + 1) ==>
              UnreadBy((y, 0), e)
  {
    hide Stored, TermsBefore, UnreadUpTo, DerivativesRead, UnreadBy, Visits, PlainBlock, InNodes;
    forall e | e in TermsBefore(tables, b) + Stored(ListsOf(nodes, tables.vTemporaryTerms[b]), i + 1)
      ensures UnreadBy((y, 0), e)
    {
      StoredPlace(tables, nodes, b, i, e);
      TermUnread(tables, blocks, model, b, i, y, e);
    }
  }
}
