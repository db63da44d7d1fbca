/** The shared node tables behind the constructors: every expression is represented by exactly one node. */
module DataTrees {
  import opened Results
  import opened Expressions
  import opened Constructors
  import opened TimeShifts
  import opened Derivatives

  /** A node with the indices of its arguments; it is also the key under which the tables find it. */
  datatype Node =
    | ConstNode(v: real)
    | NaNNode
    | VarNode(sym: Symbol, lag: int)
    | UnNode(op: UnaryOp, arg: nat)
    | BinNode(bop: BinaryOp, left: nat, right: nat)

  predicate ArgumentsBefore(n: Node, i: nat) {
    match n
    case UnNode(_, a) => a < i
    case BinNode(_, a, b) => a < i && b < i
    case _ => true
  }

  predicate Acyclic(nodes: seq<Node>) {
    forall i :: 0 <= i < |nodes| ==> ArgumentsBefore(nodes[i], i)
  }

  /** The expression that a node stands for. */
  function Unfold(nodes: seq<Node>, i: nat): Expr
    requires i < |nodes| && Acyclic(nodes)
    decreases i
  {
    match nodes[i]
    case ConstNode(v) => Const(v)
    case NaNNode => NotANumber
    case VarNode(s, lag) => Var(s, lag)
    case UnNode(op, a) => Un(op, Unfold(nodes, a))
    case BinNode(op, a, b) => Bin(op, Unfold(nodes, a), Unfold(nodes, b))
  }

  /** The expression that a new node with these arguments would stand for. */
  function Meaning(nodes: seq<Node>, n: Node): Expr
    requires Acyclic(nodes) && ArgumentsBefore(n, |nodes|)
  {
    match n
    case ConstNode(v) => Const(v)
    case NaNNode => NotANumber
    case VarNode(s, lag) => Var(s, lag)
    case UnNode(op, a) => Un(op, Unfold(nodes, a))
    case BinNode(op, a, b) => Bin(op, Unfold(nodes, a), Unfold(nodes, b))
  }

  predicate Distinct(nodes: seq<Node>) {
    forall i, j :: 0 <= i < j < |nodes| ==> nodes[i] != nodes[j]
  }

  /** The arguments that the constructor of an operator passes on to the node tables. */
  predicate Guarded(op: BinaryOp, l: Expr, r: Expr) {
    match op
    case Plus => l != Zero && r != Zero && !(IsUminus(l) && IsUminus(r))
    case Minus => l != Zero && r != Zero && l != r
    case Times => l !in {Zero, One, MinusOne} && r !in {Zero, One, MinusOne}
    case Divide => l != Zero && r != Zero && r != One && l != r
    case Power => l != Zero && l != One && r != Zero && r != One
    case _ => true
  }

  /** No constructor leaves an expression that it would have simplified. */
  predicate Reduced(e: Expr) {
    match e
    case Const(v) => v >= 0.0
    case Un(op, arg) => if op == Uminus then arg != Zero && !IsUminus(arg) && (Closed(arg) ==> arg.Const? || arg.NotANumber?)
                        else !Closed(arg)
    case Bin(op, l, r) => !Closed(e) && Guarded(op, l, r)
    case _ => true
  }

  /** The arguments of a commutative operator are in the order of their indices. */
  predicate InOrder(n: Node) {
    n.BinNode? && Commutes(n.bop) ==> n.left <= n.right
  }

  ghost predicate AllReduced(nodes: seq<Node>)
    requires Acyclic(nodes)
  {
    forall i :: 0 <= i < |nodes| ==> Reduced(Unfold(nodes, i)) && InOrder(nodes[i])
  }

  /** The order in which a tree sorts the arguments of + and * is the order of its node indices. */
  ghost predicate Agrees(nodes: seq<Node>, c: Tree)
    requires Acyclic(nodes)
  {
    forall i, j :: 0 <= i < |nodes| && 0 <= j < |nodes| ==>
      (c.later(Unfold(nodes, i), Unfold(nodes, j)) <==> i > j)
  }

  /** Every node is what the constructor of its operator makes of its arguments. */
  lemma {:induction false} NodeBuilt(nodes: seq<Node>, c: Tree, i: nat)
    requires Acyclic(nodes) && Distinct(nodes) && AllReduced(nodes) && Agrees(nodes, c) && i < |nodes|
    ensures Built(c, Unfold(nodes, i))
    decreases i
  {
    assert Reduced(Unfold(nodes, i)) && InOrder(nodes[i]);
    match nodes[i]
    case UnNode(op, a) =>
      NodeBuilt(nodes, c, a);
      FunctionMade(c, op, Unfold(nodes, a));
    case BinNode(op, a, b) =>
      NodeBuilt(nodes, c, a);
      NodeBuilt(nodes, c, b);
      OperatorMade(c, op, Unfold(nodes, a), Unfold(nodes, b));
    case _ =>
  }

  lemma FunctionMade(c: Tree, op: UnaryOp, a: Expr)
    requires Reduced(Un(op, a))
    ensures AddFunction(c, op, a) == Ok(Un(op, a))
  {
  }

  lemma OperatorMade(c: Tree, op: BinaryOp, l: Expr, r: Expr)
    requires Reduced(Bin(op, l, r))
    requires Commutes(op) ==> !c.later(l, r) && (l != r ==> c.later(r, l))
    ensures AddOperator(c, op, l, r) == Ok(Bin(op, l, r))
            || (Commutes(op) && AddOperator(c, op, r, l) == Ok(Bin(op, l, r)))
  {
  }

  /** Nodes with different keys stand for different expressions. */
  lemma {:induction false} UnfoldInjective(nodes: seq<Node>, i: nat, j: nat)
    requires Acyclic(nodes) && Distinct(nodes) && i < |nodes| && j < |nodes|
    requires Unfold(nodes, i) == Unfold(nodes, j)
    ensures i == j
    decreases i
  {
    match nodes[i]
    case UnNode(_, a) => UnfoldInjective(nodes, a, nodes[j].arg);
    case BinNode(_, a, b) =>
      UnfoldInjective(nodes, a, nodes[j].left);
      UnfoldInjective(nodes, b, nodes[j].right);
    case _ =>
  }

  /** New nodes do not change what the old ones stand for. */
  lemma {:induction false} UnfoldGrows(nodes: seq<Node>, more: seq<Node>, i: nat)
    requires Acyclic(nodes) && Acyclic(more) && nodes <= more && i < |nodes|
    ensures Unfold(more, i) == Unfold(nodes, i)
    decreases i
  {
    match nodes[i]
    case UnNode(_, a) => UnfoldGrows(nodes, more, a);
    case BinNode(_, a, b) =>
      UnfoldGrows(nodes, more, a);
      UnfoldGrows(nodes, more, b);
    case _ =>
  }

  lemma AgreesEarlier(nodes: seq<Node>, more: seq<Node>, c: Tree)
    requires Acyclic(nodes) && Acyclic(more) && nodes <= more && Agrees(more, c)
    ensures Agrees(nodes, c)
  {
    forall i, j | 0 <= i < |nodes| && 0 <= j < |nodes|
      ensures c.later(Unfold(nodes, i), Unfold(nodes, j)) <==> i > j
    {
      UnfoldGrows(nodes, more, i);
      UnfoldGrows(nodes, more, j);
    }
  }

  /** The index order is one that the constructors may assume: strict and total on the nodes. */
  lemma IndexOrder(nodes: seq<Node>, c: Tree, i: nat, j: nat)
    requires Acyclic(nodes) && Distinct(nodes) && Agrees(nodes, c) && i < |nodes| && j < |nodes|
    ensures c.later(Unfold(nodes, i), Unfold(nodes, j)) || c.later(Unfold(nodes, j), Unfold(nodes, i))
            || Unfold(nodes, i) == Unfold(nodes, j)
    ensures !(c.later(Unfold(nodes, i), Unfold(nodes, j)) && c.later(Unfold(nodes, j), Unfold(nodes, i)))
  {
  }

  lemma SortedSymmetric(nodes: seq<Node>, c: Tree, op: BinaryOp, i: nat, j: nat)
    requires Acyclic(nodes) && Distinct(nodes) && Agrees(nodes, c) && i < |nodes| && j < |nodes|
    ensures AddSorted(c, op, Unfold(nodes, i), Unfold(nodes, j)) == AddSorted(c, op, Unfold(nodes, j), Unfold(nodes, i))
  {
    IndexOrder(nodes, c, i, j);
  }

  /** A product does not depend on the order of its factors. */
  lemma TimesCommutes(nodes: seq<Node>, c: Tree, i: nat, j: nat)
    requires Acyclic(nodes) && Distinct(nodes) && Agrees(nodes, c) && i < |nodes| && j < |nodes|
    ensures AddTimes(c, Unfold(nodes, i), Unfold(nodes, j)) == AddTimes(c, Unfold(nodes, j), Unfold(nodes, i))
  {
    SortedSymmetric(nodes, c, Times, i, j);
  }

  /** not-a-number and its negation */
  predicate NaNPair(a: Expr, b: Expr) {
    (a == NotANumber && b == Un(Uminus, NotANumber)) || (b == NotANumber && a == Un(Uminus, NotANumber))
  }

  /** A sum may depend on the order of its terms: x + (-y) is turned into a difference before the terms are sorted,
      (-y) + x is not. It does not depend on the order exactly when the terms are the same, one of them is 0, none is a
      negation, or both are constants, other than NaN and its negation. */
  lemma PlusCommutes(nodes: seq<Node>, c: Tree, i: nat, j: nat)
    requires Acyclic(nodes) && Distinct(nodes) && AllReduced(nodes) && Agrees(nodes, c) && i < |nodes| && j < |nodes|
    ensures var a, b := Unfold(nodes, i), Unfold(nodes, j);
            AddPlus(c, a, b) == AddPlus(c, b, a)
            <==> a == b || a == Zero || b == Zero || (!IsUminus(a) && !IsUminus(b))
                 || (Closed(a) && Closed(b) && !NaNPair(a, b))
  {
    SortedSymmetric(nodes, c, Plus, i, j);
    var a, b := Unfold(nodes, i), Unfold(nodes, j);
    SumShape(c, a, b);
    SumShape(c, b, a);
    if Closed(a) && Closed(b) && a != Zero && b != Zero {
      ConstantSum(c, a, b);
      ConstantSum(c, b, a);
    }
  }

  /** The two shapes of a sum of which a term is not a constant. */
  lemma SumShape(c: Tree, a: Expr, b: Expr)
    requires Reduced(a) && Reduced(b)
    ensures a != Zero && b != Zero && !(Closed(a) && Closed(b)) && IsUminus(b) ==>
              AddPlus(c, a, b) == (if b.arg == Zero then a else if a == b.arg then Zero else Bin(Minus, a, b.arg))
    ensures a != Zero && b != Zero && !(Closed(a) && Closed(b)) && !IsUminus(b) ==>
              AddPlus(c, a, b).Bin? && AddPlus(c, a, b).bop == Plus
  {
  }

  /** A sum of constants is the constant of the sum, but for NaN and its negation. */
  lemma ConstantSum(c: Tree, a: Expr, b: Expr)
    requires Reduced(a) && Reduced(b) && Closed(a) && Closed(b) && a != Zero && b != Zero
    ensures var v := Value(c.m, Bin(Plus, a, b), Nowhere, 0);
            AddPlus(c, a, b) == if a == NotANumber && b == Un(Uminus, NotANumber) then Zero
                                else AddPossiblyNegativeConstant(v)
  {
  }

  /** A tree of which the order does not matter. */
  function Any(m: Functions): Tree {
    Tree(m, (a, b) => false)
  }

  /** The tree that sorts by the indices of these nodes. */
  ghost function TreeOf(m: Functions, nodes: seq<Node>): Tree
    requires Acyclic(nodes)
  {
    Tree(m, (a, b) => exists i, j :: 0 <= j < i < |nodes| && Unfold(nodes, i) == a && Unfold(nodes, j) == b)
  }

  lemma TreeOfAgrees(m: Functions, nodes: seq<Node>)
    requires Acyclic(nodes) && Distinct(nodes)
    ensures Agrees(nodes, TreeOf(m, nodes))
  {
    var c := TreeOf(m, nodes);
    forall i, j | 0 <= i < |nodes| && 0 <= j < |nodes|
      ensures c.later(Unfold(nodes, i), Unfold(nodes, j)) <==> i > j
    {
      if c.later(Unfold(nodes, i), Unfold(nodes, j)) {
        var k, l :| 0 <= l < k < |nodes| && Unfold(nodes, k) == Unfold(nodes, i) && Unfold(nodes, l) == Unfold(nodes, j);
        UnfoldInjective(nodes, k, i);
        UnfoldInjective(nodes, l, j);
      }
    }
  }

  /** In the nodes after a call, r stands for the product of two nodes from before it. */
  ghost predicate Product(m: Functions, nodes: seq<Node>, more: seq<Node>, a: nat, b: nat, r: nat)
    requires Acyclic(nodes) && Acyclic(more) && a < |nodes| && b < |nodes|
  {
    r < |more| && forall c: Tree :: c.m == m && Agrees(nodes, c) ==>
      Unfold(more, r) == AddTimes(c, Unfold(nodes, a), Unfold(nodes, b))
  }

  /** Two products of the same nodes, asked for in either order and with any calls between, are one node. */
  lemma SameProduct(m: Functions, nodes0: seq<Node>, nodes1: seq<Node>, nodes2: seq<Node>, nodes3: seq<Node>,
                    a: nat, b: nat, r: nat, s: nat)
    requires Acyclic(nodes0) && Acyclic(nodes1) && Acyclic(nodes2) && Acyclic(nodes3) && Distinct(nodes3)
    requires nodes0 <= nodes1 && nodes1 <= nodes2 && nodes2 <= nodes3 && a < |nodes0| && b < |nodes0|
    requires Product(m, nodes0, nodes1, a, b, r) && Product(m, nodes2, nodes3, b, a, s)
    ensures r == s
  {
    var c := TreeOf(m, nodes3);
    TreeOfAgrees(m, nodes3);
    AgreesEarlier(nodes2, nodes3, c);
    AgreesEarlier(nodes0, nodes3, c);
    TimesCommutes(nodes3, c, a, b);
    hide TreeOf, Agrees, AddTimes;
    UnfoldGrows(nodes0, nodes3, a);
    UnfoldGrows(nodes0, nodes3, b);
    UnfoldGrows(nodes2, nodes3, a);
    UnfoldGrows(nodes2, nodes3, b);
    UnfoldGrows(nodes1, nodes3, r);
    UnfoldInjective(nodes3, r, s);
  }

  predicate NonNegative(e: Expr) {
    match e
    case Const(v) => v >= 0.0
    case Un(_, arg) => NonNegative(arg)
    case Bin(_, l, r) => NonNegative(l) && NonNegative(r)
    case _ => true
  }

  /** A copied expression has the value of the original wherever that is defined, which is exactly where both it and the
      dropped operations are defined; the copy ends the program only if the original is defined nowhere. */
  ghost predicate Copies(m: Functions, e: Expr, r: Outcome<Expr>, drops: seq<Expr>) {
    forall p, t :: CopiesAt(m, e, r, drops, p, t)
  }

  predicate CopiesAt(m: Functions, e: Expr, r: Outcome<Expr>, drops: seq<Expr>, p: Path, t: int) {
    match r
    case Ok(d) => Value(m, e, p, t) == if AllDefined(m, drops, p, t) then Value(m, d, p, t) else None
    case Exit => Value(m, e, p, t) == None
  }

  /** What a copy returned for an expression, for every tree that sorts by the indices of the nodes. */
  ghost predicate Copied(m: Functions, nodes: seq<Node>, e: Expr, r: Outcome<nat>)
    requires Acyclic(nodes)
  {
    && (r.Ok? ==> r.value < |nodes|)
    && (forall c: Tree :: c.m == m && Agrees(nodes, c) ==>
          DecreaseLeadsLags(c, e, 0) == if r.Ok? then Ok(Unfold(nodes, r.value)) else Exit)
  }

  /** What was copied earlier stays copied. */
  lemma StaysCopied(m: Functions, nodes: seq<Node>, more: seq<Node>, e: Expr, r: Outcome<nat>)
    requires Acyclic(nodes) && Acyclic(more) && nodes <= more && Copied(m, nodes, e, r)
    ensures Copied(m, more, e, r)
  {
    if r.Ok? {
      UnfoldGrows(nodes, more, r.value);
    }
    forall c: Tree | c.m == m && Agrees(more, c) ensures Agrees(nodes, c) {
      AgreesEarlier(nodes, more, c);
    }
  }

  /** What a copy drops are the operations that the constructors drop on the way. */
  lemma CopiedValue(m: Functions, nodes: seq<Node>, e: Expr, r: Outcome<nat>)
    requires Acyclic(nodes) && Distinct(nodes) && Copied(m, nodes, e, r) && Laws(m)
    ensures Copies(m, e, if r.Ok? then Ok(Unfold(nodes, r.value)) else Exit, ShiftDrops(TreeOf(m, nodes), e, 0))
  {
    hide DecreaseLeadsLags, ShiftDrops, AllDefined;
    TreeOfAgrees(m, nodes);
    var d, drops := if r.Ok? then Ok(Unfold(nodes, r.value)) else Exit, ShiftDrops(TreeOf(m, nodes), e, 0);
    forall p: Path, t: int ensures CopiesAt(m, e, d, drops, p, t) {
      ShiftValue(TreeOf(m, nodes), e, 0, p, t);
      assert t - 0 == t;
    }
  }

  /** The copy of an operation ends the program where that of an argument does. */
  lemma ExitCopied(m: Functions, nodes: seq<Node>, op: BinaryOp, l: Expr, right: Expr, a: Outcome<nat>)
    requires Acyclic(nodes) && Copied(m, nodes, l, a)
    ensures a.Exit? ==> Copied(m, nodes, Bin(op, l, right), Exit)
    ensures a.Ok? && Copied(m, nodes, right, Exit) ==> Copied(m, nodes, Bin(op, l, right), Exit)
  {
    hide Agrees, Constructors.AddOperator;
  }

  lemma AnyTreeFunction(m: Functions, op: UnaryOp, a: Expr)
    ensures forall c: Tree :: c.m == m ==> Constructors.AddFunction(c, op, a) == Constructors.AddFunction(Any(m), op, a)
  {
  }

  lemma AnyTree(m: Functions, op: BinaryOp, a: Expr, b: Expr)
    ensures op != Plus && op != Times ==>
              forall c: Tree :: c.m == m ==> Constructors.AddOperator(c, op, a, b) == Constructors.AddOperator(Any(m), op, a, b)
  {
  }

  /** One more node, under a key that is not taken. */
  lemma OneMore(nodes: seq<Node>, n: Node)
    requires Acyclic(nodes) && Distinct(nodes) && AllReduced(nodes)
    requires n !in nodes && ArgumentsBefore(n, |nodes|) && InOrder(n) && Reduced(Meaning(nodes, n))
    ensures Acyclic(nodes + [n]) && Distinct(nodes + [n]) && AllReduced(nodes + [n])
    ensures Unfold(nodes + [n], |nodes|) == Meaning(nodes, n)
    ensures forall i :: 0 <= i < |nodes| ==> Unfold(nodes + [n], i) == Unfold(nodes, i)
  {
    assert Acyclic(nodes + [n]);
    forall i | 0 <= i < |nodes| ensures Unfold(nodes + [n], i) == Unfold(nodes, i) {
      UnfoldGrows(nodes, nodes + [n], i);
    }
  }

  const BASIC_NODES := [ConstNode(0.0), ConstNode(1.0), ConstNode(2.0), UnNode(Uminus, 1), NaNNode,
                        ConstNode(3.141592653589793)]

  lemma BasicNodes()
    ensures Acyclic(BASIC_NODES) && Distinct(BASIC_NODES) && AllReduced(BASIC_NODES)
  {
    var nodes := BASIC_NODES;
    assert Acyclic(nodes);
    assert Unfold(nodes, 1) == One;
    assert Unfold(nodes, 3) == MinusOne && Reduced(MinusOne);
    forall i | 0 <= i < |nodes| ensures Reduced(Unfold(nodes, i)) && InOrder(nodes[i]) {
      assert i == 3 || nodes[i].ConstNode? || nodes[i].NaNNode?;
    }
  }

  class DataTree {
    const m: Functions
    /** The nodes in order of creation; the index of a node is its position. */
    var nodes: seq<Node>
    var numConstNodeMap: map<Option<real>, nat>
    var variableNodeMap: map<(Symbol, int), nat>
    var unaryOpNodeMap: map<(UnaryOp, nat), nat>
    var binaryOpNodeMap: map<(BinaryOp, nat, nat), nat>
    var zero: nat
    var one: nat
    var minusOne: nat
    var nan: nat

    /** What the table of its kind knows about a node. */
    function Find(n: Node): Option<nat>
      reads `numConstNodeMap, `variableNodeMap, `unaryOpNodeMap, `binaryOpNodeMap
    {
      match n
      case ConstNode(v) => if Some(v) in numConstNodeMap then Some(numConstNodeMap[Some(v)]) else None
      case NaNNode => if None in numConstNodeMap then Some(numConstNodeMap[None]) else None
      case VarNode(s, lag) => if (s, lag) in variableNodeMap then Some(variableNodeMap[(s, lag)]) else None
      case UnNode(op, a) => if (op, a) in unaryOpNodeMap then Some(unaryOpNodeMap[(op, a)]) else None
      case BinNode(op, a, b) => if (op, a, b) in binaryOpNodeMap then Some(binaryOpNodeMap[(op, a, b)]) else None
    }

    /** The tables hold exactly the nodes of the list, each under its own key. */
    ghost predicate Indexed()
      reads this
    {
      && (forall i :: 0 <= i < |nodes| ==> Find(nodes[i]) == Some(i))
      && (forall n :: Find(n).Some? ==> Find(n).value < |nodes| && nodes[Find(n).value] == n)
    }

    ghost predicate Valid()
      reads this
    {
      && Indexed() && Acyclic(nodes) && Distinct(nodes) && AllReduced(nodes)
      && zero < |nodes| && nodes[zero] == ConstNode(0.0)
      && one < |nodes| && nodes[one] == ConstNode(1.0)
      && minusOne < |nodes| && nodes[minusOne] == UnNode(Uminus, one)
      && nan < |nodes| && nodes[nan] == NaNNode
    }

    function At(i: nat): Expr
      requires i < |nodes| && Acyclic(nodes)
      reads this
    {
      Unfold(nodes, i)
    }

    constructor (m: Functions)
      ensures Valid() && this.m == m && nodes == BASIC_NODES
    {
      this.m := m;
      nodes := BASIC_NODES;
      numConstNodeMap := map[Some(0.0) := 0, Some(1.0) := 1, Some(2.0) := 2, None := 4, Some(3.141592653589793) := 5];
      variableNodeMap := map[];
      unaryOpNodeMap := map[(Uminus, 1) := 3];
      binaryOpNodeMap := map[];
      zero, one, minusOne, nan := 0, 1, 3, 4;
      new;
      hide AllReduced, Distinct, Acyclic;
      forall n | Find(n).Some? ensures Find(n).value < |nodes| && nodes[Find(n).value] == n {
        assert n.ConstNode? || n.NaNNode? || n == UnNode(Uminus, 1);
      }
      BasicNodes();
    }

    /** What every call leaves: the old nodes stay, and either nothing was added or the result is the last new node. */
    twostate predicate Extends(r: nat)
      reads this
    {
      && old(nodes) <= nodes && r < |nodes|
      && old(zero) == zero && old(one) == one && old(minusOne) == minusOne && old(nan) == nan
      && (if r < |old(nodes)| then nodes == old(nodes) else r == |nodes| - 1)
    }

    /** The result stands for the expression that the constructor computes on what the arguments stand for. */
    twostate predicate Gives(r: nat, e: Expr)
      requires old(Valid()) && Valid()
      reads this
    {
      Extends(r) && At(r) == e
    }

    lemma Same(i: nat, j: nat)
      requires Valid() && i < |nodes| && j < |nodes|
      ensures At(i) == At(j) <==> i == j
    {
      if At(i) == At(j) {
        UnfoldInjective(nodes, i, j);
      }
    }

    /** The basic nodes are recognized by their index. */
    lemma Basic(i: nat)
      requires Valid() && i < |nodes|
      ensures At(i) == Zero <==> i == zero
      ensures At(i) == One <==> i == one
      ensures At(i) == MinusOne <==> i == minusOne
    {
      Same(i, zero);
      Same(i, one);
      Same(i, minusOne);
    }

    /** A node enters the table of its kind. */
    method Enter(n: Node, r: nat)
      modifies `numConstNodeMap, `variableNodeMap, `unaryOpNodeMap, `binaryOpNodeMap
      ensures forall k :: Find(k) == if k == n then Some(r) else old(Find(k))
    {
      match n {
        case ConstNode(v) => numConstNodeMap := numConstNodeMap[Some(v) := r];
        case NaNNode => numConstNodeMap := numConstNodeMap[None := r];
        case VarNode(s, lag) => variableNodeMap := variableNodeMap[(s, lag) := r];
        case UnNode(op, a) => unaryOpNodeMap := unaryOpNodeMap[(op, a) := r];
        case BinNode(op, a, b) => binaryOpNodeMap := binaryOpNodeMap[(op, a, b) := r];
      }
    }

    /** A new node: it gets the next index and enters the table of its kind. */
    method AddNode(n: Node) returns (r: nat)
      requires Valid() && Find(n) == None && ArgumentsBefore(n, |nodes|)
      requires Reduced(Meaning(nodes, n)) && InOrder(n)
      modifies this
      ensures Valid() && old(nodes) <= nodes && r == |old(nodes)| && nodes == old(nodes) + [n]
      ensures At(r) == Meaning(old(nodes), n) && Extends(r)
    {
      hide Reduced, AllReduced, Distinct, InOrder, Unfold, Meaning;
      OneMore(nodes, n);
      r := |nodes|;
      nodes := nodes + [n];
      Enter(n, r);
    }

    method AddNonNegativeConstant(v: real) returns (r: nat)
      requires Valid() && v >= 0.0
      modifies this
      ensures Valid() && Gives(r, Const(v))
    {
      var found := Find(ConstNode(v));
      if found.Some? {
        return found.value;
      }
      r := AddNode(ConstNode(v));
    }

    method AddVariable(s: Symbol, lag: int) returns (r: nat)
      requires Valid()
      modifies this
      ensures Valid() && Gives(r, Var(s, lag))
    {
      var found := Find(VarNode(s, lag));
      if found.Some? {
        return found.value;
      }
      r := AddNode(VarNode(s, lag));
    }

    /** How deep the constructors call each other: a negative constant is built as the negation of a constant. */
    function Depth(op: UnaryOp, a: nat): nat
      requires a < |nodes|
      reads this
    {
      if op == Uminus && nodes[a].ConstNode? then 0 else 3
    }

    method AddPossiblyNegativeConstant(v: Option<real>) returns (r: nat)
      requires Valid()
      modifies this
      ensures Valid() && Gives(r, Constructors.AddPossiblyNegativeConstant(v))
      decreases 2
    {
      hide Indexed, Distinct, AllReduced, Reduced, Guarded;
      if v.None? {
        return nan;
      }
      var x := if v.value < 0.0 then -v.value else v.value;
      r := AddNonNegativeConstant(x);
      if v.value < 0.0 {
        Basic(r);
        var constant := r;
        r := AddUMinus(constant);
        Same(nodes[r].arg, constant);
      }
    }

    method AddUMinus(a: nat) returns (r: nat)
      requires Valid() && a < |nodes|
      modifies this
      ensures Valid() && Gives(r, Constructors.AddUMinus(Any(m), old(At(a))))
      decreases if nodes[a].ConstNode? then 1 else 4
    {
      Basic(a);
      if a == zero {
        return zero;
      }
      if nodes[a].UnNode? && nodes[a].op == Uminus {
        return nodes[a].arg;
      }
      r := AddUnaryOp(Uminus, a);
    }

    method AddUnaryOp(op: UnaryOp, a: nat) returns (r: nat)
      requires Valid() && a < |nodes| && (op == Uminus ==> At(a) != Zero && !IsUminus(At(a)))
      modifies this
      ensures Valid() && Gives(r, Constructors.AddUnaryOp(Any(m), op, old(At(a))))
      decreases Depth(op, a)
    {
      var found := Find(UnNode(op, a));
      if found.Some? {
        assert Reduced(At(found.value));
        return found.value;
      }
      if !(op == Uminus && (nodes[a].ConstNode? || nodes[a].NaNNode?)) && Closed(At(a)) {
        r := AddPossiblyNegativeConstant(Value(m, Un(op, At(a)), Nowhere, 0));
      } else {
        r := AddNode(UnNode(op, a));
      }
    }

    method AddBinaryOp(op: BinaryOp, a: nat, b: nat) returns (r: nat)
      requires Valid() && a < |nodes| && b < |nodes| && Guarded(op, At(a), At(b)) && (Commutes(op) ==> a <= b)
      modifies this
      ensures Valid() && Gives(r, Constructors.AddBinaryOp(Any(m), op, old(At(a)), old(At(b))))
    {
      var found := Find(BinNode(op, a, b));
      if found.Some? {
        assert Reduced(At(found.value));
        return found.value;
      }
      var e := Bin(op, At(a), At(b));
      if Closed(e) {
        r := AddPossiblyNegativeConstant(Value(m, e, Nowhere, 0));
      } else {
        r := AddNode(BinNode(op, a, b));
      }
    }

    method AddMinus(a: nat, b: nat) returns (r: nat)
      requires Valid() && a < |nodes| && b < |nodes|
      modifies this
      ensures Valid() && Gives(r, Constructors.AddMinus(Any(m), old(At(a)), old(At(b))))
    {
      Basic(a);
      Basic(b);
      Same(a, b);
      if b == zero {
        r := a;
      } else if a == zero {
        r := AddUMinus(b);
      } else if a == b {
        r := zero;
      } else {
        r := AddBinaryOp(Minus, a, b);
      }
    }

    /** The arguments of a commutative operator are sorted by index. */
    method AddSorted(op: BinaryOp, a: nat, b: nat) returns (r: nat)
      requires Valid() && a < |nodes| && b < |nodes| && Commutes(op) && Guarded(op, At(a), At(b))
      modifies this
      ensures Valid() && Extends(r)
      ensures forall c: Tree :: c.m == m && Agrees(old(nodes), c) ==>
        At(r) == Constructors.AddSorted(c, op, old(At(a)), old(At(b)))
    {
      if a > b {
        r := AddBinaryOp(op, b, a);
      } else {
        r := AddBinaryOp(op, a, b);
      }
    }

    method AddPlus(a: nat, b: nat) returns (r: nat)
      requires Valid() && a < |nodes| && b < |nodes|
      modifies this
      ensures Valid() && Extends(r)
      ensures forall c: Tree :: c.m == m && Agrees(old(nodes), c) ==>
        At(r) == Constructors.AddPlus(c, old(At(a)), old(At(b)))
    {
      hide Indexed, Distinct, AllReduced, Reduced;
      Basic(a);
      Basic(b);
      if a != zero && b != zero {
        if nodes[b].UnNode? && nodes[b].op == Uminus {
          r := AddMinus(a, nodes[b].arg);
        } else {
          r := AddSorted(Plus, a, b);
        }
      } else if a != zero {
        r := a;
      } else if b != zero {
        r := b;
      } else {
        r := zero;
      }
    }

    method AddTimes(a: nat, b: nat) returns (r: nat)
      requires Valid() && a < |nodes| && b < |nodes|
      modifies this
      ensures Valid() && Extends(r) && Product(m, old(nodes), nodes, a, b, r)
    {
      hide Indexed, Distinct, AllReduced, Reduced;
      Basic(a);
      Basic(b);
      if a == minusOne {
        r := AddUMinus(b);
      } else if b == minusOne {
        r := AddUMinus(a);
      } else if a != zero && a != one && b != zero && b != one {
        r := AddSorted(Times, a, b);
      } else if a != zero && a != one && b == one {
        r := a;
      } else if b != zero && b != one && a == one {
        r := b;
      } else if b == one && a == one {
        r := one;
      } else {
        r := zero;
      }
    }

    /** Division by the node 0 ends the program. */
    method AddDivide(a: nat, b: nat) returns (r: Outcome<nat>)
      requires Valid() && a < |nodes| && b < |nodes|
      modifies this
      ensures Valid()
      ensures match Constructors.AddDivide(Any(m), old(At(a)), old(At(b)))
              case Ok(e) => r.Ok? && Gives(r.value, e)
              case Exit => r.Exit? && nodes == old(nodes)
    {
      Basic(a);
      Basic(b);
      Same(a, b);
      if b == one {
        r := Ok(a);
      } else if b == zero {
        r := Exit;
      } else if a == zero {
        r := Ok(zero);
      } else if a == b {
        r := Ok(one);
      } else {
        var q := AddBinaryOp(Divide, a, b);
        r := Ok(q);
      }
    }

    method AddPower(a: nat, b: nat) returns (r: nat)
      requires Valid() && a < |nodes| && b < |nodes|
      modifies this
      ensures Valid() && Gives(r, Constructors.AddPower(Any(m), old(At(a)), old(At(b))))
    {
      Basic(a);
      Basic(b);
      if a != zero && b != zero && a != one && b != one {
        r := AddBinaryOp(Power, a, b);
      } else if a == one {
        r := one;
      } else if b == one {
        r := a;
      } else if b == zero {
        r := one;
      } else {
        r := zero;
      }
    }

    /** The constructor of a unary operator. */
    method AddFunction(op: UnaryOp, a: nat) returns (r: Outcome<nat>)
      requires Valid() && a < |nodes|
      modifies this
      ensures Valid()
      ensures match Constructors.AddFunction(Any(m), op, old(At(a)))
              case Ok(e) => r.Ok? && Gives(r.value, e)
              case Exit => r.Exit? && nodes == old(nodes)
    {
      hide Indexed, Distinct, AllReduced, Unfold, Constructors.AddUMinus, Constructors.AddUnaryOp;
      Basic(a);
      Basic(zero);
      Basic(one);
      if op == Uminus {
        var n := AddUMinus(a);
        r := Ok(n);
      } else if (op == Log || op == Log10) && a == zero {
        r := Exit;
      } else if (op == Abs || op == Sign) && a == one {
        r := Ok(one);
      } else if a == if SpecialArgument(op).value.0 == Zero then zero else one {
        r := Ok(if SpecialArgument(op).value.1 == Zero then zero else one);
      } else {
        var n := AddUnaryOp(op, a);
        r := Ok(n);
      }
    }

    /** The operators of which the arguments are not sorted and the constructor always returns. */
    method AddUnsorted(op: BinaryOp, a: nat, b: nat) returns (r: nat)
      requires Valid() && a < |nodes| && b < |nodes| && op != Plus && op != Times && op != Divide
      modifies this
      ensures Valid() && Extends(r)
      ensures Constructors.AddOperator(Any(m), op, old(At(a)), old(At(b))) == Ok(At(r))
    {
      if op == Minus {
        r := AddMinus(a, b);
      } else if op == Power {
        r := AddPower(a, b);
      } else {
        r := AddBinaryOp(op, a, b);
      }
    }

    /** The constructor of a binary operator. */
    method AddOperator(op: BinaryOp, a: nat, b: nat) returns (r: Outcome<nat>)
      requires Valid() && a < |nodes| && b < |nodes|
      modifies this
      ensures Valid() && (if r.Ok? then Extends(r.value) else nodes == old(nodes))
      ensures forall c: Tree :: c.m == m && Agrees(old(nodes), c) ==>
        Constructors.AddOperator(c, op, old(At(a)), old(At(b))) == if r.Ok? then Ok(At(r.value)) else Exit
    {
      hide Indexed, Distinct, AllReduced, Unfold, Constructors.AddPlus, Constructors.AddTimes, Constructors.AddDivide,
           Constructors.AddMinus, Constructors.AddPower, Constructors.AddBinaryOp;
      ghost var x, y := At(a), At(b);
      AnyTree(m, op, x, y);
      if op == Divide {
        r := AddDivide(a, b);
      } else if op == Plus {
        var n := AddPlus(a, b);
        r := Ok(n);
      } else if op == Times {
        var n := AddTimes(a, b);
        r := Ok(n);
      } else {
        var n := AddUnsorted(op, a, b);
        r := Ok(n);
      }
    }

    /** The expression of a node of another tree is built up again in this one. */
    method CloneDynamic(e: Expr) returns (r: Outcome<nat>)
      requires Valid() && NonNegative(e)
      modifies this
      ensures Valid() && old(nodes) <= nodes && Copied(m, nodes, e, r)
      ensures Laws(m) ==> Copies(m, e, if r.Ok? then Ok(At(r.value)) else Exit, ShiftDrops(TreeOf(m, nodes), e, 0))
      decreases e
    {
      match e {
        case Const(v) =>
          var n := AddNonNegativeConstant(v);
          r := Ok(n);
        case NotANumber => r := Ok(nan);
        case Var(s, lag) =>
          var n := AddVariable(s, lag);
          r := Ok(n);
        case Un(op, arg) =>
          var a := CloneDynamic(arg);
          r := CloneUnary(op, arg, a);
        case Bin(op, l, right) =>
          r := CloneBinary(op, l, right);
      }
      if Laws(m) {
        CopiedValue(m, nodes, e, r);
      }
    }

    method CloneUnary(op: UnaryOp, arg: Expr, a: Outcome<nat>) returns (r: Outcome<nat>)
      requires Valid() && Copied(m, nodes, arg, a)
      modifies this
      ensures Valid() && old(nodes) <= nodes && Copied(m, nodes, Un(op, arg), r)
    {
      hide Indexed, Distinct, AllReduced, Unfold, Constructors.AddFunction;
      if a.Exit? {
        return Exit;
      }
      AnyTreeFunction(m, op, At(a.value));
      r := AddFunction(op, a.value);
      StaysCopied(m, old(nodes), nodes, arg, a);
      forall c: Tree | c.m == m && Agrees(nodes, c) ensures Agrees(old(nodes), c) {
        AgreesEarlier(old(nodes), nodes, c);
      }
    }

    method CloneBinary(op: BinaryOp, l: Expr, right: Expr) returns (r: Outcome<nat>)
      requires Valid() && NonNegative(l) && NonNegative(right)
      modifies this
      ensures Valid() && old(nodes) <= nodes && Copied(m, nodes, Bin(op, l, right), r)
      decreases Bin(op, l, right), 0
    {
      hide *;
      var a := CloneDynamic(l);
      ExitCopied(m, nodes, op, l, right, a);
      if a.Exit? {
        return Exit;
      }
      ghost var first := nodes;
      var b := CloneDynamic(right);
      StaysCopied(m, first, nodes, l, a);
      ExitCopied(m, nodes, op, l, right, a);
      if b.Exit? {
        return Exit;
      }
      r := CloneNode(op, l, right, a.value, b.value);
    }

    method CloneNode(op: BinaryOp, l: Expr, right: Expr, a: nat, b: nat) returns (r: Outcome<nat>)
      requires Valid() && Copied(m, nodes, l, Ok(a)) && Copied(m, nodes, right, Ok(b))
      modifies this
      ensures Valid() && old(nodes) <= nodes && Copied(m, nodes, Bin(op, l, right), r)
    {
      hide Indexed, Distinct, AllReduced, Unfold, Constructors.AddOperator;
      r := AddOperator(op, a, b);
      StaysCopied(m, old(nodes), nodes, l, Ok(a));
      StaysCopied(m, old(nodes), nodes, right, Ok(b));
      forall c: Tree | c.m == m && Agrees(nodes, c) ensures Agrees(old(nodes), c) {
        AgreesEarlier(old(nodes), nodes, c);
      }
    }
  }
}
