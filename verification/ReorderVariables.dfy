/** Ordering of the vertices outside a feedback set so that predecessors come first. */
module ReorderVariables {
  import opened Digraphs
  import opened Sets
  import opened AdjacencyLists
  import opened MinimumFeedbackSet

  function Induced(E: Edges, V: set<int>): Edges {
    set e | e in E && e.0 in V && e.1 in V
  }

  lemma DeleteInduced(E: Edges, V: set<int>, v: int)
    ensures Delete(Induced(E, V), v) == Induced(E, V - {v})
  {
  }

  /** The feedback-free predecessors of every listed vertex are listed before it. */
  ghost predicate PredecessorsFirst(E: Edges, F: set<int>, order: seq<int>) {
    forall j, a :: 0 <= j < |order| && (a, order[j]) in E && a !in F ==> a in order[..j]
  }

  lemma {:induction false} WalkBack(E: Edges, F: set<int>, order: seq<int>, w: seq<int>, j: nat) returns (i: nat)
    requires PredecessorsFirst(E, F, order) && !Meets(w, F)
    requires Walk(E, w) && |w| >= 2 && j < |order| && order[j] == w[|w| - 1]
    ensures i < j && order[i] == w[0]
  {
    var n := |w| - 1;
    var a := w[n - 1];
    assert a in w && (w[n - 1], w[n - 1 + 1]) in E && a !in F;
    i :| 0 <= i < j && order[i] == a;
    if n > 1 {
      forall v | v in w[..n] ensures v !in F { assert v in w; }
      i := WalkBack(E, F, order, w[..n], i);
    }
  }

  lemma {:induction false} OrderedHits(E: Edges, F: set<int>, order: seq<int>, w: seq<int>, j: nat)
    requires PredecessorsFirst(E, F, order) && Cycle(E, w)
    requires j < |order| && order[j] == w[0]
    ensures Meets(w, F)
    decreases j
  {
    if !Meets(w, F) {
      var i := WalkBack(E, F, order, w, j);
      OrderedHits(E, F, order, w, i);
    }
  }

  /** F hits every cycle when everything outside F has been ordered. */
  lemma OrderedComplete(V: set<int>, E: Edges, F: set<int>, order: seq<int>)
    requires Within(E, V) && PredecessorsFirst(E, F, order) && Elements(order) == V - F
    ensures Hits(E, F)
  {
    forall w | Cycle(E, w) ensures Meets(w, F) {
      if w[0] in F {
        assert w[0] in w;
      } else {
        var a, b := w[0], w[1];
        assert (a, b) in E && a in V && a in Elements(order);
        var j :| 0 <= j < |order| && order[j] == a;
        OrderedHits(E, F, order, w, j);
      }
    }
  }

  /** What is left with predecessors everywhere carries a cycle that avoids F. */
  lemma LeftoverCycle(E: Edges, F: set<int>, V: set<int>)
    requires V != {} && V !! F && EveryHasPredecessor(Induced(E, V), V)
    ensures !Hits(E, F)
  {
    var w := PredecessorsCycle(Induced(E, V), V);
    assert Cycle(E, w) && !Meets(w, F);
  }

  lemma {:induction false} MaximumExists(s: set<int>)
    requires s != {}
    ensures exists x :: IsMaximum(s, x)
  {
    var y := Member(s);
    if s - {y} == {} {
      assert s == {y};
      assert IsMaximum(s, y);
    } else {
      MaximumExists(s - {y});
      var z :| IsMaximum(s - {y}, z);
      forall x | x in s ensures x <= if y <= z then z else y {
        assert x == y || x in s - {y};
      }
      assert IsMaximum(s, if y <= z then z else y);
    }
  }

  predicate IsMaximum(s: set<int>, x: int) {
    x in s && forall y :: y in s ==> y <= x
  }

  /** Deletes the vertices at the given positions, largest position first. */
  method SuppressPositions(positions: set<int>, g: Digraph)
    requires g.Valid() && positions <= g.V()
    requires forall k :: 0 <= k < |g.vertices| ==> g.vertices[k] == k
    modifies g
    ensures g.Valid()
    ensures g.V() == old(g.V()) - positions
    ensures g.E() == Induced(old(g.E()), old(g.V()) - positions)
  {
    var rest := positions;
    ghost var V0, E0, bound := g.V(), g.E(), |g.vertices|;
    g.EdgeEnds();
    assert g.E() == Induced(E0, V0 - (positions - rest));
    while rest != {}
      invariant g.Valid() && rest <= positions
      invariant g.V() == V0 - (positions - rest) && g.E() == Induced(E0, V0 - (positions - rest))
      invariant 0 <= bound <= |g.vertices| && forall x :: x in rest ==> 0 <= x < bound
      invariant forall k :: 0 <= k < bound ==> g.vertices[k] == k
      decreases rest
    {
      MaximumExists(rest);
      var x :| IsMaximum(rest, x);
      assert g.vertices[x] == x;
      DeleteInduced(E0, g.V(), x);
      assert V0 - (positions - rest) - {x} == V0 - (positions - (rest - {x}));
      g.Suppress(x);
      rest, bound := rest - {x}, x;
    }
    assert positions - {} == positions;
  }

  /** One scan: moves vertices without predecessor from the graph to the order. */
  method TakeSourcesStep(g: Digraph, order: seq<int>, ghost E0: Edges, ghost F: set<int>)
    returns (done: bool, order': seq<int>)
    requires g.Valid() && g.E() == Induced(E0, g.V()) && Within(E0, g.V() + Elements(order) + F)
    requires Distinct(order) && Elements(order) !! g.V() && PredecessorsFirst(E0, F, order)
    modifies g
    ensures g.Valid() && g.E() == Induced(E0, g.V())
    ensures Distinct(order') && Elements(order') !! g.V() && PredecessorsFirst(E0, F, order')
    ensures g.V() + Elements(order') == old(g.V()) + Elements(order)
    ensures |g.vertices| <= old(|g.vertices|) && (done ==> |g.vertices| < old(|g.vertices|))
    ensures !done ==> EveryHasPredecessor(g.E(), g.V())
  {
    done, order' := false, order;
    var i, pos, previous := 0, 0, 0;
    while pos < |g.vertices|
      invariant g.Valid() && 0 <= i && 0 <= pos && (i > 0 ==> previous == pos - 1 >= 0)
      invariant g.E() == Induced(E0, g.V())
      invariant Distinct(order') && Elements(order') !! g.V() && PredecessorsFirst(E0, F, order')
      invariant g.V() + Elements(order') == old(g.V()) + Elements(order)
      invariant |g.vertices| <= old(|g.vertices|) && (done ==> |g.vertices| < old(|g.vertices|))
      invariant !done ==> pos <= |g.vertices| && forall v :: v in g.vertices[..pos] ==> v in g.ins && g.ins[v] != []
      decreases |g.vertices|, |g.vertices| - pos
    {
      var v := g.vertices[pos];
      assert v in g.V();
      if |g.ins[v]| == 0 {
        TakeSource(g, v, order', E0, F);
        DeleteInduced(E0, g.V(), v);
        order' := order' + [v];
        g.Suppress(pos);
        done := true;
        pos, i := ScanBack(i, previous), if i > 0 then i else -1;
      }
      previous, pos, i := pos, pos + 1, i + 1;
    }
    if !done {
      assert g.vertices[..pos] == g.vertices;
      g.EdgeEnds();
      forall v | v in g.V() ensures HasPredecessor(g.E(), g.V(), v) {
        assert Listed(g.ins, v, g.ins[v][0]);
        var u := g.ins[v][0];
        assert (u, v) in g.E();
      }
    }
  }

  lemma TakeSource(g: Digraph, v: int, order: seq<int>, E0: Edges, F: set<int>)
    requires g.Valid() && g.E() == Induced(E0, g.V()) && Within(E0, g.V() + Elements(order) + F)
    requires Distinct(order) && Elements(order) !! g.V() && PredecessorsFirst(E0, F, order)
    requires v in g.V() && g.ins[v] == []
    ensures Distinct(order + [v]) && PredecessorsFirst(E0, F, order + [v])
    ensures Elements(order + [v]) == Elements(order) + {v}
  {
    var next := order + [v];
    assert v !in Elements(order);
    forall j, a | 0 <= j < |next| && (a, next[j]) in E0 && a !in F ensures a in next[..j] {
      if j < |order| {
        assert next[..j] == order[..j];
      } else {
        assert next[..j] == order && a in g.V() + Elements(order) + F;
        g.EdgeEnds();
        assert (a, v) in g.E() <==> Listed(g.ins, v, a);
      }
    }
  }

  /** Orders the vertices outside the feedback set. `complete` is false exactly when the error
      message of the source would be printed. */
  method ReorderRecursiveVariables(g1: Digraph, feedback: set<int>) returns (order: seq<int>, complete: bool)
    requires g1.Valid() && feedback <= g1.V()
    requires forall k :: 0 <= k < |g1.vertices| ==> g1.vertices[k] == k
    ensures Distinct(order) && Elements(order) <= g1.V() - feedback
    ensures PredecessorsFirst(g1.E(), feedback, order)
    ensures complete <==> Elements(order) == g1.V() - feedback
    ensures complete <==> Hits(g1.E(), feedback)
  {
    var g := new Digraph.Copy(g1);
    g1.EdgeEnds();
    SuppressPositions(feedback, g);
    order := [];
    ghost var E0 := g1.E();
    var somethingDone := true;
    while somethingDone
      invariant fresh(g) && g.Valid() && g.E() == Induced(E0, g.V())
      invariant Distinct(order) && Elements(order) !! g.V() && PredecessorsFirst(E0, feedback, order)
      invariant g.V() + Elements(order) == g1.V() - feedback
      invariant !somethingDone ==> EveryHasPredecessor(g.E(), g.V())
      decreases |g.vertices|, somethingDone
    {
      assert g.V() + Elements(order) + feedback == g1.V();
      somethingDone, order := TakeSourcesStep(g, order, E0, feedback);
    }
    complete := |g.vertices| == 0;
    if complete {
      assert Elements(order) == g1.V() - feedback;
      OrderedComplete(g1.V(), E0, feedback, order);
    } else {
      assert g.vertices[0] in g.V();
      LeftoverCycle(E0, feedback, g.V());
    }
  }

  // ----- regrouping by dynamic type

  /** The dynamic type of a variable with its largest lag and lead in the block: static, backward, mixed, forward. */
  function DynamicType(lagLead: (int, int)): nat {
    if lagLead.0 == 0 && lagLead.1 == 0 then 0
    else if lagLead.0 != 0 && lagLead.1 == 0 then 1
    else if lagLead.0 != 0 then 2
    else 3
  }

  /** The members of a list of one type, in their order. */
  function OfType(order: seq<int>, lagLead: int -> (int, int), j: nat): seq<int> {
    if order == [] then []
    else
      var v := order[|order| - 1];
      OfType(order[..|order| - 1], lagLead, j) + if DynamicType(lagLead(v)) == j then [v] else []
  }

  /** The list regrouped by type, for the first n types. */
  function Regrouped(order: seq<int>, lagLead: int -> (int, int), n: nat): seq<int> {
    if n == 0 then [] else Regrouped(order, lagLead, n - 1) + OfType(order, lagLead, n - 1)
  }

  /** The loops over the types and over the recursive variables of a block. */
  method Regroup(order: seq<int>, lagLead: int -> (int, int)) returns (regrouped: seq<int>)
    ensures regrouped == Regrouped(order, lagLead, 4)
  {
    regrouped := [];
    for j := 0 to 4
      invariant regrouped == Regrouped(order, lagLead, j)
    {
      for i := 0 to |order|
        invariant regrouped == Regrouped(order, lagLead, j) + OfType(order[..i], lagLead, j)
      {
        assert order[..i + 1][..i] == order[..i];
        if DynamicType(lagLead(order[i])) == j {
          regrouped := regrouped + [order[i]];
        }
      }
      assert order[..|order|] == order;
    }
  }

  /** a stands before b in the list. */
  ghost predicate Precedes(s: seq<int>, a: int, b: int) {
    exists i, k :: 0 <= i < k < |s| && s[i] == a && s[k] == b
  }

  lemma PrecedesAppend(s: seq<int>, t: seq<int>, a: int, b: int)
    ensures Precedes(s + t, a, b) <==> Precedes(s, a, b) || Precedes(t, a, b) || (a in s && b in t)
  {
    var both := s + t;
    if Precedes(both, a, b) {
      var i, k :| 0 <= i < k < |both| && both[i] == a && both[k] == b;
      if i >= |s| {
        assert t[i - |s|] == a && t[k - |s|] == b;
      } else if k >= |s| {
        assert s[i] == a && t[k - |s|] == b;
      }
    }
    if Precedes(s, a, b) {
      var i, k :| 0 <= i < k < |s| && s[i] == a && s[k] == b;
      assert both[i] == a && both[k] == b;
    }
    if Precedes(t, a, b) {
      var i, k :| 0 <= i < k < |t| && t[i] == a && t[k] == b;
      assert both[|s| + i] == a && both[|s| + k] == b;
    }
    if a in s && b in t {
      var i :| 0 <= i < |s| && s[i] == a;
      var k :| 0 <= k < |t| && t[k] == b;
      assert both[i] == a && both[|s| + k] == b;
    }
  }

  lemma {:induction false} OfTypeMembers(order: seq<int>, lagLead: int -> (int, int), j: nat, a: int)
    ensures a in OfType(order, lagLead, j) <==> a in order && DynamicType(lagLead(a)) == j
  {
    hide DynamicType;
    if order != [] {
      OfTypeMembers(order[..|order| - 1], lagLead, j, a);
      assert order == order[..|order| - 1] + [order[|order| - 1]];
    }
  }

  lemma {:induction false} OfTypePrecedes(order: seq<int>, lagLead: int -> (int, int), j: nat, a: int, b: int)
    ensures Precedes(OfType(order, lagLead, j), a, b)
            <==> DynamicType(lagLead(a)) == j && DynamicType(lagLead(b)) == j && Precedes(order, a, b)
  {
    hide Precedes, DynamicType;
    if order == [] {
      NothingPrecedes(a, b);
    } else {
      var init, v := order[..|order| - 1], order[|order| - 1];
      assert order == init + [v];
      OfTypePrecedes(init, lagLead, j, a, b);
      PrecedesAppend(init, [v], a, b);
      OnePrecedes(v, a, b);
      PrecedesAppend(OfType(init, lagLead, j), if DynamicType(lagLead(v)) == j then [v] else [], a, b);
      NothingPrecedes(a, b);
      OfTypeMembers(init, lagLead, j, a);
    }
  }

  lemma NothingPrecedes(a: int, b: int)
    ensures !Precedes([], a, b)
  {
  }

  lemma OnePrecedes(v: int, a: int, b: int)
    ensures !Precedes([v], a, b)
  {
  }

  lemma {:induction false} RegroupedMembers(order: seq<int>, lagLead: int -> (int, int), n: nat, a: int)
    ensures a in Regrouped(order, lagLead, n) <==> a in order && DynamicType(lagLead(a)) < n
    decreases n
  {
    hide DynamicType, OfType;
    if n > 0 {
      RegroupedMembers(order, lagLead, n - 1, a);
      OfTypeMembers(order, lagLead, n - 1, a);
    }
  }

  lemma {:induction false} RegroupedPrecedes(order: seq<int>, lagLead: int -> (int, int), n: nat, a: int, b: int)
    ensures Precedes(Regrouped(order, lagLead, n), a, b)
            <==> && a in order && b in order && DynamicType(lagLead(b)) < n
                 && (DynamicType(lagLead(a)) < DynamicType(lagLead(b))
                     || (DynamicType(lagLead(a)) == DynamicType(lagLead(b)) && Precedes(order, a, b)))
    decreases n
  {
    hide DynamicType, OfType, Precedes;
    PrecedesMembers(order, a, b);
    if n == 0 {
      NothingPrecedes(a, b);
    } else {
      RegroupedPrecedes(order, lagLead, n - 1, a, b);
      OfTypePrecedes(order, lagLead, n - 1, a, b);
      OfTypeMembers(order, lagLead, n - 1, b);
      RegroupedMembers(order, lagLead, n - 1, a);
      PrecedesAppend(Regrouped(order, lagLead, n - 1), OfType(order, lagLead, n - 1), a, b);
    }
  }

  lemma PrecedesMembers(s: seq<int>, a: int, b: int)
    ensures Precedes(s, a, b) ==> a in s && b in s
  {
  }

  /** In a list without repetition, predecessors come first when they precede. */
  lemma FirstIsPrecedes(E: Edges, F: set<int>, s: seq<int>)
    requires Distinct(s)
    ensures PredecessorsFirst(E, F, s) <==> forall a, b :: (a, b) in E && a !in F && b in s ==> Precedes(s, a, b)
  {
    if PredecessorsFirst(E, F, s) {
      forall a, b | (a, b) in E && a !in F && b in s ensures Precedes(s, a, b) {
        var k :| 0 <= k < |s| && s[k] == b;
        var i :| 0 <= i < k && s[i] == a;
      }
    }
    if forall a, b :: (a, b) in E && a !in F && b in s ==> Precedes(s, a, b) {
      forall j, a | 0 <= j < |s| && (a, s[j]) in E && a !in F ensures a in s[..j] {
        assert Precedes(s, a, s[j]);
        var i, k :| 0 <= i < k < |s| && s[i] == a && s[k] == s[j];
        assert s[..j][i] == a;
      }
    }
  }

  lemma DistinctIsPrecedes(s: seq<int>)
    ensures Distinct(s) <==> forall a :: !Precedes(s, a, a)
  {
    if !Distinct(s) {
      var i, j :| 0 <= i < j < |s| && s[i] == s[j];
      assert Precedes(s, s[i], s[i]);
    }
  }

  /** No edge between ordered vertices leads to a smaller type. */
  ghost predicate TypesAscend(E: Edges, F: set<int>, order: seq<int>, lagLead: int -> (int, int)) {
    forall a, b :: (a, b) in E && a !in F && b in order ==> DynamicType(lagLead(a)) <= DynamicType(lagLead(b))
  }

  /** Regrouping keeps the vertices; it keeps predecessors first if and only if no edge leads to a smaller type. */
  lemma RegroupingKeeps(E: Edges, F: set<int>, order: seq<int>, lagLead: int -> (int, int))
    requires Distinct(order) && PredecessorsFirst(E, F, order)
    ensures var r := Regrouped(order, lagLead, 4);
            && Distinct(r) && Elements(r) == Elements(order)
            && (PredecessorsFirst(E, F, r) <==> TypesAscend(E, F, order, lagLead))
  {
    var r := Regrouped(order, lagLead, 4);
    DistinctIsPrecedes(order);
    forall a, b
      ensures a in r <==> a in order
      ensures Precedes(r, a, b)
              <==> && a in order && b in order
                   && (DynamicType(lagLead(a)) < DynamicType(lagLead(b))
                       || (DynamicType(lagLead(a)) == DynamicType(lagLead(b)) && Precedes(order, a, b)))
    {
      RegroupedMembers(order, lagLead, 4, a);
      RegroupedPrecedes(order, lagLead, 4, a, b);
    }
    hide Precedes, DynamicType, Regrouped;
    DistinctIsPrecedes(r);
    FirstIsPrecedes(E, F, order);
    FirstIsPrecedes(E, F, r);
    hide PredecessorsFirst, Distinct;
    forall a, b | (a, b) in E && a !in F && b in order ensures a in order && Precedes(order, a, b) {
      PrecedesMembers(order, a, b);
    }
    if TypesAscend(E, F, order, lagLead) {
      forall a, b | (a, b) in E && a !in F && b in r ensures Precedes(r, a, b) {
      }
    }
  }

  /** With the vertices of dynamic variables forced into the feedback set by loops, only static ones are ordered. */
  lemma ForcedAscend(V: set<int>, E: Edges, F: set<int>, order: seq<int>, lagLead: int -> (int, int))
    requires Within(E, V) && Hits(E, F) && Elements(order) <= V - F
    requires forall v :: v in V && DynamicType(lagLead(v)) != 0 ==> (v, v) in E
    ensures TypesAscend(E, F, order, lagLead)
  {
    forall v | v in V && (v, v) in E ensures v in F {
      assert Cycle(E, [v, v]);
      assert Meets([v, v], F);
    }
  }

  /** The composed computation of a block: a feedback set, and a complete list of the other vertices, regrouped by type. The
      list has predecessors first if and only if no edge leads to a smaller type; it has if dynamic variables loop. */
  method FeedbackAndOrder(g: Digraph, lagLead: int -> (int, int)) returns (feedback: set<int>, order: seq<int>)
    requires g.Valid()
    requires forall k :: 0 <= k < |g.vertices| ==> g.vertices[k] == k
    ensures IsFvs(g.V(), g.E(), feedback)
    ensures Distinct(order) && Elements(order) == g.V() - feedback
    ensures PredecessorsFirst(g.E(), feedback, order) <==> TypesAscend(g.E(), feedback, order, lagLead)
    ensures (forall v :: v in g.V() && DynamicType(lagLead(v)) != 0 ==> (v, v) in g.E()) ==>
              PredecessorsFirst(g.E(), feedback, order)
  {
    hide PredecessorsFirst, TypesAscend, DynamicType, Regrouped, Hits, Distinct;
    var reduced, complete;
    ghost var run;
    feedback, reduced, run := MinimalSetOfFeedbackVertices(g);
    var sorted;
    sorted, complete := ReorderRecursiveVariables(g, feedback);
    RegroupingKeeps(g.E(), feedback, sorted, lagLead);
    order := Regroup(sorted, lagLead);
    SameElements(g.E(), feedback, sorted, order, lagLead);
    g.EdgeEnds();
    if forall v :: v in g.V() && DynamicType(lagLead(v)) != 0 ==> (v, v) in g.E() {
      ForcedAscend(g.V(), g.E(), feedback, order, lagLead);
    }
  }

  lemma SameElements(E: Edges, F: set<int>, order: seq<int>, other: seq<int>, lagLead: int -> (int, int))
    requires Elements(order) == Elements(other)
    ensures TypesAscend(E, F, order, lagLead) <==> TypesAscend(E, F, other, lagLead)
  {
    assert forall b :: b in order <==> b in Elements(order);
    assert forall b :: b in other <==> b in Elements(other);
  }
}
