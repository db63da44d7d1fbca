/** Feedback vertex sets by graph reduction, and the ordering of the remaining vertices. */
module MinimumFeedbackSet {
  import opened Digraphs
  import opened AdjacencyLists
  import opened CycleSearch
  import opened FeedbackTraces

  /** Position from which the scan goes on (before stepping over it) after the vertex at `pos` has
      been deleted: back to the previous vertex, or, when i = 0, to the new first vertex, which the
      step then skips. */
  function ScanBack(i: int, previous: int): int {
    if i > 0 then previous else 0
  }

  /** The steps lead from the graph G0 to the graph that g holds now. */
  ghost predicate Ran(G0: Graph, simple: bool, steps: seq<Step>, g: Digraph)
    requires g.Valid()
    reads g
  {
    Legal(G0, steps, simple) && Final(G0, steps) == g.G() && (simple ==> g.Simple())
  }

  lemma RanNothing(g: Digraph, simple: bool)
    requires g.Valid() && (simple ==> g.Simple())
    ensures Ran(g.G(), simple, [], g)
  {
  }

  /** In the graph after one more step, that step has been added to the run. */
  lemma RanMore(G0: Graph, simple: bool, steps: seq<Step>, s: Step, g: Digraph)
    requires g.Valid() && Ran(G0, simple, steps, g) && Allowed(g.G(), s, simple)
    ensures Legal(G0, steps + [s], simple) && Final(G0, steps + [s]) == After(g.G(), s)
    ensures Taken(steps + [s]) == Taken(steps) + if s.Rule3? || s.Cut? then {s.v} else {}
  {
    OneMore(G0, steps, s, simple);
  }

  /** The runs of two passes, one after the other. */
  lemma RanBoth(G0: Graph, G1: Graph, simple: bool, a: seq<Step>, b: seq<Step>, g: Digraph)
    requires g.Valid() && Legal(G0, a, simple) && Final(G0, a) == G1 && Ran(G1, simple, b, g)
    ensures Ran(G0, simple, a + b, g) && Taken(a + b) == Taken(a) + Taken(b)
    ensures Cost(G0, a + b) == Cost(G0, a) + Cost(G1, b)
  {
    RunsJoin(G0, a, b, simple);
  }

  lemma {:induction false} ElementsSize(s: seq<int>)
    ensures |Elements(s)| <= |s|
  {
    if s != [] {
      ElementsSize(s[1..]);
      assert Elements(s) == {s[0]} + Elements(s[1..]);
    }
  }

  /** The lists of a vertex hold its predecessors and its successors, each once if there are no parallel edges. */
  lemma ListSizes(g: Digraph, v: int)
    requires g.Valid() && v in g.V()
    ensures Preds(g.E(), v) == Elements(g.ins[v]) && Succs(g.E(), v) == Elements(g.outs[v])
    ensures |Preds(g.E(), v)| <= |g.ins[v]| && |Succs(g.E(), v)| <= |g.outs[v]|
    ensures g.Simple() ==> |Preds(g.E(), v)| == |g.ins[v]| && |Succs(g.E(), v)| == |g.outs[v]|
  {
    g.NeighbourLists(v);
    PredsAre(g.E(), v);
    forall x ensures x in Preds(g.E(), v) <==> x in Elements(g.ins[v]) {
    }
    forall x ensures x in Succs(g.E(), v) <==> x in Elements(g.outs[v]) {
    }
    ElementsSize(g.ins[v]);
    ElementsSize(g.outs[v]);
    if g.Simple() {
      DistinctSize(g.ins[v]);
      DistinctSize(g.outs[v]);
    }
  }

  // ----- rule 1

  ghost predicate LowDegree(g: Digraph, v: int)
    requires g.Valid() && v in g.V()
    reads g
  {
    (|g.ins[v]| <= 1 || |g.outs[v]| <= 1) && v !in g.ins[v]
  }

  lemma LowDegreeAllowed(g: Digraph, v: int, simple: bool)
    requires g.Valid() && v in g.V() && LowDegree(g, v)
    ensures Allowed(g.G(), Rule1(v), simple)
  {
    ListSizes(g, v);
    g.NeighbourLists(v);
  }

  /** The in-line test of rule 1: low degree, and no in-edge is a loop. */
  method IsLowDegree(g: Digraph, v: int) returns (eligible: bool)
    requires g.Valid() && v in g.V()
    ensures eligible <==> LowDegree(g, v)
  {
    var inDegree, outDegree := |g.ins[v]|, |g.outs[v]|;
    eligible := inDegree <= 1 || outDegree <= 1;
    if eligible {
      NoLoopWithoutEdges(g, v);
      if inDegree >= 1 && outDegree >= 1 {
        for k := 0 to inDegree
          invariant eligible <==> v !in g.ins[v][..k]
        {
          if g.ins[v][k] == v {
            eligible := false;
          }
        }
      }
    }
  }

  /** Rule 1: eliminates the vertices with in- or out-degree at most one that do not loop. */
  method EliminateLowDegreeStep(g: Digraph, ghost simple: bool) returns (done: bool, ghost steps: seq<Step>)
    requires g.Valid() && (simple ==> g.Simple())
    modifies g
    ensures g.Valid() && Ran(old(g.G()), simple, steps, g)
    ensures forall s :: s in steps ==> s.Rule1?
    ensures |steps| == old(|g.vertices|) - |g.vertices| && (done <==> steps != [])
    ensures Reduces(old(g.V()), old(g.E()), g.V(), g.E(), {}, 0)
    ensures !done ==> unchanged(g) && forall v :: v in g.V() ==> !LowDegree(g, v)
  {
    hide Legal, Final, Allowed, Reduces, Contract, Delete, EdgesOf, Mirrored, Taken, Cost, Within;
    ghost var G0 := g.G();
    RanNothing(g, simple);
    g.EdgeEnds();
    done, steps := false, [];
    var i, pos, previous := 0, 0, 0;
    while pos < |g.vertices|
      invariant g.Valid() && 0 <= i && 0 <= pos && (i > 0 ==> previous == pos - 1 >= 0)
      invariant Ran(G0, simple, steps, g) && forall s :: s in steps ==> s.Rule1?
      invariant |steps| == old(|g.vertices|) - |g.vertices| && (done <==> steps != [])
      invariant !done ==> unchanged(g) && pos <= |g.vertices|
      invariant !done ==> forall v :: v in g.vertices[..pos] ==> v in g.V() && !LowDegree(g, v)
      decreases |g.vertices|, |g.vertices| - pos
    {
      var v := g.vertices[pos];
      assert v in g.V();
      var eligible := IsLowDegree(g, v);
      if eligible {
        LowDegreeAllowed(g, v, simple);
        RanMore(G0, simple, steps, Rule1(v), g);
        g.Eliminate(pos);
        done, steps := true, steps + [Rule1(v)];
        pos, i := ScanBack(i, previous), if i > 0 then i else -1;
      }
      previous, pos, i := pos, pos + 1, i + 1;
    }
    assert !done ==> g.vertices[..pos] == g.vertices;
    RunCosts(G0, simple, steps, g);
  }

  /** What a run of contractions loses. */
  lemma RunCosts(G0: Graph, simple: bool, steps: seq<Step>, g: Digraph)
    requires g.Valid() && Within(G0.E, G0.V) && Ran(G0, simple, steps, g)
    ensures Reduces(G0.V, G0.E, g.V(), g.E(), Taken(steps), Cost(G0, steps))
    ensures (forall s :: s in steps ==> s.Rule1? || s.Rule3?) ==> Cost(G0, steps) == 0
    ensures (forall s :: s in steps ==> s.Rule2?) ==> Cost(G0, steps) <= |steps|
    ensures (forall s :: s in steps ==> s.Rule1? || s.Rule2?) ==> Taken(steps) == {}
  {
    RunReduces(G0, steps, simple);
    CostOfRules(G0, steps);
  }

  lemma NoLoopWithoutEdges(g: Digraph, v: int)
    requires g.Valid() && v in g.V()
    ensures v in g.ins[v] ==> |g.ins[v]| >= 1 && |g.outs[v]| >= 1
  {
    assert Listed(g.ins, v, v) <==> Listed(g.outs, v, v);
  }

  // ----- rule 2

  /** The test of the clique rule: the in-list equals the out-list, holds no loop, and all its members
      but the first are pairwise joined in both directions. */
  ghost predicate CliqueTest(E: Edges, v: int, sources: seq<int>, targets: seq<int>) {
    && sources == targets
    && v !in sources
    && forall i, j :: 1 <= i < j < |sources| ==> Linked(E, sources[i], sources[j])
  }

  ghost predicate Linked(E: Edges, a: int, b: int) {
    (a, b) in E && (b, a) in E
  }

  /** Without parallel edges the test accepts a vertex exactly when its two lists are equal, it does not loop, and its
      predecessors, the first listed one left out, are a clique. */
  lemma CliqueTestDecides(g: Digraph, v: int)
    requires g.Valid() && v in g.V() && g.Simple()
    ensures CliqueTest(g.E(), v, g.ins[v], g.outs[v])
            <==> g.ins[v] == g.outs[v] && (v, v) !in g.E()
                 && (g.ins[v] == [] || Clique(g.E(), Preds(g.E(), v) - {g.ins[v][0]}))
  {
    ListSizes(g, v);
    g.NeighbourLists(v);
    PredsAre(g.E(), v);
    if g.ins[v] != [] {
      PairsClique(g.E(), Preds(g.E(), v), g.ins[v]);
    }
  }

  lemma PairsClique(E: Edges, N: set<int>, s: seq<int>)
    requires N == Elements(s) && Distinct(s) && s != []
    ensures Clique(E, N - {s[0]}) <==> forall i, j :: 1 <= i < j < |s| ==> Linked(E, s[i], s[j])
  {
    var K := N - {s[0]};
    if forall i, j :: 1 <= i < j < |s| ==> Linked(E, s[i], s[j]) {
      forall a, b | a in K && b in K && a != b ensures (a, b) in E {
        var i :| 0 <= i < |s| && s[i] == a;
        var j :| 0 <= j < |s| && s[j] == b;
        assert Linked(E, s[if i < j then i else j], s[if i < j then j else i]);
      }
    }
    if Clique(E, K) {
      forall i, j | 1 <= i < j < |s| ensures Linked(E, s[i], s[j]) {
        assert s[0] != s[i] && s[0] != s[j] && s[i] != s[j];
        assert s[i] in K && s[j] in K;
      }
    }
  }

  method BelongsToClique(g: Digraph, v: int) returns (agree: bool)
    requires g.Valid() && v in g.V()
    ensures agree <==> CliqueTest(g.E(), v, g.ins[v], g.outs[v])
    ensures g.Simple() ==>
              (agree <==> g.ins[v] == g.outs[v] && (v, v) !in g.E()
                          && (g.ins[v] == [] || Clique(g.E(), Preds(g.E(), v) - {g.ins[v][0]})))
  {
    if g.Simple() {
      CliqueTestDecides(g, v);
    }
    agree := TestClique(g, v);
  }

  /** The comparison of the lists, and of the pairs from the second neighbour on. */
  method TestClique(g: Digraph, v: int) returns (agree: bool)
    requires g.Valid() && v in g.V()
    ensures agree <==> CliqueTest(g.E(), v, g.ins[v], g.outs[v])
  {
    g.EdgeEnds();
    var sources, targets := g.ins[v], g.outs[v];
    agree := true;
    var n := 0;
    while n < |sources| && n < |targets| && agree
      invariant 0 <= n <= |sources| && n <= |targets|
      invariant agree <==> sources[..n] == targets[..n] && v !in sources[..n]
    {
      agree := sources[n] == targets[n] && sources[n] != v;
      n := n + 1;
    }
    if agree {
      assert sources[..n] == targets[..n];
      if n < |sources| || n < |targets| {
        agree := false;
      }
      var i := 1;
      while i < n && agree
        invariant 1 <= i
        invariant agree ==> sources == targets && v !in sources && n == |sources|
        invariant agree ==> forall k, j :: 1 <= k < i && k < j < n ==> Linked(g.E(), sources[k], sources[j])
        invariant !agree ==> !CliqueTest(g.E(), v, sources, targets)
      {
        var j := i + 1;
        while j < n && agree
          invariant i < j
          invariant agree ==> forall k :: i < k < j && k < n ==> Linked(g.E(), sources[i], sources[k])
          invariant !agree ==> !CliqueTest(g.E(), v, sources, targets)
        {
          assert Listed(g.ins, v, sources[i]) && Listed(g.ins, v, sources[j]);
          agree := sources[j] in g.outs[sources[i]] && sources[i] in g.outs[sources[j]];
          j := j + 1;
        }
        i := i + 1;
      }
    }
  }

  /** The test accepts only vertices of which all neighbours but the first listed one are a clique. */
  lemma CliqueTestAllowed(g: Digraph, v: int, simple: bool)
    requires g.Valid() && v in g.V() && CliqueTest(g.E(), v, g.ins[v], g.outs[v])
    ensures Allowed(g.G(), Rule2(v), simple)
  {
    ListSizes(g, v);
    g.NeighbourLists(v);
    var N, s := Preds(g.E(), v), g.ins[v];
    var first := if s == [] then v else s[0];
    forall a, b | a in N - {first} && b in N - {first} && a != b ensures (a, b) in g.E() {
      var i :| 0 <= i < |s| && s[i] == a;
      var j :| 0 <= j < |s| && s[j] == b;
      assert Linked(g.E(), s[if i < j then i else j], s[if i < j then j else i]);
    }
    assert Clique(g.E(), N - {first});
  }

  /** Where the test accepts, the neighbours are a clique if and only if the first listed one is joined both ways
      with every other: rule 2 is then lossless. */
  lemma CliqueTestExact(E: Edges, v: int, s: seq<int>)
    requires CliqueTest(E, v, s, s)
    ensures Clique(E, Elements(s)) <==> forall j :: 1 <= j < |s| && s[j] != s[0] ==> Linked(E, s[0], s[j])
  {
    var K := Elements(s);
    if forall j :: 1 <= j < |s| && s[j] != s[0] ==> Linked(E, s[0], s[j]) {
      forall a, b | a in K && b in K && a != b ensures (a, b) in E {
        var i :| 0 <= i < |s| && s[i] == a;
        var j :| 0 <= j < |s| && s[j] == b;
        assert Linked(E, s[if i < j then i else j], s[if i < j then j else i]);
      }
    }
  }

  /** The first listed neighbour is not compared with the others, so the rule can lose a vertex:
      on two leaves joined both ways to vertex 0, one vertex suffices before and two are needed after. */
  lemma CliqueRuleCanLose()
    ensures var E := {(0, 1), (1, 0), (0, 2), (2, 0)};
            && CliqueTest(E, 0, [1, 2], [1, 2])
            && MinFvs({0, 1, 2}, E, 1)
            && MinFvs({1, 2}, Contract(E, 0), 2)
  {
    var E := {(0, 1), (1, 0), (0, 2), (2, 0)};
    StarBefore(E);
    StarAfter(E);
  }

  lemma StarBefore(E: Edges)
    requires E == {(0, 1), (1, 0), (0, 2), (2, 0)}
    ensures MinFvs({0, 1, 2}, E, 1)
  {
    forall w | Cycle(E, w) ensures Meets(w, {0}) {
      assert (w[0], w[1]) in E;
      assert w[0] in w && w[1] in w;
    }
    assert IsFvs({0, 1, 2}, E, {0}) && |{0}| == 1;
    forall F | IsFvs({0, 1, 2}, E, F) ensures 1 <= |F| {
      HitsPair(E, F, 0, 1);
    }
  }

  lemma StarAfter(E: Edges)
    requires E == {(0, 1), (1, 0), (0, 2), (2, 0)}
    ensures MinFvs({1, 2}, Contract(E, 0), 2)
  {
    var E1 := Contract(E, 0);
    forall v | v in {1, 2} ensures (v, v) in E1 {
      InContract(E, 0, v, v);
    }
    forall w | Cycle(E1, w) ensures Meets(w, {1, 2}) {
      assert (w[0], w[1]) in E1 && w[0] in w;
      InContract(E, 0, w[0], w[1]);
    }
    assert IsFvs({1, 2}, E1, {1, 2}) && |{1, 2}| == 2;
    forall F | IsFvs({1, 2}, E1, F) ensures 2 <= |F| {
      HitsPair(E1, F, 1, 1);
      HitsPair(E1, F, 2, 2);
      SubsetSize({1, 2}, F);
    }
  }

  /** Rule 2: eliminates the vertices that pass the clique test. An elimination loses at most one vertex, and none if the
      neighbours were a clique. */
  method EliminateCliqueStep(g: Digraph, ghost simple: bool) returns (done: bool, ghost steps: seq<Step>)
    requires g.Valid() && (simple ==> g.Simple())
    modifies g
    ensures g.Valid() && Ran(old(g.G()), simple, steps, g)
    ensures forall s :: s in steps ==> s.Rule2?
    ensures |steps| == old(|g.vertices|) - |g.vertices| && (done <==> steps != [])
    ensures Reduces(old(g.V()), old(g.E()), g.V(), g.E(), {}, Cost(old(g.G()), steps))
    ensures Cost(old(g.G()), steps) <= |steps|
    ensures !done ==> unchanged(g) && forall v :: v in g.V() ==> !CliqueTest(g.E(), v, g.ins[v], g.outs[v])
  {
    hide Legal, Final, Allowed, Reduces, Contract, Delete, EdgesOf, Taken, CliqueTest, Cost, Within;
    ghost var G0 := g.G();
    RanNothing(g, simple);
    g.EdgeEnds();
    done, steps := false, [];
    var i, pos, previous := 0, 0, 0;
    while pos < |g.vertices|
      invariant g.Valid() && 0 <= i && 0 <= pos && (i > 0 ==> previous == pos - 1 >= 0)
      invariant Ran(G0, simple, steps, g) && forall s :: s in steps ==> s.Rule2?
      invariant |steps| == old(|g.vertices|) - |g.vertices| && (done <==> steps != [])
      invariant !done ==> unchanged(g) && pos <= |g.vertices|
      invariant !done ==> forall v :: v in g.vertices[..pos] ==> v in g.V() && !CliqueTest(g.E(), v, g.ins[v], g.outs[v])
      decreases |g.vertices|, |g.vertices| - pos
    {
      var v := g.vertices[pos];
      assert v in g.V();
      var agree := BelongsToClique(g, v);
      if agree {
        CliqueTestAllowed(g, v, simple);
        RanMore(G0, simple, steps, Rule2(v), g);
        g.Eliminate(pos);
        done, steps := true, steps + [Rule2(v)];
        pos, i := ScanBack(i, previous), if i > 0 then i else -1;
      }
      previous, pos, i := pos, pos + 1, i + 1;
    }
    assert !done ==> g.vertices[..pos] == g.vertices;
    RunCosts(G0, simple, steps, g);
  }

  // ----- rule 3

  ghost predicate LoopFree(outs: Neighbours, vs: seq<int>) {
    forall v :: v in vs ==> !Listed(outs, v, v)
  }

  method Loops(g: Digraph, v: int) returns (loops: bool)
    requires g.Valid() && v in g.V()
    ensures loops <==> Listed(g.outs, v, v)
  {
    loops := v in g.outs[v];
  }

  /** Rule 3: stores and deletes the vertices that loop on themselves. */
  method SuppressLoopsStep(feedback: set<int>, g: Digraph, ghost simple: bool)
    returns (done: bool, feedback': set<int>, ghost steps: seq<Step>)
    requires g.Valid() && (simple ==> g.Simple())
    modifies g
    ensures g.Valid() && Ran(old(g.G()), simple, steps, g)
    ensures forall s :: s in steps ==> s.Rule3?
    ensures |steps| == old(|g.vertices|) - |g.vertices| && (done <==> steps != [])
    ensures feedback' == feedback + Taken(steps)
    ensures Reduces(old(g.V()), old(g.E()), g.V(), g.E(), Taken(steps), 0)
    ensures !done ==> unchanged(g) && LoopFree(g.outs, g.vertices)
  {
    hide Legal, Final, Allowed, Reduces, Contract, Delete, EdgesOf, Mirrored, Cost, Within;
    ghost var G0 := g.G();
    RanNothing(g, simple);
    g.EdgeEnds();
    done, feedback', steps := false, feedback, [];
    UnionEmpty(feedback);
    var i, pos, previous := 0, 0, 0;
    while pos < |g.vertices|
      invariant g.Valid() && 0 <= i && 0 <= pos && (i > 0 ==> previous == pos - 1 >= 0)
      invariant Ran(G0, simple, steps, g) && forall s :: s in steps ==> s.Rule3?
      invariant |steps| == old(|g.vertices|) - |g.vertices| && (done <==> steps != [])
      invariant IsUnion(feedback', feedback, Taken(steps))
      invariant !done ==> unchanged(g) && pos <= |g.vertices|
      invariant !done ==> LoopFree(g.outs, g.vertices[..pos])
      decreases |g.vertices|, |g.vertices| - pos
    {
      var v := g.vertices[pos];
      assert v in g.V();
      LoopFreeNext(g.outs, g.vertices, pos);
      var loops := Loops(g, v);
      if loops {
        LoopAllowed(g, v, simple);
        RanMore(G0, simple, steps, Rule3(v), g);
        UnionNext(feedback', feedback, Taken(steps), v);
        feedback' := feedback' + {v};
        g.Suppress(pos);
        done, steps := true, steps + [Rule3(v)];
        pos, i := ScanBack(i, previous), if i > 0 then i else -1;
      }
      previous, pos, i := pos, pos + 1, i + 1;
    }
    assert !done ==> g.vertices[..pos] == g.vertices;
    RunCosts(G0, simple, steps, g);
  }

  lemma LoopAllowed(g: Digraph, v: int, simple: bool)
    requires g.Valid() && v in g.V() && Listed(g.outs, v, v)
    ensures Allowed(g.G(), Rule3(v), simple)
  {
    g.NeighbourLists(v);
  }

  lemma LoopFreeNext(outs: Neighbours, vs: seq<int>, pos: nat)
    requires pos < |vs|
    ensures LoopFree(outs, vs[..pos]) && !Listed(outs, vs[pos], vs[pos]) ==> LoopFree(outs, vs[..pos + 1])
  {
    assert vs[..pos + 1] == vs[..pos] + [vs[pos]];
  }

  ghost predicate IsUnion(A: set<int>, B: set<int>, C: set<int>) {
    A == B + C
  }

  lemma UnionEmpty(A: set<int>)
    ensures IsUnion(A, A, {})
  {
  }

  lemma UnionNext(A: set<int>, B: set<int>, C: set<int>, v: int)
    requires IsUnion(A, B, C)
    ensures IsUnion(A + {v}, B, C + {v})
  {
  }

  // ----- the reduction loop

  /** Nothing more to do: no vertex of low degree, none that passes the clique test, and no self-loop. */
  ghost predicate Irreducible(g: Digraph)
    requires g.Valid()
    reads g
  {
    && LoopFree(g.outs, g.vertices)
    && forall v :: v in g.V() ==> !LowDegree(g, v) && !CliqueTest(g.E(), v, g.ins[v], g.outs[v])
  }

  /** An irreducible graph with a vertex has a cycle. */
  lemma IrreducibleCycle(g: Digraph) returns (w: seq<int>)
    requires g.Valid() && Irreducible(g) && g.vertices != []
    ensures Cycle(g.E(), w)
  {
    g.EdgeEnds();
    forall v | v in g.V() ensures HasPredecessor(g.E(), g.V(), v) {
      assert !LowDegree(g, v) && !Listed(g.outs, v, v) && !Listed(g.ins, v, v);
      var u := g.ins[v][0];
      assert Listed(g.ins, v, u);
      assert (u, v) in g.E();
    }
    assert g.vertices[0] in g.V();
    w := PredecessorsCycle(g.E(), g.V());
  }

  /** Applies the three rules until none does anything. */
  method ReduceGraph(feedback: set<int>, g: Digraph, ghost simple: bool)
    returns (feedback': set<int>, ghost steps: seq<Step>)
    requires g.Valid() && (simple ==> g.Simple())
    modifies g
    ensures g.Valid() && Ran(old(g.G()), simple, steps, g)
    ensures forall s :: s in steps ==> !s.Cut?
    ensures |steps| == old(|g.vertices|) - |g.vertices|
    ensures feedback' == feedback + Taken(steps)
    ensures Reduces(old(g.V()), old(g.E()), g.V(), g.E(), Taken(steps), Cost(old(g.G()), steps))
    ensures g.vertices == [] || Irreducible(g)
    ensures forall v :: v in g.V() ==> (v, v) !in g.E() && |g.ins[v]| >= 2 && |g.outs[v]| >= 2
    ensures simple ==> forall v :: v in g.V() ==> |Preds(g.E(), v)| >= 2 && |Succs(g.E(), v)| >= 2
    ensures simple ==> forall v :: v in g.V() && g.ins[v] == g.outs[v] ==>
                         !Clique(g.E(), Preds(g.E(), v)) && !Clique(g.E(), Preds(g.E(), v) - {g.ins[v][0]})
  {
    hide Legal, Final, Allowed, Reduces, CliqueTest, Cost, Taken, LowDegree, LoopFree;
    ghost var G0 := g.G();
    g.EdgeEnds();
    RanNothing(g, simple);
    feedback', steps := feedback, [];
    NothingTaken(feedback);
    var somethingDone := true;
    while somethingDone && |g.vertices| > 0
      invariant g.Valid() && Ran(G0, simple, steps, g) && forall s :: s in steps ==> !s.Cut?
      invariant |steps| == old(|g.vertices|) - |g.vertices|
      invariant feedback' == feedback + Taken(steps)
      invariant !somethingDone ==> Irreducible(g)
      decreases |g.vertices|, somethingDone
    {
      ghost var H0 := g.G();
      var done1, done2, done3;
      ghost var s1, s2, s3;
      done1, s1 := EliminateLowDegreeStep(g, simple);
      RanBoth(G0, H0, simple, steps, s1, g);
      ghost var H1 := g.G();
      done2, s2 := EliminateCliqueStep(g, simple);
      RanBoth(G0, H1, simple, steps + s1, s2, g);
      ghost var H2 := g.G();
      done3, feedback', s3 := SuppressLoopsStep(feedback', g, simple);
      RanBoth(G0, H2, simple, steps + s1 + s2, s3, g);
      NothingStored(s1, s2);
      steps := steps + s1 + s2 + s3;
      somethingDone := done1 || done2 || done3;
    }
    RunCosts(G0, simple, steps, g);
    NothingLeft(g, simple);
  }

  /** What is left when none of the rules applies, in terms of the graph alone. */
  lemma NothingLeft(g: Digraph, simple: bool)
    requires g.Valid() && (g.vertices == [] || Irreducible(g)) && (simple ==> g.Simple())
    ensures forall v :: v in g.V() ==> (v, v) !in g.E() && |g.ins[v]| >= 2 && |g.outs[v]| >= 2
    ensures simple ==> forall v :: v in g.V() ==> |Preds(g.E(), v)| >= 2 && |Succs(g.E(), v)| >= 2
    ensures simple ==> forall v :: v in g.V() && g.ins[v] == g.outs[v] ==>
                         !Clique(g.E(), Preds(g.E(), v)) && !Clique(g.E(), Preds(g.E(), v) - {g.ins[v][0]})
  {
    hide CliqueTest;
    forall v | v in g.V()
      ensures (v, v) !in g.E() && |g.ins[v]| >= 2 && |g.outs[v]| >= 2
      ensures simple ==> |Preds(g.E(), v)| >= 2 && |Succs(g.E(), v)| >= 2
      ensures simple && g.ins[v] == g.outs[v] ==> !Clique(g.E(), Preds(g.E(), v) - {g.ins[v][0]})
    {
      ListSizes(g, v);
      g.NeighbourLists(v);
      PredsAre(g.E(), v);
      assert !LowDegree(g, v) && !Listed(g.outs, v, v) && !Listed(g.ins, v, v);
      if simple {
        CliqueTestDecides(g, v);
      }
    }
  }

  lemma NothingTaken(feedback: set<int>)
    ensures feedback == feedback + Taken([])
  {
  }

  lemma NothingStored(a: seq<Step>, b: seq<Step>)
    requires (forall s :: s in a ==> s.Rule1?) && (forall s :: s in b ==> s.Rule2?)
    ensures Taken(a) == {} && Taken(b) == {}
  {
    CostOfRules(Graph({}, {}), a);
    CostOfRules(Graph({}, {}), b);
  }

  function Degree(g: Digraph, pos: nat): nat
    requires g.Valid() && pos < |g.vertices|
    reads g
  {
    assert g.vertices[pos] in g.V();
    |g.ins[g.vertices[pos]]| + |g.outs[g.vertices[pos]]|
  }

  /** The first position with the largest degree. */
  method MaxDegreePosition(g: Digraph) returns (best: nat)
    requires g.Valid() && g.vertices != [] && Degree(g, 0) > 0
    ensures best < |g.vertices|
    ensures forall k :: 0 <= k < |g.vertices| ==> Degree(g, k) <= Degree(g, best)
    ensures forall k :: 0 <= k < best ==> Degree(g, k) < Degree(g, best)
  {
    var maxDegree := 0;
    best := 0;
    for num := 0 to |g.vertices|
      invariant num == 0 ==> maxDegree == 0
      invariant num > 0 ==> best < num && maxDegree == Degree(g, best)
      invariant forall k :: 0 <= k < num ==> Degree(g, k) <= maxDegree
      invariant forall k :: 0 <= k < best && k < num ==> Degree(g, k) < maxDegree
    {
      var v := g.vertices[num];
      assert v in g.V();
      if |g.ins[v]| + |g.outs[v]| > maxDegree {
        maxDegree := |g.ins[v]| + |g.outs[v]|;
        best := num;
      }
    }
  }

  lemma IrreducibleDegree(g: Digraph)
    requires g.Valid() && Irreducible(g) && g.vertices != []
    ensures Degree(g, 0) > 0
  {
    var v := g.vertices[0];
    assert v in g.V() && !LowDegree(g, v);
    assert !Listed(g.outs, v, v) && !Listed(g.ins, v, v);
  }

  lemma Branching(g: Digraph, k: nat)
    requires g.Valid() && Irreducible(g) && k < |g.vertices|
    ensures var u := g.vertices[k];
            && u in g.V() && (u, u) !in g.E() && Preds(g.E(), u) != {} && Succs(g.E(), u) != {}
            && (g.Simple() ==> && |Preds(g.E(), u)| >= 2 && |Succs(g.E(), u)| >= 2
                               && |Preds(g.E(), u)| + |Succs(g.E(), u)| == Degree(g, k))
  {
    var u := g.vertices[k];
    assert u in g.V();
    ListSizes(g, u);
    g.NeighbourLists(u);
    assert !LowDegree(g, u) && !Listed(g.outs, u, u) && !Listed(g.ins, u, u);
    assert g.ins[u][0] in Preds(g.E(), u) && g.outs[u][0] in Succs(g.E(), u);
  }

  /** On an irreducible graph no rule but the cut is left, and it takes a vertex of the largest degree. */
  lemma CutAllowed(g: Digraph, pos: nat, simple: bool)
    requires g.Valid() && Irreducible(g) && pos < |g.vertices| && (simple ==> g.Simple())
    requires forall k :: 0 <= k < |g.vertices| ==> Degree(g, k) <= Degree(g, pos)
    ensures Allowed(g.G(), Cut(g.vertices[pos]), simple)
  {
    hide Irreducible, Preds, Succs, Degree, g.Simple, g.Valid, EdgesOf;
    Branching(g, pos);
    forall u | u in g.V()
      ensures exists k :: 0 <= k < |g.vertices| && g.vertices[k] == u
    {
    }
    forall k | 0 <= k < |g.vertices| {
      Branching(g, k);
    }
  }

  /** The feedback vertex set of a graph. The run takes only steps that are allowed, cuts only when neither rule 1 nor rule
      3 applies, and leaves no vertex. The set is what the run has stored; it exceeds a smallest one by at most the cuts and
      the contractions by rule 2 of vertices of which the neighbours were not a clique, and is a smallest one if there
      were none of either. */
  method MinimalSetOfFeedbackVertices(g1: Digraph) returns (feedback: set<int>, g: Digraph, ghost run: seq<Step>)
    requires g1.Valid()
    ensures g.vertices == []
    ensures Legal(g1.G(), run, g1.Simple()) && Final(g1.G(), run).V == {} && feedback == Taken(run)
    ensures IsFvs(g1.V(), g1.E(), feedback)
    ensures forall F :: IsFvs(g1.V(), g1.E(), F) ==> |feedback| <= |F| + Cost(g1.G(), run)
    ensures Cost(g1.G(), run) == 0 ==> MinFvs(g1.V(), g1.E(), |feedback|)
  {
    hide Legal, Final, Allowed, Taken, Cost, IsFvs, MinFvs, LowDegree, LoopFree, Reduces;
    g := new Digraph.Copy(g1);
    ghost var G0, simple := g1.G(), g1.Simple();
    g1.EdgeEnds();
    feedback, run := {}, [];
    NothingTaken({});
    RanNothing(g, simple);
    while |g.vertices| > 0
      invariant g.Valid() && fresh(g)
      invariant Ran(G0, simple, run, g) && feedback == Taken(run)
      decreases |g.vertices|
    {
      ghost var H := g.G();
      ghost var steps;
      feedback, steps := ReduceGraph(feedback, g, simple);
      RanBoth(G0, H, simple, run, steps, g);
      run := run + steps;
      var found, circuit := HasCycle(g);
      if !found {
        if g.vertices != [] {
          var w := IrreducibleCycle(g);
          assert false;
        }
        break;
      }
      if |g.vertices| > 0 {
        IrreducibleDegree(g);
        var pos := MaxDegreePosition(g);
        CutAllowed(g, pos, simple);
        RanMore(G0, simple, run, Cut(g.vertices[pos]), g);
        feedback, run := feedback + {g.vertices[pos]}, run + [Cut(g.vertices[pos])];
        g.Suppress(pos);
      }
    }
    assert g.V() == {};
    RunBound(G0, run, simple);
  }
}
