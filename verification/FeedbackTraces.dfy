/** Runs of the feedback algorithm: the steps it takes, when each is allowed, and what they cost. */
module FeedbackTraces {
  import opened Digraphs
  import opened Sets

  datatype Graph = Graph(V: set<int>, E: Edges)

  /** Rules 1 and 2 contract a vertex; rule 3 and the cut store it and delete it. */
  datatype Step = Rule1(v: int) | Rule2(v: int) | Rule3(v: int) | Cut(v: int)

  function Preds(E: Edges, v: int): set<int> {
    set e | e in E && e.1 == v :: e.0
  }

  function Succs(E: Edges, v: int): set<int> {
    set e | e in E && e.0 == v :: e.1
  }

  lemma PredsAre(E: Edges, v: int)
    ensures forall a :: a in Preds(E, v) <==> (a, v) in E
    ensures forall b :: b in Succs(E, v) <==> (v, b) in E
  {
    forall a | (a, v) in E ensures a in Preds(E, v) {
      var e := (a, v);
      assert e in E && e.1 == v;
    }
    forall b | (v, b) in E ensures b in Succs(E, v) {
      var e := (v, b);
      assert e in E && e.0 == v;
    }
  }

  /** The neighbours of v are the same in both directions, and all but one of them are pairwise joined. */
  ghost predicate NearClique(E: Edges, v: int) {
    Doublets(E, v, Preds(E, v)) && exists a :: Clique(E, Preds(E, v) - {a})
  }

  /** None of the rules 1 and 3 applies, and v has the largest degree. Without parallel edges every vertex then has two
      predecessors and two successors. */
  ghost predicate NothingElse(G: Graph, v: int, simple: bool) {
    forall u :: u in G.V ==>
      && (u, u) !in G.E && Preds(G.E, u) != {} && Succs(G.E, u) != {}
      && (simple ==> && |Preds(G.E, u)| >= 2 && |Succs(G.E, u)| >= 2
                     && |Preds(G.E, u)| + |Succs(G.E, u)| <= |Preds(G.E, v)| + |Succs(G.E, v)|)
  }

  ghost predicate Allowed(G: Graph, s: Step, simple: bool) {
    && s.v in G.V
    && match s
       case Rule1(v) => (v, v) !in G.E && (|Preds(G.E, v)| <= 1 || |Succs(G.E, v)| <= 1)
       case Rule2(v) => NearClique(G.E, v)
       case Rule3(v) => (v, v) in G.E
       case Cut(v) => NothingElse(G, v, simple)
  }

  function After(G: Graph, s: Step): Graph {
    Graph(G.V - {s.v}, if s.Rule1? || s.Rule2? then Contract(G.E, s.v) else Delete(G.E, s.v))
  }

  /** The graph after all steps. */
  function Final(G: Graph, steps: seq<Step>): Graph {
    if steps == [] then G else After(Final(G, steps[..|steps| - 1]), steps[|steps| - 1])
  }

  /** Every step is allowed on the graph that it is taken on. */
  ghost predicate Legal(G: Graph, steps: seq<Step>, simple: bool) {
    steps == [] ||
    (&& Legal(G, steps[..|steps| - 1], simple)
     && Allowed(Final(G, steps[..|steps| - 1]), steps[|steps| - 1], simple))
  }

  /** The vertices stored by the steps. */
  function Taken(steps: seq<Step>): set<int> {
    if steps == [] then {}
    else
      var s := steps[|steps| - 1];
      Taken(steps[..|steps| - 1]) + if s.Rule3? || s.Cut? then {s.v} else {}
  }

  /** A cut may cost a vertex, and so may a contraction by rule 2 if the neighbours are not a clique. */
  ghost function StepCost(G: Graph, s: Step): nat {
    if s.Cut? || (s.Rule2? && !Clique(G.E, Preds(G.E, s.v))) then 1 else 0
  }

  ghost function Cost(G: Graph, steps: seq<Step>): nat {
    if steps == [] then 0
    else
      Cost(G, steps[..|steps| - 1]) + StepCost(Final(G, steps[..|steps| - 1]), steps[|steps| - 1])
  }

  // ----- what a run preserves

  lemma AfterWithin(G: Graph, s: Step)
    requires Within(G.E, G.V)
    ensures Within(After(G, s).E, After(G, s).V)
  {
    forall a, b | (a, b) in After(G, s).E ensures a in After(G, s).V && b in After(G, s).V {
      InContract(G.E, s.v, a, b);
    }
  }

  /** An allowed step turns feedback sets of the rest into feedback sets of the whole, and loses at most its cost. */
  lemma StepReduces(G: Graph, s: Step, simple: bool)
    requires Within(G.E, G.V) && Allowed(G, s, simple)
    ensures Reduces(G.V, G.E, After(G, s).V, After(G, s).E, Taken([s]), StepCost(G, s))
  {
    hide Reduces;
    assert [s][..0] == [];
    assert Taken([s]) == if s.Rule3? || s.Cut? then {s.v} else {};
    PredsAre(G.E, s.v);
    match s
    case Rule1(v) =>
      var pivot := Pivot(G.E, v);
      ContractReduces(G.V, G.E, v, pivot);
    case Rule2(v) => CliqueStep(G, v);
    case Rule3(v) => LoopReduces(G.V, G.E, v);
    case Cut(v) => CutReduces(G.V, G.E, v);
  }

  lemma Pivot(E: Edges, v: int) returns (pivot: int)
    requires |Preds(E, v)| <= 1 || |Succs(E, v)| <= 1
    ensures forall a, b :: (a, v) in E && (v, b) in E ==> a == pivot || b == pivot
  {
    PredsAre(E, v);
    var s := if |Preds(E, v)| <= 1 then Preds(E, v) else Succs(E, v);
    pivot := v;
    if s != {} {
      pivot := Member(s);
      forall x | x in s ensures x == pivot {
        SubsetSize({x, pivot}, s);
      }
    }
  }

  lemma CliqueStep(G: Graph, v: int)
    requires Within(G.E, G.V) && v in G.V && NearClique(G.E, v)
    ensures Reduces(G.V, G.E, G.V - {v}, Contract(G.E, v), {}, StepCost(G, Rule2(v)))
  {
    hide Reduces;
    var N := Preds(G.E, v);
    if Clique(G.E, N) {
      CliqueReduces(G.V, G.E, v, N, N);
      assert N - N == {};
    } else {
      var a :| Clique(G.E, N - {a});
      CliqueReduces(G.V, G.E, v, N, N - {a});
      SubsetSize(N - (N - {a}), {a});
      MoreSlack(G.V, G.E, G.V - {v}, Contract(G.E, v), {}, |N - (N - {a})|, 1);
    }
  }

  lemma MoreSlack(V0: set<int>, E0: Edges, V1: set<int>, E1: Edges, S: set<int>, slack: nat, more: nat)
    requires Reduces(V0, E0, V1, E1, S, slack) && slack <= more
    ensures Reduces(V0, E0, V1, E1, S, more)
  {
    forall F | IsFvs(V0, E0, F) ensures Matched(V1, E1, F, S, more) {
      assert Matched(V1, E1, F, S, slack);
    }
  }

  /** A legal run turns feedback sets of what is left into feedback sets of the whole graph, and loses at most its cost. */
  lemma {:induction false} RunReduces(G: Graph, steps: seq<Step>, simple: bool)
    requires Within(G.E, G.V) && Legal(G, steps, simple)
    ensures var H := Final(G, steps);
            Within(H.E, H.V) && Reduces(G.V, G.E, H.V, H.E, Taken(steps), Cost(G, steps))
  {
    hide Reduces, Within, Allowed, StepCost, After;
    if steps == [] {
      ReducesReflexive(G.V, G.E);
    } else {
      var init, s := steps[..|steps| - 1], steps[|steps| - 1];
      RunReduces(G, init, simple);
      var M, H := Final(G, init), Final(G, steps);
      StepReduces(M, s, simple);
      AfterWithin(M, s);
      assert [s][..0] == [];
      assert Taken([s]) == if s.Rule3? || s.Cut? then {s.v} else {};
      ReducesTransitive(G.V, G.E, M.V, M.E, H.V, H.E, Taken(init), Taken([s]), Cost(G, init), StepCost(M, s));
    }
  }

  /** A legal run that leaves no vertex has stored a feedback set, which exceeds a smallest one by at most the cost; at no
      cost it is a smallest one. */
  lemma RunBound(G: Graph, steps: seq<Step>, simple: bool)
    requires Within(G.E, G.V) && Legal(G, steps, simple) && Final(G, steps).V == {}
    ensures IsFvs(G.V, G.E, Taken(steps))
    ensures forall F :: IsFvs(G.V, G.E, F) ==> |Taken(steps)| <= |F| + Cost(G, steps)
    ensures Cost(G, steps) == 0 ==> MinFvs(G.V, G.E, |Taken(steps)|)
  {
    RunReduces(G, steps, simple);
    var H, S := Final(G, steps), Taken(steps);
    forall w ensures !Cycle(H.E, w) {
      if |w| >= 2 {
        var a, b := w[0], w[1];
        assert (a, b) in H.E ==> a in H.V;
      }
    }
    assert IsFvs(H.V, H.E, {});
    assert {} + S == S;
    forall F | IsFvs(G.V, G.E, F) ensures |S| <= |F| + Cost(G, steps) {
      assert Matched(H.V, H.E, F, S, Cost(G, steps));
    }
  }

  /** Runs can be joined. */
  lemma {:induction false} RunsJoin(G: Graph, a: seq<Step>, b: seq<Step>, simple: bool)
    requires Legal(G, a, simple) && Legal(Final(G, a), b, simple)
    ensures Legal(G, a + b, simple) && Final(G, a + b) == Final(Final(G, a), b)
    ensures Taken(a + b) == Taken(a) + Taken(b) && Cost(G, a + b) == Cost(G, a) + Cost(Final(G, a), b)
  {
    hide Allowed, StepCost, After;
    if b == [] {
      assert a + b == a;
    } else {
      var init := b[..|b| - 1];
      RunsJoin(G, a, init, simple);
      assert (a + b)[..|a + b| - 1] == a + init;
    }
  }

  /** One more step. */
  lemma OneMore(G: Graph, steps: seq<Step>, s: Step, simple: bool)
    requires Legal(G, steps, simple) && Allowed(Final(G, steps), s, simple)
    ensures Legal(G, steps + [s], simple) && Final(G, steps + [s]) == After(Final(G, steps), s)
    ensures Taken(steps + [s]) == Taken(steps) + if s.Rule3? || s.Cut? then {s.v} else {}
    ensures Cost(G, steps + [s]) == Cost(G, steps) + StepCost(Final(G, steps), s)
  {
    hide Allowed, StepCost, After;
    assert (steps + [s])[..|steps|] == steps;
  }

  /** Contractions by rule 1 and loops cost nothing; contractions by rule 2 at most one vertex each; contractions store
      nothing. */
  lemma {:induction false} CostOfRules(G: Graph, steps: seq<Step>)
    ensures (forall s :: s in steps ==> s.Rule1? || s.Rule3?) ==> Cost(G, steps) == 0
    ensures (forall s :: s in steps ==> s.Rule2?) ==> Cost(G, steps) <= |steps|
    ensures (forall s :: s in steps ==> s.Rule1? || s.Rule2?) ==> Taken(steps) == {}
  {
    hide Final;
    if steps != [] {
      var init := steps[..|steps| - 1];
      CostOfRules(G, init);
      assert steps[|steps| - 1] in steps && forall s :: s in init ==> s in steps;
    }
  }
}
