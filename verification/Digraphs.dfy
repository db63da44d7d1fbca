/** Directed graphs as edge sets: walks, cycles, feedback vertex sets, and how the
    reductions of the feedback algorithm transport feedback sets between graphs. */
module Digraphs {
  import opened Sets

  type Edges = set<(int, int)>

  ghost predicate Walk(E: Edges, w: seq<int>) {
    |w| >= 1 && forall i :: 0 <= i < |w| - 1 ==> (w[i], w[i + 1]) in E
  }

  /** A closed walk with at least one edge; a self-loop on v is the cycle [v, v]. */
  ghost predicate Cycle(E: Edges, w: seq<int>) {
    |w| >= 2 && Walk(E, w) && w[0] == w[|w| - 1]
  }

  ghost predicate Meets(w: seq<int>, F: set<int>) {
    exists v :: v in w && v in F
  }

  /** F contains a vertex of every cycle. */
  ghost predicate Hits(E: Edges, F: set<int>) {
    forall w :: Cycle(E, w) ==> Meets(w, F)
  }

  ghost predicate Within(E: Edges, V: set<int>) {
    forall a, b :: (a, b) in E ==> a in V && b in V
  }

  ghost predicate IsFvs(V: set<int>, E: Edges, F: set<int>) {
    F <= V && Hits(E, F)
  }

  /** k is the size of a smallest feedback vertex set. */
  ghost predicate MinFvs(V: set<int>, E: Edges, k: nat) {
    && (exists F :: IsFvs(V, E, F) && |F| == k)
    && (forall F :: IsFvs(V, E, F) ==> k <= |F|)
  }

  /** Deleting a vertex with all its edges. */
  function Delete(E: Edges, v: int): Edges {
    set e | e in E && e.0 != v && e.1 != v
  }

  /** Replacing a vertex by shortcuts from its predecessors to its successors. */
  function Contract(E: Edges, v: int): Edges {
    Delete(E, v) +
    (set e, f | e in E && f in E && e.1 == v && f.0 == v && e.0 != v && f.1 != v :: (e.0, f.1))
  }

  lemma InContract(E: Edges, v: int, a: int, b: int)
    ensures (a, b) in Contract(E, v) <==>
            a != v && b != v && ((a, b) in E || ((a, v) in E && (v, b) in E))
  {
    if (a, v) in E && (v, b) in E && a != v && b != v {
      var e, f := (a, v), (v, b);
      assert e in E && f in E && e.1 == v && f.0 == v && e.0 != v && f.1 != v && (e.0, f.1) == (a, b);
    }
  }

  // ----- walks under the reductions

  /** A walk between other vertices survives a contraction, on a subset of its vertices. */
  lemma {:induction false} ContractWalk(E: Edges, v: int, w: seq<int>) returns (w': seq<int>)
    requires (v, v) !in E && Walk(E, w) && |w| >= 2 && w[0] != v && w[|w| - 1] != v
    ensures Walk(Contract(E, v), w') && |w'| >= 2 && w'[0] == w[0] && w'[|w'| - 1] == w[|w| - 1]
    ensures forall x :: x in w' ==> x in w && x != v
  {
    InContract(E, v, w[0], w[1]);
    if |w| == 2 {
      w' := w;
    } else if w[1] != v {
      var rest := ContractWalk(E, v, w[1..]);
      w' := [w[0]] + rest;
    } else {
      assert (w[0], w[1]) in E && (w[1], w[2]) in E;
      InContract(E, v, w[0], w[2]);
      if |w| == 3 {
        w' := [w[0], w[2]];
      } else {
        var rest := ContractWalk(E, v, w[2..]);
        w' := [w[0]] + rest;
      }
    }
  }

  /** Every cycle survives the contraction of a vertex without self-loop. */
  lemma ContractCycle(E: Edges, v: int, w: seq<int>) returns (w': seq<int>)
    requires (v, v) !in E && Cycle(E, w)
    ensures Cycle(Contract(E, v), w') && forall x :: x in w' ==> x in w && x != v
  {
    if w[0] != v {
      w' := ContractWalk(E, v, w);
    } else {
      assert (w[0], w[1]) in E;
      var r := w[1..] + [w[1]];
      assert forall i :: 0 <= i < |r| - 1 ==> (r[i], r[i + 1]) in E;
      w' := ContractWalk(E, v, r);
    }
  }

  /** Every walk of the contracted graph expands to one that may also visit v. */
  lemma {:induction false} ExpandWalk(E: Edges, v: int, w: seq<int>) returns (w': seq<int>)
    requires Walk(Contract(E, v), w)
    ensures Walk(E, w') && |w'| >= |w| && w'[0] == w[0] && w'[|w'| - 1] == w[|w| - 1]
    ensures forall x :: x in w' ==> x in w || x == v
  {
    if |w| == 1 {
      w' := w;
    } else {
      var rest := ExpandWalk(E, v, w[1..]);
      assert (w[0], w[1]) in Contract(E, v);
      InContract(E, v, w[0], w[1]);
      w' := if (w[0], w[1]) in E then [w[0]] + rest else [w[0], v] + rest;
    }
  }

  /** A walk stays a walk, away from v, when its edges are edges of E away from v. */
  lemma RestrictWalk(E1: Edges, E: Edges, v: int, w: seq<int>)
    requires Walk(E1, w) && |w| >= 2
    requires forall a, b :: (a, b) in E1 && a in w && b in w ==> (a, b) in E && a != v && b != v
    ensures Walk(E, w) && v !in w
  {
    forall i | 0 <= i < |w| ensures w[i] != v {
      var k := if i + 1 < |w| then i else i - 1;
      var a, b := w[k], w[k + 1];
      assert (a, b) in E1 && a in w && b in w;
    }
    forall i | 0 <= i < |w| - 1 ensures (w[i], w[i + 1]) in E {
      assert (w[i], w[i + 1]) in E1 && w[i] in w && w[i + 1] in w;
    }
  }

  /** A walk of the contracted graph that avoids a pivot meeting every shortcut uses no shortcut. */
  lemma NoShortcut(E: Edges, v: int, pivot: int, w: seq<int>)
    requires Walk(Contract(E, v), w) && |w| >= 2 && pivot !in w
    requires forall a, b :: (a, v) in E && (v, b) in E ==> a == pivot || b == pivot
    ensures Walk(E, w) && v !in w
  {
    forall a, b | (a, b) in Contract(E, v) && a in w && b in w
      ensures (a, b) in E && a != v && b != v
    {
      InContract(E, v, a, b);
    }
    RestrictWalk(Contract(E, v), E, v, w);
  }

  // ----- reductions

  /** Graph 0 is reduced to graph 1 after storing S: feedback sets of graph 1 extend by S to
      graph 0, and every feedback set of graph 0 is matched in graph 1 up to `slack` vertices. */
  ghost predicate Reduces(V0: set<int>, E0: Edges, V1: set<int>, E1: Edges, S: set<int>, slack: nat) {
    && S !! V1
    && V1 + S <= V0
    && Lifts(V0, E0, V1, E1, S)
    && Tight(V0, E0, V1, E1, S, slack)
  }

  ghost predicate Lifts(V0: set<int>, E0: Edges, V1: set<int>, E1: Edges, S: set<int>) {
    forall F :: IsFvs(V1, E1, F) ==> IsFvs(V0, E0, F + S)
  }

  ghost predicate Tight(V0: set<int>, E0: Edges, V1: set<int>, E1: Edges, S: set<int>, slack: nat) {
    forall F :: IsFvs(V0, E0, F) ==> Matched(V1, E1, F, S, slack)
  }

  ghost predicate Matched(V1: set<int>, E1: Edges, F: set<int>, S: set<int>, slack: nat) {
    exists F1 :: IsFvs(V1, E1, F1) && |F1| + |S| <= |F| + slack
  }

  lemma ReducesReflexive(V: set<int>, E: Edges)
    ensures Reduces(V, E, V, E, {}, 0)
  {
    forall F | IsFvs(V, E, F) ensures IsFvs(V, E, F + {}) && Matched(V, E, F, {}, 0) {
      assert F + {} == F;
    }
  }

  lemma ReducesTransitive(V0: set<int>, E0: Edges, V1: set<int>, E1: Edges, V2: set<int>, E2: Edges,
                          S1: set<int>, S2: set<int>, slack1: nat, slack2: nat)
    requires Reduces(V0, E0, V1, E1, S1, slack1) && Reduces(V1, E1, V2, E2, S2, slack2)
    ensures Reduces(V0, E0, V2, E2, S1 + S2, slack1 + slack2)
  {
    LiftsTransitive(V0, E0, V1, E1, V2, E2, S1, S2);
    TightTransitive(V0, E0, V1, E1, V2, E2, S1, S2, slack1, slack2);
  }

  lemma LiftsTransitive(V0: set<int>, E0: Edges, V1: set<int>, E1: Edges, V2: set<int>, E2: Edges,
                        S1: set<int>, S2: set<int>)
    requires Lifts(V0, E0, V1, E1, S1) && Lifts(V1, E1, V2, E2, S2)
    ensures Lifts(V0, E0, V2, E2, S1 + S2)
  {
    forall F | IsFvs(V2, E2, F) ensures IsFvs(V0, E0, F + (S1 + S2)) {
      assert IsFvs(V1, E1, F + S2);
      assert (F + S2) + S1 == F + (S1 + S2);
    }
  }

  lemma TightTransitive(V0: set<int>, E0: Edges, V1: set<int>, E1: Edges, V2: set<int>, E2: Edges,
                        S1: set<int>, S2: set<int>, slack1: nat, slack2: nat)
    requires Tight(V0, E0, V1, E1, S1, slack1) && Tight(V1, E1, V2, E2, S2, slack2) && S1 !! S2
    ensures Tight(V0, E0, V2, E2, S1 + S2, slack1 + slack2)
  {
    assert |S1 + S2| == |S1| + |S2|;
    forall F | IsFvs(V0, E0, F) ensures Matched(V2, E2, F, S1 + S2, slack1 + slack2) {
      var F1 :| IsFvs(V1, E1, F1) && |F1| + |S1| <= |F| + slack1;
      var F2 :| IsFvs(V2, E2, F2) && |F2| + |S2| <= |F1| + slack2;
    }
  }

  /** A reduction without slack keeps the minimum: before = after + stored. */
  lemma ReducesMinimum(V0: set<int>, E0: Edges, V1: set<int>, E1: Edges, S: set<int>, k: nat)
    requires Reduces(V0, E0, V1, E1, S, 0)
    ensures MinFvs(V1, E1, k) <==> MinFvs(V0, E0, k + |S|)
  {
    if MinFvs(V1, E1, k) {
      MinimumForward(V0, E0, V1, E1, S, k);
    }
    if MinFvs(V0, E0, k + |S|) {
      MinimumBackward(V0, E0, V1, E1, S, k);
    }
  }

  lemma MinimumForward(V0: set<int>, E0: Edges, V1: set<int>, E1: Edges, S: set<int>, k: nat)
    requires Reduces(V0, E0, V1, E1, S, 0) && MinFvs(V1, E1, k)
    ensures MinFvs(V0, E0, k + |S|)
  {
    var F :| IsFvs(V1, E1, F) && |F| == k;
    ReducedSize(V0, E0, V1, E1, S, F);
    forall G | IsFvs(V0, E0, G) ensures k + |S| <= |G| {
      assert Matched(V1, E1, G, S, 0);
    }
  }

  lemma MinimumBackward(V0: set<int>, E0: Edges, V1: set<int>, E1: Edges, S: set<int>, k: nat)
    requires Reduces(V0, E0, V1, E1, S, 0) && MinFvs(V0, E0, k + |S|)
    ensures MinFvs(V1, E1, k)
  {
    var G :| IsFvs(V0, E0, G) && |G| == k + |S|;
    var F :| IsFvs(V1, E1, F) && |F| + |S| <= |G|;
    forall H | IsFvs(V1, E1, H) ensures k <= |H| {
      ReducedSize(V0, E0, V1, E1, S, H);
    }
  }

  lemma ReducedSize(V0: set<int>, E0: Edges, V1: set<int>, E1: Edges, S: set<int>, F: set<int>)
    requires Reduces(V0, E0, V1, E1, S, 0) && IsFvs(V1, E1, F)
    ensures IsFvs(V0, E0, F + S) && |F + S| == |F| + |S|
  {
    assert F !! S;
  }

  /** Contracting a vertex without self-loop is sound. */
  lemma ContractSound(V: set<int>, E: Edges, v: int, F: set<int>)
    requires (v, v) !in E && IsFvs(V - {v}, Contract(E, v), F)
    ensures IsFvs(V, E, F)
  {
    forall w | Cycle(E, w) ensures Meets(w, F) {
      var w' := ContractCycle(E, v, w);
      assert Meets(w', F);
    }
  }

  /** A feedback set without v stays one after the contraction of v. */
  lemma ContractKeeps(V: set<int>, E: Edges, v: int, F: set<int>)
    requires IsFvs(V, E, F) && v !in F
    ensures IsFvs(V - {v}, Contract(E, v), F)
  {
    forall w | Cycle(Contract(E, v), w) ensures Meets(w, F) {
      var w' := ExpandWalk(E, v, w);
      assert Cycle(E, w');
      assert Meets(w', F);
    }
  }

  /** Contracting a loopless vertex loses nothing if and only if some smallest feedback set avoids it. */
  lemma ContractExact(V: set<int>, E: Edges, v: int, k: nat)
    requires (v, v) !in E && MinFvs(V, E, k)
    ensures MinFvs(V - {v}, Contract(E, v), k) <==> exists F :: IsFvs(V, E, F) && |F| == k && v !in F
  {
    var V1, E1 := V - {v}, Contract(E, v);
    forall F | IsFvs(V1, E1, F) ensures IsFvs(V, E, F) && v !in F && k <= |F| {
      ContractSound(V, E, v, F);
    }
    if F :| IsFvs(V, E, F) && |F| == k && v !in F {
      ContractKeeps(V, E, v, F);
    }
  }

  /** Rule 1: a loopless vertex all of whose shortcuts share one endpoint is contracted at no cost. */
  lemma ContractReduces(V: set<int>, E: Edges, v: int, pivot: int)
    requires Within(E, V) && v in V && (v, v) !in E
    requires forall a, b :: (a, v) in E && (v, b) in E ==> a == pivot || b == pivot
    ensures Reduces(V, E, V - {v}, Contract(E, v), {}, 0)
  {
    var V1, E1 := V - {v}, Contract(E, v);
    forall F | IsFvs(V1, E1, F) ensures IsFvs(V, E, F + {}) {
      ContractSound(V, E, v, F);
      assert F + {} == F;
    }
    forall F | IsFvs(V, E, F) ensures Matched(V1, E1, F, {}, 0) {
      if v !in F {
        ContractKeeps(V, E, v, F);
      } else {
        PivotFvs(V, E, v, pivot, F);
        assert |F - {v}| == |F| - 1;
        SubsetSize({pivot} * V1, {pivot});
        UnionSize(F - {v}, {pivot} * V1);
      }
    }
  }

  lemma PivotFvs(V: set<int>, E: Edges, v: int, pivot: int, F: set<int>)
    requires Within(E, V) && IsFvs(V, E, F)
    requires forall a, b :: (a, v) in E && (v, b) in E ==> a == pivot || b == pivot
    ensures IsFvs(V - {v}, Contract(E, v), F - {v} + {pivot} * (V - {v}))
  {
    forall w | Cycle(Contract(E, v), w) ensures Meets(w, F - {v} + {pivot} * (V - {v})) {
      if pivot in w {
        var i :| 0 <= i < |w| && w[i] == pivot;
        InContractVertex(E, V, v, w, i);
      } else {
        NoShortcut(E, v, pivot, w);
        assert Meets(w, F);
      }
    }
  }

  /** The vertices of a cycle of the contracted graph are vertices other than v. */
  lemma InContractVertex(E: Edges, V: set<int>, v: int, w: seq<int>, i: nat)
    requires Within(E, V) && Walk(Contract(E, v), w) && |w| >= 2 && i < |w|
    ensures w[i] in V - {v}
  {
    if i + 1 < |w| {
      InContract(E, v, w[i], w[i + 1]);
    } else {
      assert (w[i - 1], w[i]) in Contract(E, v);
      InContract(E, v, w[i - 1], w[i]);
    }
  }

  /** Deleting v removes exactly its cycles. */
  lemma DeleteCycles(V: set<int>, E: Edges, v: int, F: set<int>)
    requires Within(E, V) && v in V
    ensures IsFvs(V - {v}, Delete(E, v), F) ==> IsFvs(V, E, F + {v})
    ensures IsFvs(V, E, F) ==> IsFvs(V - {v}, Delete(E, v), F - {v})
  {
    if IsFvs(V - {v}, Delete(E, v), F) {
      forall w | Cycle(E, w) ensures Meets(w, F + {v}) {
        if v in w {
        } else {
          assert Cycle(Delete(E, v), w);
          assert Meets(w, F);
        }
      }
    }
    if IsFvs(V, E, F) {
      forall w | Cycle(Delete(E, v), w) ensures Meets(w, F - {v}) {
        RestrictWalk(Delete(E, v), E, v, w);
        assert Meets(w, F);
      }
    }
  }

  /** Rule 3: a vertex with a self-loop belongs to every feedback set; storing it costs nothing. */
  lemma LoopReduces(V: set<int>, E: Edges, v: int)
    requires Within(E, V) && (v, v) in E
    ensures Reduces(V, E, V - {v}, Delete(E, v), {v}, 0)
  {
    forall F | IsFvs(V - {v}, Delete(E, v), F) ensures IsFvs(V, E, F + {v}) {
      DeleteCycles(V, E, v, F);
    }
    forall F | IsFvs(V, E, F) ensures Matched(V - {v}, Delete(E, v), F, {v}, 0) {
      DeleteCycles(V, E, v, F);
      assert Cycle(E, [v, v]);
      assert Meets([v, v], F);
    }
  }

  /** The cut: storing any vertex costs at most one vertex. */
  lemma CutReduces(V: set<int>, E: Edges, v: int)
    requires Within(E, V) && v in V
    ensures Reduces(V, E, V - {v}, Delete(E, v), {v}, 1)
  {
    forall F | IsFvs(V - {v}, Delete(E, v), F) ensures IsFvs(V, E, F + {v}) {
      DeleteCycles(V, E, v, F);
    }
    forall F | IsFvs(V, E, F) ensures Matched(V - {v}, Delete(E, v), F, {v}, 1) {
      DeleteCycles(V, E, v, F);
      assert |F - {v}| <= |F|;
    }
  }

  // ----- the clique rule

  /** Every two distinct vertices of K are joined in both directions. */
  ghost predicate Clique(E: Edges, K: set<int>) {
    forall a, b :: a in K && b in K && a != b ==> (a, b) in E
  }

  /** N is exactly the set of predecessors and the set of successors of v, and v is not in it. */
  ghost predicate Doublets(E: Edges, v: int, N: set<int>) {
    && v !in N
    && (forall a :: (a, v) in E <==> a in N)
    && (forall b :: (v, b) in E <==> b in N)
  }

  /** A feedback set leaves out at most one vertex of a clique. */
  lemma CliqueMissesOne(E: Edges, K: set<int>, F: set<int>)
    requires Clique(E, K) && Hits(E, F)
    ensures |K - F| <= 1
  {
    if |K - F| > 1 {
      var a, b := TwoElements(K - F);
      HitsPair(E, F, a, b);
    }
  }

  lemma HitsPair(E: Edges, F: set<int>, a: int, b: int)
    requires Hits(E, F) && (a, b) in E && (b, a) in E
    ensures a in F || b in F
  {
    assert Cycle(E, [a, b, a]);
    assert Meets([a, b, a], F);
  }

  /** Rule 2: contracting v whose doublets N contain a clique K costs at most |N - K| vertices. */
  lemma CliqueReduces(V: set<int>, E: Edges, v: int, N: set<int>, K: set<int>)
    requires Within(E, V) && v in V && Doublets(E, v, N) && K <= N && Clique(E, K)
    ensures Reduces(V, E, V - {v}, Contract(E, v), {}, |N - K|)
  {
    var V1, E1 := V - {v}, Contract(E, v);
    forall F | IsFvs(V1, E1, F) ensures IsFvs(V, E, F + {}) {
      ContractSound(V, E, v, F);
      assert F + {} == F;
    }
    forall F | IsFvs(V, E, F) ensures Matched(V1, E1, F, {}, |N - K|) {
      if v !in F {
        ContractKeeps(V, E, v, F);
      } else {
        CliqueMissesOne(E, K, F);
        CliqueFvs(V, E, v, N, F);
        CliqueSize(F, v, N, K);
      }
    }
  }

  lemma CliqueSize(F: set<int>, v: int, N: set<int>, K: set<int>)
    requires v in F && v !in N && K <= N && |K - F| <= 1
    ensures |F - {v} + N| <= |F| + |N - K|
  {
    SubsetSize(F - {v} + N, (F - {v}) + ((N - K) + (K - F)));
    UnionSize(F - {v}, (N - K) + (K - F));
    UnionSize(N - K, K - F);
    assert |F - {v}| == |F| - 1;
  }

  lemma CliqueFvs(V: set<int>, E: Edges, v: int, N: set<int>, F: set<int>)
    requires Within(E, V) && Doublets(E, v, N) && IsFvs(V, E, F)
    ensures IsFvs(V - {v}, Contract(E, v), F - {v} + N)
  {
    var F1 := F - {v} + N;
    forall a | a in N ensures a in V { assert (a, v) in E; }
    forall w | Cycle(Contract(E, v), w) ensures Meets(w, F1) {
      if x :| x in w && x in N {
      } else {
        forall a, b | (a, b) in Contract(E, v) && a in w && b in w
          ensures (a, b) in E && a != v && b != v
        {
          InContract(E, v, a, b);
        }
        RestrictWalk(Contract(E, v), E, v, w);
        assert Meets(w, F);
      }
    }
  }

  lemma TwoElements(A: set<int>) returns (a: int, b: int)
    requires |A| >= 2
    ensures a in A && b in A && a != b
  {
    a := Member(A);
    assert |A - {a}| == |A| - 1;
    b := Member(A - {a});
  }

  lemma UnionSize(A: set<int>, B: set<int>)
    ensures |A + B| <= |A| + |B|
  {
    assert A + B == A + (B - A);
    SubsetSize(B - A, B);
  }

  lemma SubsetSize(A: set<int>, B: set<int>)
    requires A <= B
    ensures |A| <= |B|
  {
    assert B == A + (B - A);
  }

  // ----- finite graphs

  ghost predicate Distinct(s: seq<int>) {
    forall i, j :: 0 <= i < j < |s| ==> s[i] != s[j]
  }

  function Elements(s: seq<int>): set<int> {
    set x | x in s
  }

  lemma {:induction false} DistinctSize(s: seq<int>)
    requires Distinct(s)
    ensures |Elements(s)| == |s|
  {
    if s != [] {
      DistinctSize(s[1..]);
      assert Elements(s) == {s[0]} + Elements(s[1..]);
      assert s[0] !in s[1..];
    }
  }

  /** A finite nonempty set in which every vertex has a predecessor carries a cycle. */
  lemma PredecessorsCycle(E: Edges, S: set<int>) returns (w: seq<int>)
    requires S != {} && EveryHasPredecessor(E, S)
    ensures Cycle(E, w) && forall x :: x in w ==> x in S
  {
    var v := Member(S);
    w := GrowBackwards(E, S, [v]);
  }

  ghost predicate EveryHasPredecessor(E: Edges, S: set<int>) {
    forall v :: v in S ==> HasPredecessor(E, S, v)
  }

  ghost predicate HasPredecessor(E: Edges, S: set<int>, v: int) {
    exists u :: u in S && (u, v) in E
  }

  lemma {:induction false} GrowBackwards(E: Edges, S: set<int>, path: seq<int>) returns (w: seq<int>)
    requires EveryHasPredecessor(E, S)
    requires Walk(E, path) && Distinct(path) && forall x :: x in path ==> x in S
    ensures Cycle(E, w) && forall x :: x in w ==> x in S
    decreases |S| + 1 - |path|
  {
    DistinctSize(path);
    SubsetSize(Elements(path), S);
    assert HasPredecessor(E, S, path[0]);
    var u :| u in S && (u, path[0]) in E;
    if j :| 0 <= j < |path| && path[j] == u {
      w := CloseWalk(E, u, path, j);
    } else {
      w := GrowBackwards(E, S, [u] + path);
    }
  }

  lemma CloseWalk(E: Edges, u: int, path: seq<int>, j: nat) returns (w: seq<int>)
    requires Walk(E, path) && j < |path| && path[j] == u && (u, path[0]) in E
    ensures Cycle(E, w) && forall x :: x in w ==> x in path
  {
    w := [u] + path[..j + 1];
    assert forall i :: 1 <= i < |w| ==> w[i] == path[i - 1];
    forall i | 0 <= i < |w| - 1 ensures (w[i], w[i + 1]) in E {
      assert i > 0 ==> (path[i - 1], path[i - 1 + 1]) in E;
    }
  }

  /** A set listed so that all successors come earlier lies on no cycle. */
  lemma FinishedAcyclic(E: Edges, finished: seq<int>, w: seq<int>)
    requires forall i, b :: 0 <= i < |finished| && (finished[i], b) in E ==> b in finished[..i]
    requires Cycle(E, w)
    ensures w[0] !in finished
  {
    if w[0] in finished {
      var i :| 0 <= i < |finished| && finished[i] == w[0];
      var j := Descend(E, finished, w, i, |w| - 1);
      FirstIndex(E, finished, w, j);
    }
  }

  /** Walking on from a finished vertex ends at a strictly earlier one. */
  lemma {:induction false} Descend(E: Edges, finished: seq<int>, w: seq<int>, i: nat, n: nat) returns (j: nat)
    requires forall i, b :: 0 <= i < |finished| && (finished[i], b) in E ==> b in finished[..i]
    requires Walk(E, w) && i < |finished| && finished[i] == w[0] && 0 < n < |w|
    ensures j < i && finished[j] == w[n]
  {
    if n == 1 {
      assert (finished[i], w[1]) in E;
      j :| 0 <= j < i && finished[j] == w[1];
    } else {
      var k := Descend(E, finished, w, i, n - 1);
      assert (finished[k], w[n]) in E;
      j :| 0 <= j < k && finished[j] == w[n];
    }
  }

  lemma {:induction false} FirstIndex(E: Edges, finished: seq<int>, w: seq<int>, i: nat)
    requires forall i, b :: 0 <= i < |finished| && (finished[i], b) in E ==> b in finished[..i]
    requires Cycle(E, w) && i < |finished| && finished[i] == w[0]
    ensures false
    decreases i
  {
    var j := Descend(E, finished, w, i, |w| - 1);
    FirstIndex(E, finished, w, j);
  }
}
