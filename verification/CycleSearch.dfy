/** Depth-first search for a cycle with white, gray and black vertices. */
module CycleSearch {
  import opened Digraphs
  import opened AdjacencyLists

  datatype Color = White | Gray | Black

  function Reverse(s: seq<int>): (r: seq<int>)
    ensures |r| == |s|
    ensures forall k :: 0 <= k < |s| ==> r[k] == s[|s| - 1 - k]
  {
    if s == [] then [] else Reverse(s[1..]) + [s[0]]
  }

  lemma ReverseSnoc(s: seq<int>, x: int)
    ensures Reverse(s + [x]) == [x] + Reverse(s)
  {
  }

  /** stem followed by tail is a walk whose last vertex lies earlier on it. */
  ghost predicate Lasso(E: Edges, stem: seq<int>, tail: seq<int>) {
    && |tail| >= 1
    && Walk(E, stem + tail)
    && tail[|tail| - 1] in stem + tail[..|tail| - 1]
  }

  lemma LassoCycle(E: Edges, stem: seq<int>, tail: seq<int>) returns (w: seq<int>)
    requires Lasso(E, stem, tail)
    ensures Cycle(E, w)
  {
    var s := stem + tail;
    var n := |s| - 1;
    assert stem + tail[..|tail| - 1] == s[..n];
    var j :| 0 <= j < n && s[j] == s[n];
    w := s[j..];
    assert forall i :: 0 <= i < |w| - 1 ==> (w[i], w[i + 1]) == (s[j + i], s[j + i + 1]);
  }

  lemma LassoShift(E: Edges, stem: seq<int>, t: int, tail: seq<int>)
    requires Lasso(E, stem + [t], tail)
    ensures Lasso(E, stem, [t] + tail)
  {
    assert stem + ([t] + tail) == stem + [t] + tail;
    assert stem + ([t] + tail)[..|tail|] == stem + [t] + tail[..|tail| - 1];
  }

  /** Every listed vertex has all its successors listed before it. */
  ghost predicate Finished(E: Edges, finished: seq<int>) {
    forall i, b :: 0 <= i < |finished| && (finished[i], b) in E ==> b in finished[..i]
  }

  ghost predicate Colored(color: map<int, Color>, V: set<int>, path: seq<int>, finished: seq<int>) {
    && color.Keys == V
    && (forall v :: v in color ==> (color[v] == Gray <==> v in path))
    && (forall v :: v in color ==> (color[v] == Black <==> v in finished))
  }

  lemma ColorNext(color: map<int, Color>, V: set<int>, path: seq<int>, finished: seq<int>, u: int)
    requires u in V && u !in path && u !in finished
    ensures Colored(color, V, path, finished) ==> Colored(color[u := Gray], V, path + [u], finished)
    ensures Colored(color, V, path + [u], finished) ==> Colored(color[u := Black], V, path, finished + [u])
  {
  }

  class Search {
    var color: map<int, Color>
    var circuit: seq<int>
    ghost var finished: seq<int>

    /** `path` lists the gray vertices from the root down; the black ones are listed in `finished`. */
    ghost predicate Consistent(V: set<int>, E: Edges, path: seq<int>)
      reads this
    {
      Colored(color, V, path, finished) && Finished(E, finished)
    }

    constructor (vertices: seq<int>)
      ensures color.Keys == Elements(vertices) && circuit == [] && finished == []
      ensures forall v :: v in vertices ==> color[v] == White
    {
      color := map v | v in vertices :: White;
      circuit := [];
      finished := [];
    }

    /** Explores a white vertex below the gray `path`. */
    method Visit(g: Digraph, u: int, ghost path: seq<int>) returns (found: bool)
      requires g.Valid() && u in g.V() && Consistent(g.V(), g.E(), path)
      requires color[u] == White && Walk(g.E(), path + [u])
      modifies this
      ensures !found ==> Consistent(g.V(), g.E(), path) && circuit == old(circuit)
      ensures !found ==> Covers(finished, old(finished) + [u])
      ensures found ==> Returns(g.E(), path + [u], old(circuit), circuit)
      decreases Unseen(g.V(), path, finished), 0
    {
      ghost var here := path + [u];
      ColorNext(color, g.V(), path, finished, u);
      color := color[u := Gray];
      UnseenShrinks(g.V(), path, u, finished);
      var targets := g.outs[u];
      for k := 0 to |targets|
        invariant Consistent(g.V(), g.E(), here) && circuit == old(circuit)
        invariant Covers(finished, old(finished) + targets[..k])
      {
        ghost var before := finished;
        OutEdge(g, u, k);
        WalkSnoc(g.E(), path, u, targets[k]);
        UnseenMonotone(g.V(), here, old(finished), finished);
        found := Follow(g, targets[k], here);
        if found {
          return;
        }
        CoversNext(finished, before, old(finished), targets, k);
      }
      assert targets[..|targets|] == targets;
      ColorNext(color, g.V(), path, finished, u);
      color := color[u := Black];
      assert Covers(finished, targets);
      FinishNext(g, u, finished);
      finished := finished + [u];
      return false;
    }

    /** Follows one out-edge of the last vertex of the gray path. */
    method Follow(g: Digraph, t: int, ghost here: seq<int>) returns (found: bool)
      requires g.Valid() && t in g.V() && Consistent(g.V(), g.E(), here)
      requires Walk(g.E(), here + [t])
      modifies this
      ensures !found ==> Consistent(g.V(), g.E(), here) && circuit == old(circuit)
      ensures !found ==> Covers(finished, old(finished) + [t])
      ensures found ==> Returns(g.E(), here, old(circuit), circuit)
      decreases Unseen(g.V(), here, finished), 1
    {
      found := false;
      if color[t] == White {
        found := Visit(g, t, here);
        if found {
          CloseCircuit(g.E(), here, t, old(circuit), circuit);
          circuit := circuit + [t];
        }
      } else if color[t] == Gray {
        MeetsAncestor(g.E(), here, t, circuit);
        circuit := circuit + [t];
        found := true;
      }
    }
  }

  /** Every vertex of s is listed. */
  ghost predicate Covers(listed: seq<int>, s: seq<int>) {
    forall x :: x in s ==> x in listed
  }

  lemma CoversNext(finished: seq<int>, before: seq<int>, first: seq<int>, targets: seq<int>, k: nat)
    requires k < |targets| && Covers(before, first + targets[..k]) && Covers(finished, before + [targets[k]])
    ensures Covers(finished, first + targets[..k + 1])
  {
    assert targets[..k + 1] == targets[..k] + [targets[k]];
    forall x | x in first + targets[..k + 1] ensures x in finished {
      assert x in first + targets[..k] || x == targets[k];
      assert x in before + [targets[k]];
    }
  }

  ghost function Unseen(V: set<int>, path: seq<int>, finished: seq<int>): set<int> {
    set v | v in V && v !in path && v !in finished
  }

  lemma UnseenShrinks(V: set<int>, path: seq<int>, u: int, finished: seq<int>)
    requires u in V && u !in path && u !in finished
    ensures Unseen(V, path + [u], finished) < Unseen(V, path, finished)
  {
    assert u in Unseen(V, path, finished) && u !in Unseen(V, path + [u], finished);
  }

  lemma UnseenMonotone(V: set<int>, path: seq<int>, finished: seq<int>, later: seq<int>)
    requires Covers(later, finished)
    ensures Unseen(V, path, later) <= Unseen(V, path, finished)
  {
    forall v | v in Unseen(V, path, later) ensures v in Unseen(V, path, finished) {
      assert v in finished ==> v in later;
    }
  }

  lemma OutEdge(g: Digraph, u: int, k: nat)
    requires g.Valid() && u in g.V() && k < |g.outs[u]|
    ensures g.outs[u][k] in g.V() && (u, g.outs[u][k]) in g.E()
  {
    g.EdgeEnds();
    assert Listed(g.outs, u, g.outs[u][k]);
  }

  /** What has been pushed on the circuit stack since `before`, reversed, closes a walk along stem. */
  ghost predicate Returns(E: Edges, stem: seq<int>, before: seq<int>, circuit: seq<int>) {
    before <= circuit && Lasso(E, stem, Reverse(circuit[|before|..]))
  }

  lemma CloseCircuit(E: Edges, here: seq<int>, t: int, before: seq<int>, circuit: seq<int>)
    requires Returns(E, here + [t], before, circuit)
    ensures Returns(E, here, before, circuit + [t])
  {
    var tail := circuit[|before|..];
    assert (circuit + [t])[|before|..] == tail + [t];
    ReverseSnoc(tail, t);
    LassoShift(E, here, t, Reverse(tail));
  }

  lemma MeetsAncestor(E: Edges, here: seq<int>, t: int, circuit: seq<int>)
    requires Walk(E, here + [t]) && t in here
    ensures Returns(E, here, circuit, circuit + [t])
  {
    assert (circuit + [t])[|circuit|..] == [t];
    assert Reverse([t]) == [t] && here + [t][..0] == here;
  }

  lemma WalkSnoc(E: Edges, path: seq<int>, u: int, t: int)
    requires Walk(E, path + [u]) && (u, t) in E
    ensures Walk(E, path + [u] + [t])
  {
    var w, w' := path + [u], path + [u] + [t];
    assert forall i :: 0 <= i < |w| ==> w'[i] == w[i];
    forall i | 0 <= i < |w'| - 1 ensures (w'[i], w'[i + 1]) in E {
      assert i < |w| - 1 ==> (w[i], w[i + 1]) in E;
    }
  }

  lemma FinishNext(g: Digraph, u: int, finished: seq<int>)
    requires g.Valid() && u in g.V() && Finished(g.E(), finished)
    requires Covers(finished, g.outs[u])
    ensures Finished(g.E(), finished + [u])
  {
    g.EdgeEnds();
    var f := finished + [u];
    forall i, b | 0 <= i < |f| && (f[i], b) in g.E() ensures b in f[..i] {
      if i < |finished| {
        assert f[..i] == finished[..i];
      } else {
        assert f[..i] == finished && Listed(g.outs, u, b);
      }
    }
  }

  /** Decides whether the graph has a cycle; on success the reversed circuit stack is the tail of
      a walk from some root that returns to itself. */
  method HasCycle(g: Digraph) returns (found: bool, circuit: seq<int>)
    requires g.Valid()
    ensures found <==> exists w :: Cycle(g.E(), w)
    ensures found ==> exists root :: root in g.V() && Returns(g.E(), [root], [], circuit)
    ensures !found ==> circuit == []
  {
    var search := new Search(g.vertices);
    for i := 0 to |g.vertices|
      invariant search.Consistent(g.V(), g.E(), []) && search.circuit == []
      invariant Covers(search.finished, g.vertices[..i])
    {
      var root := g.vertices[i];
      assert root in g.V() && g.vertices[..i + 1] == g.vertices[..i] + [root];
      if search.color[root] == White {
        found := search.Visit(g, root, []);
        if found {
          circuit := search.circuit;
          assert [] + [root] == [root];
          var w := LassoCycle(g.E(), [root], Reverse(circuit[0..]));
          return;
        }
      }
    }
    assert g.vertices[..|g.vertices|] == g.vertices;
    found, circuit := false, [];
    forall w ensures !Cycle(g.E(), w) {
      if Cycle(g.E(), w) {
        g.EdgeEnds();
        assert (w[0], w[1]) in g.E() && w[0] in g.V();
        FinishedAcyclic(g.E(), search.finished, w);
      }
    }
  }
}
