/** The in-place digraph of the feedback algorithm and its passes. A vertex is its stable label. */
module AdjacencyLists {
  import opened Digraphs
  import opened FeedbackTraces

  function Without(s: seq<int>, v: int): (r: seq<int>)
    ensures forall x :: x in r <==> x in s && x != v
  {
    if s == [] then []
    else if s[0] == v then Without(s[1..], v)
    else [s[0]] + Without(s[1..], v)
  }

  function RemoveAt(s: seq<int>, pos: nat): seq<int>
    requires pos < |s|
  {
    s[..pos] + s[pos + 1..]
  }

  lemma RemoveAtElements(s: seq<int>, pos: nat)
    requires pos < |s| && Distinct(s)
    ensures Distinct(RemoveAt(s, pos))
    ensures Elements(RemoveAt(s, pos)) == Elements(s) - {s[pos]}
  {
    var r := RemoveAt(s, pos);
    assert forall k :: 0 <= k < |r| ==> r[k] == if k < pos then s[k] else s[k + 1];
    forall x | x in s && x != s[pos] ensures x in r {
      var k :| 0 <= k < |s| && s[k] == x;
      assert x == if k < pos then r[k] else r[k - 1];
    }
  }

  type Neighbours = map<int, seq<int>>

  predicate Listed(m: Neighbours, u: int, w: int) {
    u in m && w in m[u]
  }

  ghost function EdgesOf(m: Neighbours): Edges {
    set u, w | u in m && w in m[u] :: (u, w)
  }

  lemma InEdgesOf(m: Neighbours, u: int, w: int)
    ensures (u, w) in EdgesOf(m) <==> Listed(m, u, w)
  {
  }

  /** The out-lists and the in-lists describe the same edges between the same vertices. */
  ghost predicate Mirrored(vertices: seq<int>, outs: Neighbours, ins: Neighbours) {
    && Distinct(vertices)
    && outs.Keys == Elements(vertices) && ins.Keys == Elements(vertices)
    && (forall u, w :: Listed(outs, u, w) <==> Listed(ins, w, u))
  }

  function Clear(m: Neighbours, v: int): Neighbours {
    map u | u in m && u != v :: Without(m[u], v)
  }

  lemma ClearEdges(m: Neighbours, v: int)
    ensures Clear(m, v).Keys == m.Keys - {v}
    ensures forall u, w :: Listed(Clear(m, v), u, w) <==> Listed(m, u, w) && u != v && w != v
    ensures EdgesOf(Clear(m, v)) == Delete(EdgesOf(m), v)
  {
    forall e ensures e in EdgesOf(Clear(m, v)) <==> e in Delete(EdgesOf(m), v) {
      InEdgesOf(m, e.0, e.1);
      InEdgesOf(Clear(m, v), e.0, e.1);
    }
  }

  /** No parallel edges. */
  ghost predicate NoneTwice(m: Neighbours) {
    forall u :: u in m ==> Distinct(m[u])
  }

  lemma {:induction false} WithoutDistinct(s: seq<int>, v: int)
    requires Distinct(s)
    ensures Distinct(Without(s, v))
  {
    if s != [] {
      WithoutDistinct(s[1..], v);
      assert s[0] !in s[1..];
    }
  }

  lemma ClearNoneTwice(m: Neighbours, v: int)
    requires NoneTwice(m)
    ensures NoneTwice(Clear(m, v))
  {
    forall u | u in m { WithoutDistinct(m[u], v); }
  }

  function Append(m: Neighbours, u: int, w: int): Neighbours
    requires u in m
  {
    m[u := m[u] + [w]]
  }

  lemma AppendNoneTwice(m: Neighbours, u: int, w: int)
    requires u in m && w !in m[u] && NoneTwice(m)
    ensures NoneTwice(Append(m, u, w))
  {
  }

  lemma AppendEdges(m: Neighbours, u: int, w: int)
    requires u in m
    ensures Append(m, u, w).Keys == m.Keys
    ensures forall x, y :: Listed(Append(m, u, w), x, y) <==> Listed(m, x, y) || (x, y) == (u, w)
    ensures EdgesOf(Append(m, u, w)) == EdgesOf(m) + {(u, w)}
  {
    forall e ensures e in EdgesOf(Append(m, u, w)) <==> e in EdgesOf(m) + {(u, w)} {
      InEdgesOf(m, e.0, e.1);
      InEdgesOf(Append(m, u, w), e.0, e.1);
    }
  }

  /** A bidirectional adjacency list: vertices in list order, out- and in-neighbours in edge order. */
  class Digraph {
    var vertices: seq<int>
    var outs: Neighbours
    var ins: Neighbours

    ghost predicate Valid()
      reads this
    {
      Mirrored(vertices, outs, ins)
    }

    ghost function V(): set<int>
      reads this
    {
      Elements(vertices)
    }

    ghost function E(): Edges
      reads this
    {
      EdgesOf(outs)
    }

    ghost function G(): Graph
      reads this
    {
      Graph(V(), E())
    }

    ghost predicate Simple()
      reads this
    {
      NoneTwice(outs) && NoneTwice(ins)
    }

    constructor Copy(g: Digraph)
      requires g.Valid()
      ensures Valid() && vertices == g.vertices && outs == g.outs && ins == g.ins
    {
      vertices, outs, ins := g.vertices, g.outs, g.ins;
    }

    lemma EdgeEnds()
      requires Valid()
      ensures Within(E(), V())
      ensures forall u, w :: (u, w) in E() <==> Listed(outs, u, w)
      ensures forall u, w :: (u, w) in E() <==> Listed(ins, w, u)
    {
      forall u, w ensures (u, w) in E() <==> Listed(outs, u, w) {
        InEdgesOf(outs, u, w);
      }
      forall u, w | (u, w) in E() ensures u in V() && w in V() {
        assert Listed(outs, u, w) && Listed(ins, w, u);
      }
    }

    /** Deletes the vertex at a position of the vertex list together with its edges. */
    method Suppress(pos: nat)
      requires Valid() && pos < |vertices|
      modifies this
      ensures Valid()
      ensures vertices == RemoveAt(old(vertices), pos)
      ensures V() == old(V()) - {old(vertices[pos])}
      ensures E() == Delete(old(E()), old(vertices[pos]))
      ensures old(Simple()) ==> Simple()
    {
      var v := vertices[pos];
      RemoveAtElements(vertices, pos);
      ClearEdges(outs, v);
      ClearEdges(ins, v);
      if Simple() {
        ClearNoneTwice(outs, v);
        ClearNoneTwice(ins, v);
      }
      outs := Clear(outs, v);
      ins := Clear(ins, v);
      vertices := RemoveAt(vertices, pos);
    }

    method AddEdge(u: int, w: int)
      requires Valid() && u in V() && w in V() && !Listed(outs, u, w)
      modifies `outs, `ins
      ensures Valid()
      ensures E() == old(E()) + {(u, w)}
      ensures old(Simple()) ==> Simple()
      ensures forall x :: x in V() && x != u ==> outs[x] == old(outs[x])
      ensures forall x :: x in V() && x != w ==> ins[x] == old(ins[x])
    {
      hide NoneTwice;
      AppendEdges(outs, u, w);
      AppendEdges(ins, w, u);
      if Simple() {
        AppendNoneTwice(outs, u, w);
        AppendNoneTwice(ins, w, u);
      }
      outs := Append(outs, u, w);
      ins := Append(ins, w, u);
    }

    /** Adds the missing edges from a vertex to the targets. */
    method JoinAll(u: int, targets: seq<int>)
      requires Valid() && u in V() && forall b :: b in targets ==> b in V()
      modifies `outs, `ins
      ensures Valid()
      ensures Joined(old(E()), E(), [u], targets)
      ensures old(Simple()) ==> Simple()
    {
      hide Simple;
      for j := 0 to |targets|
        invariant Valid() && Joined(old(E()), E(), [u], targets[..j])
        invariant old(Simple()) ==> Simple()
      {
        EdgeEnds();
        assert targets[..j + 1] == targets[..j] + [targets[j]];
        if targets[j] !in outs[u] {
          AddEdge(u, targets[j]);
        }
      }
      assert targets[..|targets|] == targets;
    }

    lemma NeighbourLists(v: int)
      requires Valid() && v in V()
      ensures forall a :: (a, v) in E() <==> a in ins[v]
      ensures forall b :: (v, b) in E() <==> b in outs[v]
      ensures forall a :: a in ins[v] || a in outs[v] ==> a in V()
    {
      EdgeEnds();
      forall a ensures (a, v) in E() <==> a in ins[v] {
        assert Listed(ins, v, a) <==> a in ins[v];
      }
      forall b ensures (v, b) in E() <==> b in outs[v] {
        assert Listed(outs, v, b) <==> b in outs[v];
      }
    }

    /** Joins all sources to all targets. */
    method JoinEach(sources: seq<int>, targets: seq<int>)
      requires Valid() && (forall a :: a in sources ==> a in V()) && (forall b :: b in targets ==> b in V())
      modifies `outs, `ins
      ensures Valid()
      ensures Joined(old(E()), E(), sources, targets)
      ensures old(Simple()) ==> Simple()
    {
      hide Simple, Mirrored, EdgesOf;
      ghost var E0 := E();
      for i := 0 to |sources|
        invariant Valid() && vertices == old(vertices)
        invariant Joined(E0, E(), sources[..i], targets)
        invariant old(Simple()) ==> Simple()
      {
        assert sources[..i + 1] == sources[..i] + [sources[i]];
        assert V() == old(V()) && sources[i] in sources;
        JoinAll(sources[i], targets);
      }
      assert sources[..|sources|] == sources;
    }

    /** Joins every predecessor of a vertex to every successor, then deletes the vertex. */
    method Eliminate(pos: nat)
      requires Valid() && pos < |vertices|
      modifies this
      ensures Valid()
      ensures vertices == RemoveAt(old(vertices), pos)
      ensures V() == old(V()) - {old(vertices[pos])}
      ensures E() == Contract(old(E()), old(vertices[pos]))
      ensures old(Simple()) ==> Simple()
    {
      hide Simple, EdgesOf, Contract, Delete;
      var v := vertices[pos];
      ghost var E0 := E();
      assert v in V();
      NeighbourLists(v);
      var sources, targets := ins[v], outs[v];
      if |sources| > 0 && |targets| > 0 {
        JoinEach(sources, targets);
      }
      JoinedContract(E0, E(), v, sources, targets);
      Suppress(pos);
    }
  }

  /** E1 is E0 with all edges from the sources to the targets. */
  ghost predicate Joined(E0: Edges, E1: Edges, sources: seq<int>, targets: seq<int>) {
    forall a, b :: (a, b) in E1 <==> (a, b) in E0 || (a in sources && b in targets)
  }

  lemma JoinedContract(E0: Edges, E1: Edges, v: int, sources: seq<int>, targets: seq<int>)
    requires forall a :: (a, v) in E0 <==> a in sources
    requires forall b :: (v, b) in E0 <==> b in targets
    requires Joined(E0, E1, sources, targets) || (E1 == E0 && (sources == [] || targets == []))
    ensures Delete(E1, v) == Contract(E0, v)
  {
    forall e ensures e in Delete(E1, v) <==> e in Contract(E0, v) {
      InContract(E0, v, e.0, e.1);
    }
  }
}
