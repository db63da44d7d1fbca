/** Derivation IDs and the columns of the Jacobian of the dynamic model. */
module JacobianColumns {
  import opened Expressions
  import opened Sets
  import Derivatives

  /** Pairs are ordered by the first component, then by the second. */
  predicate Before(a: (int, int), b: (int, int)) {
    a.0 < b.0 || (a.0 == b.0 && a.1 < b.1)
  }

  ghost predicate LeastOf(x: (int, int), s: set<(int, int)>) {
    x in s && forall y :: y in s && y != x ==> Before(x, y)
  }

  /** The first pair that the iteration over a sorted container visits. */
  lemma {:induction false} LeastExists(s: set<(int, int)>)
    requires s != {}
    ensures exists x :: LeastOf(x, s)
    decreases s
  {
    var x := Member(s);
    if s == {x} {
      assert LeastOf(x, s);
    } else {
      var rest := s - {x};
      LeastExists(rest);
      var z :| LeastOf(z, rest);
      var w := if Before(z, x) then z else x;
      forall y | y in s && y != w ensures Before(w, y) {
        assert y == x || y in rest;
      }
      assert LeastOf(w, s);
    }
  }

  // ----- symbols and variables

  function CountKind(kinds: seq<Kind>, k: Kind): nat {
    if kinds == [] then 0 else CountKind(kinds[..|kinds| - 1], k) + if kinds[|kinds| - 1] == k then 1 else 0
  }

  /** The number of a symbol among those of its type. */
  function TypeSpecificId(kinds: seq<Kind>, id: nat): nat
    requires id < |kinds|
  {
    CountKind(kinds[..id], kinds[id])
  }

  lemma {:induction false} TypeSpecificOrder(kinds: seq<Kind>, i: nat, j: nat)
    requires i < j <= |kinds|
    ensures TypeSpecificId(kinds, i) < CountKind(kinds[..j], kinds[i])
  {
    assert kinds[..j][..j - 1] == kinds[..j - 1];
    if i < j - 1 {
      TypeSpecificOrder(kinds, i, j - 1);
    }
  }

  /** Symbols of one type have different numbers, in their order, below the number of symbols of the type. */
  lemma TypeSpecificInjective(kinds: seq<Kind>, i: nat, j: nat)
    requires i < |kinds| && j < |kinds| && kinds[i] == kinds[j]
    ensures TypeSpecificId(kinds, i) == TypeSpecificId(kinds, j) <==> i == j
    ensures TypeSpecificId(kinds, i) < TypeSpecificId(kinds, j) <==> i < j
    ensures TypeSpecificId(kinds, i) < CountKind(kinds, kinds[i])
  {
    assert kinds[..|kinds|] == kinds;
    TypeSpecificOrder(kinds, i, |kinds|);
    if i < j {
      TypeSpecificOrder(kinds, i, j);
    } else if j < i {
      TypeSpecificOrder(kinds, j, i);
    }
  }

  /** The symbols of an expression are those of the symbol table. */
  predicate Typed(e: Expr, kinds: seq<Kind>) {
    match e
    case Var(s, _) => s.id < |kinds| && kinds[s.id] == s.kind
    case Un(_, arg) => Typed(arg, kinds)
    case Bin(_, l, r) => Typed(l, kinds) && Typed(r, kinds)
    case _ => true
  }

  /** The symbols of a type in an expression, with their leads and lags. */
  function CollectVariables(e: Expr, k: Kind): set<(int, int)> {
    match e
    case Var(s, lag) => if s.kind == k then {(s.id as int, lag)} else {}
    case Un(_, arg) => CollectVariables(arg, k)
    case Bin(_, l, r) => CollectVariables(l, k) + CollectVariables(r, k)
    case _ => {}
  }

  function Variables(es: seq<Expr>, k: Kind): set<(int, int)> {
    if es == [] then {} else Variables(es[..|es| - 1], k) + CollectVariables(es[|es| - 1], k)
  }

  predicate OfKind(v: (int, int), k: Kind, kinds: seq<Kind>) {
    0 <= v.0 < |kinds| && kinds[v.0] == k
  }

  lemma {:induction false} CollectedKind(e: Expr, k: Kind, kinds: seq<Kind>)
    requires Typed(e, kinds)
    ensures forall v :: v in CollectVariables(e, k) ==> OfKind(v, k, kinds)
  {
    match e
    case Un(_, arg) => CollectedKind(arg, k, kinds);
    case Bin(_, l, r) =>
      CollectedKind(l, k, kinds);
      CollectedKind(r, k, kinds);
    case _ =>
  }

  lemma {:induction false} VariablesKind(es: seq<Expr>, k: Kind, kinds: seq<Kind>)
    requires forall e :: e in es ==> Typed(e, kinds)
    ensures forall v :: v in Variables(es, k) ==> OfKind(v, k, kinds)
    decreases es
  {
    if es != [] {
      VariablesKind(es[..|es| - 1], k, kinds);
      CollectedKind(es[|es| - 1], k, kinds);
    }
  }

  /** All variables of the equations: each gets a derivation ID. */
  function AllVariables(es: seq<Expr>): set<(int, int)> {
    Variables(es, Endogenous) + Variables(es, Exogenous) + Variables(es, ExogenousDet) + Variables(es, Parameter)
    + Variables(es, Trend)
  }

  /** The symbol appears in an equation at the lead or lag, so that a derivative with respect to it need not be null. */
  ghost predicate Appears(es: seq<Expr>, s: Symbol, lag: int) {
    exists e :: e in es && (s, lag) in Derivatives.NonNull(e)
  }

  /** The set holds every variable of the equations, whatever the type of its symbol, and nothing else. */
  ghost predicate HoldsVariables(vs: set<(int, int)>, es: seq<Expr>, kinds: seq<Kind>) {
    forall v :: v in vs <==> 0 <= v.0 < |kinds| && Appears(es, Symbol(v.0, kinds[v.0]), v.1)
  }

  lemma {:induction false} CollectedAppear(e: Expr, k: Kind, id: nat, lag: int)
    ensures (id as int, lag) in CollectVariables(e, k) <==> (Symbol(id, k), lag) in Derivatives.NonNull(e)
  {
    match e
    case Un(_, arg) => CollectedAppear(arg, k, id, lag);
    case Bin(_, l, r) =>
      CollectedAppear(l, k, id, lag);
      CollectedAppear(r, k, id, lag);
    case _ =>
  }

  lemma {:induction false} VariablesAppear(es: seq<Expr>, k: Kind, id: nat, lag: int)
    ensures (id as int, lag) in Variables(es, k) <==> Appears(es, Symbol(id, k), lag)
    decreases es
  {
    if es != [] {
      var init, last := es[..|es| - 1], es[|es| - 1];
      VariablesAppear(init, k, id, lag);
      CollectedAppear(last, k, id, lag);
      assert forall e :: e in es <==> e in init || e == last;
    }
  }

  lemma AllAppear(es: seq<Expr>, kinds: seq<Kind>)
    requires forall e :: e in es ==> Typed(e, kinds)
    ensures HoldsVariables(AllVariables(es), es, kinds)
  {
    hide Variables, Appears;
    AllKinds(es, kinds);
    hide AllVariables;
    forall v: (int, int)
      ensures v in AllVariables(es) <==> 0 <= v.0 < |kinds| && Appears(es, Symbol(v.0, kinds[v.0]), v.1)
    {
      if 0 <= v.0 < |kinds| {
        var id: nat := v.0;
        VariablesAppear(es, kinds[id], id, v.1);
        OwnKind(es, kinds, v);
      }
    }
  }

  /** A variable is collected with the symbols of its own type. */
  lemma OwnKind(es: seq<Expr>, kinds: seq<Kind>, v: (int, int))
    requires 0 <= v.0 < |kinds| && forall e :: e in es ==> Typed(e, kinds)
    ensures v in AllVariables(es) <==> v in Variables(es, kinds[v.0])
  {
    VariablesKind(es, Endogenous, kinds);
    VariablesKind(es, Exogenous, kinds);
    VariablesKind(es, ExogenousDet, kinds);
    VariablesKind(es, Parameter, kinds);
    VariablesKind(es, Trend, kinds);
    var own := kinds[v.0];
    assert own == Endogenous || own == Exogenous || own == ExogenousDet || own == Parameter || own == Trend;
  }

  /** The number of variables of endogenous symbols in a list. */
  function EndoCount(vs: seq<(int, int)>, kinds: seq<Kind>): nat {
    if vs == [] then 0
    else EndoCount(vs[..|vs| - 1], kinds) + if OfKind(vs[|vs| - 1], Endogenous, kinds) then 1 else 0
  }

  lemma EndoCountMore(vs: seq<(int, int)>, v: (int, int), kinds: seq<Kind>)
    ensures EndoCount(vs + [v], kinds) == EndoCount(vs, kinds) + if OfKind(v, Endogenous, kinds) then 1 else 0
  {
    assert (vs + [v])[..|vs|] == vs;
  }

  // ----- derivation IDs

  /** The two tables are inverse to each other, and the IDs follow the order of the variables. */
  ghost predicate Numbering(table: map<(int, int), nat>, inv: seq<(int, int)>) {
    && (forall i :: 0 <= i < |inv| ==> inv[i] in table && table[inv[i]] == i)
    && (forall v :: v in table ==> table[v] < |inv| && inv[table[v]] == v)
    && (forall i, j :: 0 <= i < j < |inv| ==> Before(inv[i], inv[j]))
  }

  lemma NumberingMore(table: map<(int, int), nat>, inv: seq<(int, int)>, v: (int, int))
    requires Numbering(table, inv) && forall w :: w in table ==> Before(w, v)
    ensures Numbering(table[v := |inv|], inv + [v])
  {
    assert v !in table;
    assert forall i :: 0 <= i < |inv| ==> inv[i] in table;
  }

  // ----- columns

  /** The place of an endogenous variable: by lead or lag, then by the number of its symbol. */
  function Place(v: (int, int), kinds: seq<Kind>): (int, int)
    requires 0 <= v.0 < |kinds|
  {
    (v.1, TypeSpecificId(kinds, v.0))
  }

  lemma PlaceInjective(v: (int, int), w: (int, int), kinds: seq<Kind>)
    requires OfKind(v, Endogenous, kinds) && OfKind(w, Endogenous, kinds) && Place(v, kinds) == Place(w, kinds)
    ensures v == w
  {
    TypeSpecificInjective(kinds, v.0, w.0);
  }

  predicate Known(inv: seq<(int, int)>, kinds: seq<Kind>) {
    forall i :: 0 <= i < |inv| ==> 0 <= inv[i].0 < |kinds|
  }

  /** The derivation IDs as symbols with leads and lags. */
  function DerivIds(inv: seq<(int, int)>, kinds: seq<Kind>): (ids: seq<(Symbol, int)>)
    requires Known(inv, kinds)
    ensures |ids| == |inv| && forall i :: 0 <= i < |inv| ==> ids[i] == (Symbol(inv[i].0, kinds[inv[i].0]), inv[i].1)
  {
    seq(|inv|, i requires 0 <= i < |inv| => (Symbol(inv[i].0, kinds[inv[i].0]), inv[i].1))
  }

  predicate IsEndo(inv: seq<(int, int)>, kinds: seq<Kind>, i: nat)
    requires i < |inv|
  {
    OfKind(inv[i], Endogenous, kinds)
  }

  /** Exogenous variables, and deterministic ones, are found behind the endogenous ones by the number of the symbol. */
  function ExoColumn(inv: seq<(int, int)>, kinds: seq<Kind>, i: nat): (c: int)
    requires i < |inv| && Known(inv, kinds)
  {
    var k := kinds[inv[i].0];
    if k == Exogenous then EndoCount(inv, kinds) + TypeSpecificId(kinds, inv[i].0)
    else if k == ExogenousDet then
      EndoCount(inv, kinds) + CountKind(kinds, Exogenous) + TypeSpecificId(kinds, inv[i].0)
    else -1
  }

  /** The columns of the Jacobian: the endogenous variables sorted by lead or lag and symbol, without a gap; and, when
      asked for, the exogenous ones behind them. */
  ghost predicate Columns(cols: map<nat, nat>, inv: seq<(int, int)>, kinds: seq<Kind>, exo: bool)
    requires Known(inv, kinds)
  {
    && (forall i :: i in cols ==> i < |inv| && (IsEndo(inv, kinds, i) || (exo && ExoColumn(inv, kinds, i) >= 0)))
    && (forall i: nat :: i < |inv| && IsEndo(inv, kinds, i) ==> i in cols && cols[i] < EndoCount(inv, kinds))
    && (forall i: nat, j: nat :: i < |inv| && j < |inv| && IsEndo(inv, kinds, i) && IsEndo(inv, kinds, j)
                                 && i in cols && j in cols ==>
          (cols[i] < cols[j] <==> Before(Place(inv[i], kinds), Place(inv[j], kinds))))
    && (forall c: nat :: c < EndoCount(inv, kinds) ==> c in cols.Values)
    && (forall i: nat :: i < |inv| && exo && ExoColumn(inv, kinds, i) >= 0 ==>
          i in cols && cols[i] == ExoColumn(inv, kinds, i))
  }

  function ColumnCount(inv: seq<(int, int)>, kinds: seq<Kind>, exo: bool): nat {
    EndoCount(inv, kinds) + if exo then CountKind(kinds, Exogenous) + CountKind(kinds, ExogenousDet) else 0
  }

  predicate Injective(cols: map<nat, nat>) {
    forall v, w :: v in cols && w in cols && cols[v] == cols[w] ==> v == w
  }

  /** No exogenous symbol appears with two leads or lags. */
  predicate OneLag(inv: seq<(int, int)>, kinds: seq<Kind>)
    requires Known(inv, kinds)
  {
    forall i, j :: 0 <= i < j < |inv| && ExoColumn(inv, kinds, i) >= 0 ==> inv[i].0 != inv[j].0
  }

  lemma ColumnBelow(cols: map<nat, nat>, inv: seq<(int, int)>, kinds: seq<Kind>, exo: bool, i: nat)
    requires Known(inv, kinds) && Columns(cols, inv, kinds, exo) && i in cols
    ensures cols[i] < ColumnCount(inv, kinds, exo)
  {
    var id := inv[i].0;
    TypeSpecificInjective(kinds, id, id);
  }

  /** Two variables share a column exactly when an exogenous symbol appears with two leads or lags. */
  lemma ColumnsInjective(cols: map<nat, nat>, inv: seq<(int, int)>, kinds: seq<Kind>, exo: bool)
    requires Known(inv, kinds) && Columns(cols, inv, kinds, exo)
    requires forall i, j :: 0 <= i < j < |inv| ==> Before(inv[i], inv[j])
    ensures Injective(cols) <==> !exo || OneLag(inv, kinds)
  {
    if !exo || OneLag(inv, kinds) {
      forall v, w | v in cols && w in cols && cols[v] == cols[w] ensures v == w {
        SharedColumn(cols, inv, kinds, exo, v, w);
      }
    } else {
      var i, j :| 0 <= i < j < |inv| && ExoColumn(inv, kinds, i) >= 0 && inv[i].0 == inv[j].0;
      assert ExoColumn(inv, kinds, j) == ExoColumn(inv, kinds, i);
    }
  }

  lemma SharedColumn(cols: map<nat, nat>, inv: seq<(int, int)>, kinds: seq<Kind>, exo: bool, v: nat, w: nat)
    requires Known(inv, kinds) && Columns(cols, inv, kinds, exo) && v in cols && w in cols && cols[v] == cols[w]
    requires forall i, j :: 0 <= i < j < |inv| ==> Before(inv[i], inv[j])
    ensures v == w || (exo && inv[v].0 == inv[w].0 && ExoColumn(inv, kinds, v) >= 0)
  {
    var a, b := inv[v], inv[w];
    TypeSpecificInjective(kinds, a.0, a.0);
    TypeSpecificInjective(kinds, b.0, b.0);
    if kinds[a.0] == kinds[b.0] {
      TypeSpecificInjective(kinds, a.0, b.0);
      if kinds[a.0] == Endogenous {
        assert IsEndo(inv, kinds, v) && IsEndo(inv, kinds, w);
        assert !Before(Place(a, kinds), Place(b, kinds)) && !Before(Place(b, kinds), Place(a, kinds));
        PlaceInjective(a, b, kinds);
      }
    }
  }

  // ----- the tables

  /** A table of the numbers below n, in the order of the places: the ranks of what is found there. */
  ghost predicate Ranked(ordered: map<(int, int), nat>, ranks: map<nat, nat>) {
    ranks.Keys == ordered.Values && RankOrder(ordered, ranks) && RankOnto(|ordered|, ranks)
  }

  predicate PairOrder(ordered: map<(int, int), nat>, ranks: map<nat, nat>, k: (int, int), l: (int, int)) {
    && k in ordered && l in ordered && ordered[k] in ranks && ordered[l] in ranks
    && ranks[ordered[k]] < |ordered|
    && (ranks[ordered[k]] < ranks[ordered[l]] <==> Before(k, l))
  }

  ghost predicate RankOrder(ordered: map<(int, int), nat>, ranks: map<nat, nat>) {
    forall k, l :: k in ordered && l in ordered ==> PairOrder(ordered, ranks, k, l)
  }

  ghost predicate RankOnto(n: nat, ranks: map<nat, nat>) {
    forall c: nat :: c < n ==> c in ranks.Values
  }

  ghost predicate OneToOne(ordered: map<(int, int), nat>) {
    forall k, l :: k in ordered && l in ordered && ordered[k] == ordered[l] ==> k == l
  }

  function Part(ordered: map<(int, int), nat>, keys: set<(int, int)>): map<(int, int), nat> {
    map k | k in ordered && k in keys :: ordered[k]
  }

  lemma ValuesMore<K, V>(a: map<K, V>, k: K, v: V)
    requires k !in a
    ensures a[k := v].Values == a.Values + {v} && a[k := v].Keys == a.Keys + {k} && |a[k := v]| == |a| + 1
  {
    var more := a[k := v];
    assert more.Keys == a.Keys + {k} && |more.Keys| == |a.Keys| + 1;
    forall x | x in a.Values + {v} ensures x in more.Values {
      if x in a.Values {
        var l :| l in a && a[l] == x;
        assert l in more && more[l] == x;
      } else {
        assert more[k] == x;
      }
    }
    forall x | x in more.Values ensures x in a.Values + {v} {
      var l :| l in more && more[l] == x;
      assert l == k || (l in a && a[l] == x);
    }
  }

  lemma RankedMore(ordered: map<(int, int), nat>, ranks: map<nat, nat>, k: (int, int), v: nat)
    requires Ranked(ordered, ranks) && forall l :: l in ordered ==> Before(l, k)
    requires k !in ordered && v !in ordered.Values
    ensures Ranked(ordered[k := v], ranks[v := |ordered|])
  {
    hide RankOrder, RankOnto;
    KeysOfRanks(ordered, ranks, k, v);
    OntoMore(|ordered|, ranks, v);
    RanksInOrder(ordered, ranks, k, v);
  }

  lemma KeysOfRanks(ordered: map<(int, int), nat>, ranks: map<nat, nat>, k: (int, int), v: nat)
    requires ranks.Keys == ordered.Values && k !in ordered && v !in ordered.Values
    ensures v !in ranks && ranks[v := |ordered|].Keys == ordered[k := v].Values && |ordered[k := v]| == |ordered| + 1
  {
    ValuesMore(ordered, k, v);
    assert ranks[v := |ordered|].Keys == ranks.Keys + {v};
  }

  lemma OntoMore(n: nat, ranks: map<nat, nat>, v: nat)
    requires RankOnto(n, ranks) && v !in ranks
    ensures RankOnto(n + 1, ranks[v := n])
  {
    ValuesMore(ranks, v, n);
  }

  lemma RankAt(ordered: map<(int, int), nat>, ranks: map<nat, nat>, k: (int, int), v: nat, a: (int, int))
    requires RankOrder(ordered, ranks) && k !in ordered && v !in ordered.Values && (a == k || a in ordered)
    ensures var i, ranked := ordered[k := v][a], ranks[v := |ordered|];
            i in ranked && ranked[i] == if a == k then |ordered| else ranks[ordered[a]]
    ensures a != k ==> ordered[a] in ranks && ranks[ordered[a]] < |ordered|
  {
    assert a != k ==> ordered[a] in ordered.Values && PairOrder(ordered, ranks, a, a);
  }

  lemma PairMore(ordered: map<(int, int), nat>, ranks: map<nat, nat>, k: (int, int), v: nat, a: (int, int),
                 b: (int, int))
    requires RankOrder(ordered, ranks) && k !in ordered && v !in ordered.Values
    requires a == k || (a in ordered && Before(a, k))
    requires b == k || (b in ordered && Before(b, k))
    ensures PairOrder(ordered[k := v], ranks[v := |ordered|], a, b)
  {
    RankAt(ordered, ranks, k, v, a);
    RankAt(ordered, ranks, k, v, b);
    assert ordered[k := v].Keys == ordered.Keys + {k} && |ordered[k := v].Keys| == |ordered.Keys| + 1;
    assert a in ordered && b in ordered ==> PairOrder(ordered, ranks, a, b);
    hide RankOrder;
  }

  lemma RanksInOrder(ordered: map<(int, int), nat>, ranks: map<nat, nat>, k: (int, int), v: nat)
    requires RankOrder(ordered, ranks) && forall l :: l in ordered ==> Before(l, k)
    requires k !in ordered && v !in ordered.Values
    ensures RankOrder(ordered[k := v], ranks[v := |ordered|])
  {
    hide PairOrder, Before;
    var more := ordered[k := v];
    forall a, b | a in more && b in more ensures PairOrder(more, ranks[v := |ordered|], a, b) {
      PairMore(ordered, ranks, k, v, a, b);
    }
  }

  /** Numbers the entries in the order of their keys. */
  method Rank(ordered: map<(int, int), nat>) returns (ranks: map<nat, nat>)
    requires OneToOne(ordered)
    ensures Ranked(ordered, ranks)
  {
    hide Ranked;
    ranks := map[];
    var rest, sortedId := ordered.Keys, 0;
    NothingRanked(ordered);
    while rest != {}
      invariant rest <= ordered.Keys && sortedId == |Part(ordered, ordered.Keys - rest)|
      invariant Ranked(Part(ordered, ordered.Keys - rest), ranks)
      invariant forall k, l :: k in ordered && k !in rest && l in rest ==> Before(k, l)
    {
      LeastExists(rest);
      var k :| k in rest && forall y :: y in rest && y != k ==> Before(k, y);
      ghost var done := Part(ordered, ordered.Keys - rest);
      PartMore(ordered, rest, k);
      RankedMore(done, ranks, k, ordered[k]);
      ranks := ranks[ordered[k] := sortedId];
      rest, sortedId := rest - {k}, sortedId + 1;
    }
    assert Part(ordered, ordered.Keys - {}) == ordered;
  }

  lemma NothingRanked(ordered: map<(int, int), nat>)
    ensures Ranked(Part(ordered, ordered.Keys - ordered.Keys), map[])
    ensures |Part(ordered, ordered.Keys - ordered.Keys)| == 0
  {
    assert Part(ordered, ordered.Keys - ordered.Keys) == map[];
  }

  lemma PartMore(ordered: map<(int, int), nat>, rest: set<(int, int)>, k: (int, int))
    requires OneToOne(ordered) && k in rest && rest <= ordered.Keys
    ensures var done, more := Part(ordered, ordered.Keys - rest), Part(ordered, ordered.Keys - (rest - {k}));
            more == done[k := ordered[k]] && OneToOne(more) && k !in done && ordered[k] !in done.Values
            && |more| == |done| + 1
  {
    var done, more := Part(ordered, ordered.Keys - rest), Part(ordered, ordered.Keys - (rest - {k}));
    assert more == done[k := ordered[k]];
    assert more.Keys == done.Keys + {k};
    assert |more.Keys| == |done.Keys| + 1;
  }

  /** What the first pass over the derivation IDs has collected: the endogenous variables under their places... */
  ghost predicate Sorted(ordered: map<(int, int), nat>, inv: seq<(int, int)>, kinds: seq<Kind>, n: nat)
    requires n <= |inv| && Known(inv, kinds)
  {
    && (forall i: nat :: i < n && IsEndo(inv, kinds, i) ==> Found(ordered, inv, kinds, i))
    && (forall k :: k in ordered ==> FoundAt(ordered, inv, kinds, n, k))
    && |ordered| == EndoCount(inv[..n], kinds)
  }

  predicate Found(ordered: map<(int, int), nat>, inv: seq<(int, int)>, kinds: seq<Kind>, i: nat)
    requires i < |inv| && Known(inv, kinds)
  {
    Place(inv[i], kinds) in ordered && ordered[Place(inv[i], kinds)] == i
  }

  predicate FoundAt(ordered: map<(int, int), nat>, inv: seq<(int, int)>, kinds: seq<Kind>, n: nat, k: (int, int))
    requires n <= |inv| && Known(inv, kinds) && k in ordered
  {
    ordered[k] < n && IsEndo(inv, kinds, ordered[k]) && Place(inv[ordered[k]], kinds) == k
  }

  /** ... and the columns of the exogenous ones. */
  ghost predicate ExoColumns(cols: map<nat, nat>, inv: seq<(int, int)>, kinds: seq<Kind>, exo: bool, n: nat)
    requires n <= |inv| && Known(inv, kinds)
  {
    && (forall i: nat :: i in cols ==> i < n && exo && ExoColumn(inv, kinds, i) >= 0)
    && (forall i: nat :: i < n && exo && ExoColumn(inv, kinds, i) >= 0 ==> HasColumn(cols, i, inv, kinds))
  }

  predicate HasColumn(cols: map<nat, nat>, i: nat, inv: seq<(int, int)>, kinds: seq<Kind>)
    requires i < |inv| && Known(inv, kinds)
  {
    i in cols && cols[i] == ExoColumn(inv, kinds, i)
  }

  class DerivationTables {
    const kinds: seq<Kind>
    var derivIdTable: map<(int, int), nat>
    var invDerivIdTable: seq<(int, int)>
    var dynJacobianColsNbr: nat
    var dynJacobianColsTable: map<nat, nat>

    constructor (kinds: seq<Kind>)
      ensures this.kinds == kinds && derivIdTable == map[] && invDerivIdTable == [] && dynJacobianColsTable == map[]
    {
      this.kinds := kinds;
      derivIdTable, invDerivIdTable, dynJacobianColsNbr, dynJacobianColsTable := map[], [], 0, map[];
    }

    /** Collects the variables of a type from all equations. */
    method Collect(equations: seq<Expr>, k: Kind) returns (vs: set<(int, int)>)
      ensures vs == Variables(equations, k)
    {
      vs := {};
      for i := 0 to |equations|
        invariant vs == Variables(equations[..i], k)
      {
        assert equations[..i + 1][..i] == equations[..i];
        vs := vs + CollectVariables(equations[i], k);
      }
      assert equations[..|equations|] == equations;
    }

    /** Numbers the variables of the equations. */
    method ComputeDerivIDs(equations: seq<Expr>)
      requires derivIdTable == map[] && invDerivIdTable == []
      requires forall e :: e in equations ==> Typed(e, kinds)
      modifies `derivIdTable, `invDerivIdTable, `dynJacobianColsNbr
      ensures Numbering(derivIdTable, invDerivIdTable) && derivIdTable.Keys == AllVariables(equations)
      ensures HoldsVariables(derivIdTable.Keys, equations, kinds)
      ensures Known(invDerivIdTable, kinds) && dynJacobianColsNbr == EndoCount(invDerivIdTable, kinds)
    {
      var endo := Collect(equations, Endogenous);
      dynJacobianColsNbr := |endo|;
      var exo := Collect(equations, Exogenous);
      var exoDet := Collect(equations, ExogenousDet);
      var param := Collect(equations, Parameter);
      var trend := Collect(equations, Trend);
      AllKinds(equations, kinds);
      AllAppear(equations, kinds);
      var dynvars := endo + exo + exoDet + param + trend;
      NumberVariables(dynvars, endo);
    }

    /** The loop over the sorted set of variables. */
    method NumberVariables(dynvars: set<(int, int)>, ghost endo: set<(int, int)>)
      requires derivIdTable == map[] && invDerivIdTable == []
      requires forall v :: v in dynvars ==> 0 <= v.0 < |kinds|
      requires forall v :: v in endo <==> v in dynvars && OfKind(v, Endogenous, kinds)
      modifies `derivIdTable, `invDerivIdTable
      ensures Numbering(derivIdTable, invDerivIdTable) && derivIdTable.Keys == dynvars
      ensures Known(invDerivIdTable, kinds) && EndoCount(invDerivIdTable, kinds) == |endo|
    {
      hide Progress;
      var rest := dynvars;
      NoProgress(dynvars, endo, kinds);
      while rest != {}
        invariant rest <= dynvars && Progress(derivIdTable, invDerivIdTable, dynvars, rest, endo, kinds)
      {
        LeastExists(rest);
        var v :| v in rest && forall y :: y in rest && y != v ==> Before(v, y);
        Progresses(derivIdTable, invDerivIdTable, dynvars, rest, endo, kinds, v);
        var derivId := |derivIdTable|;
        derivIdTable, invDerivIdTable := derivIdTable[v := derivId], invDerivIdTable + [v];
        rest := rest - {v};
      }
      AllProgress(derivIdTable, invDerivIdTable, dynvars, endo, kinds);
    }

    /** The pass over the derivation IDs: sorts the endogenous variables, and assigns the columns of the others. */
    method CollectColumns(jacobianExo: bool) returns (ordered: map<(int, int), nat>)
      requires Numbering(derivIdTable, invDerivIdTable) && Known(invDerivIdTable, kinds)
      requires dynJacobianColsNbr == EndoCount(invDerivIdTable, kinds) && dynJacobianColsTable == map[]
      modifies `dynJacobianColsTable
      ensures Sorted(ordered, invDerivIdTable, kinds, |invDerivIdTable|)
      ensures ExoColumns(dynJacobianColsTable, invDerivIdTable, kinds, jacobianExo, |invDerivIdTable|)
    {
      hide Sorted, ExoColumns;
      var inv := invDerivIdTable;
      ordered := map[];
      NothingSorted(inv, kinds, jacobianExo);
      for i := 0 to |inv|
        invariant Sorted(ordered, inv, kinds, i) && ExoColumns(dynJacobianColsTable, inv, kinds, jacobianExo, i)
      {
        var (symb, lag) := inv[i];
        var tsid := TypeSpecificId(kinds, symb);
        SortedMore(ordered, inv, kinds, i);
        ExoColumnsMore(dynJacobianColsTable, inv, kinds, jacobianExo, i);
        match kinds[symb] {
          case Endogenous => ordered := ordered[(lag, tsid) := i];
          case Exogenous =>
            if jacobianExo {
              dynJacobianColsTable := dynJacobianColsTable[i := dynJacobianColsNbr + tsid];
            }
          case ExogenousDet =>
            if jacobianExo {
              dynJacobianColsTable := dynJacobianColsTable[i := dynJacobianColsNbr + CountKind(kinds, Exogenous) + tsid];
            }
          case _ =>
        }
      }
    }

    /** Assigns the columns of the Jacobian. */
    method ComputeDynJacobianCols(jacobianExo: bool)
      requires Numbering(derivIdTable, invDerivIdTable) && Known(invDerivIdTable, kinds)
      requires dynJacobianColsNbr == EndoCount(invDerivIdTable, kinds) && dynJacobianColsTable == map[]
      modifies `dynJacobianColsNbr, `dynJacobianColsTable
      ensures Columns(dynJacobianColsTable, invDerivIdTable, kinds, jacobianExo)
      ensures dynJacobianColsNbr == ColumnCount(invDerivIdTable, kinds, jacobianExo)
    {
      hide Sorted, ExoColumns, Ranked, Columns, EndoCount, CountKind;
      var ordered := CollectColumns(jacobianExo);
      SortedOneToOne(ordered, invDerivIdTable, kinds);
      var ranks := Rank(ordered);
      ColumnsFrom(ordered, ranks, dynJacobianColsTable, invDerivIdTable, kinds, jacobianExo);
      dynJacobianColsTable := dynJacobianColsTable + ranks;
      if jacobianExo {
        dynJacobianColsNbr := dynJacobianColsNbr + (CountKind(kinds, Exogenous) + CountKind(kinds, ExogenousDet));
      }
    }
  }

  /** How far the numbering of the variables has come; rest is what remains of the set. */
  ghost predicate Progress(table: map<(int, int), nat>, inv: seq<(int, int)>, dynvars: set<(int, int)>,
                           rest: set<(int, int)>, endo: set<(int, int)>, kinds: seq<Kind>) {
    && table.Keys == dynvars - rest && |table| == |inv| && Numbering(table, inv) && Known(inv, kinds)
    && (forall v, w :: v in table && w in rest ==> Before(v, w))
    && EndoCount(inv, kinds) + |endo * rest| == |endo|
  }

  lemma NoProgress(dynvars: set<(int, int)>, endo: set<(int, int)>, kinds: seq<Kind>)
    requires endo <= dynvars
    ensures Progress(map[], [], dynvars, dynvars, endo, kinds)
  {
    assert endo * dynvars == endo;
  }

  lemma Progresses(table: map<(int, int), nat>, inv: seq<(int, int)>, dynvars: set<(int, int)>,
                   rest: set<(int, int)>, endo: set<(int, int)>, kinds: seq<Kind>, v: (int, int))
    requires Progress(table, inv, dynvars, rest, endo, kinds) && rest <= dynvars
    requires v in rest && forall y :: y in rest && y != v ==> Before(v, y)
    requires 0 <= v.0 < |kinds| && (v in endo <==> OfKind(v, Endogenous, kinds))
    ensures Progress(table[v := |table|], inv + [v], dynvars, rest - {v}, endo, kinds)
  {
    hide Before, EndoCount, Numbering, OfKind;
    KeysMore(table, dynvars, rest, v);
    FewerLeft(endo, rest, v);
    EndoCountMore(inv, v, kinds);
    NumberingMore(table, inv, v);
  }

  lemma KeysMore(table: map<(int, int), nat>, dynvars: set<(int, int)>, rest: set<(int, int)>, v: (int, int))
    requires table.Keys == dynvars - rest && v in rest && rest <= dynvars
    ensures table[v := |table|].Keys == dynvars - (rest - {v}) && |table[v := |table|]| == |table| + 1
  {
    assert table[v := |table|].Keys == table.Keys + {v};
    assert |table[v := |table|].Keys| == |table.Keys| + 1;
  }

  lemma FewerLeft(endo: set<(int, int)>, rest: set<(int, int)>, v: (int, int))
    requires v in rest
    ensures |endo * (rest - {v})| == |endo * rest| - if v in endo then 1 else 0
  {
    assert endo * (rest - {v}) == endo * rest - {v};
  }

  lemma AllProgress(table: map<(int, int), nat>, inv: seq<(int, int)>, dynvars: set<(int, int)>,
                    endo: set<(int, int)>, kinds: seq<Kind>)
    requires Progress(table, inv, dynvars, {}, endo, kinds)
    ensures Numbering(table, inv) && table.Keys == dynvars && Known(inv, kinds) && EndoCount(inv, kinds) == |endo|
  {
    assert endo * {} == {};
  }

  lemma NothingSorted(inv: seq<(int, int)>, kinds: seq<Kind>, exo: bool)
    requires Known(inv, kinds)
    ensures Sorted(map[], inv, kinds, 0) && ExoColumns(map[], inv, kinds, exo, 0)
  {
  }

  lemma SortedOneToOne(ordered: map<(int, int), nat>, inv: seq<(int, int)>, kinds: seq<Kind>)
    requires Known(inv, kinds) && Sorted(ordered, inv, kinds, |inv|)
    ensures OneToOne(ordered)
  {
  }

  lemma ExoColumnsMore(cols: map<nat, nat>, inv: seq<(int, int)>, kinds: seq<Kind>, exo: bool, i: nat)
    requires i < |inv| && Known(inv, kinds) && ExoColumns(cols, inv, kinds, exo, i)
    ensures if exo && ExoColumn(inv, kinds, i) >= 0
            then ExoColumns(cols[i := ExoColumn(inv, kinds, i)], inv, kinds, exo, i + 1)
            else ExoColumns(cols, inv, kinds, exo, i + 1)
  {
    hide ExoColumn;
  }

  lemma AllKinds(equations: seq<Expr>, kinds: seq<Kind>)
    requires forall e :: e in equations ==> Typed(e, kinds)
    ensures forall v :: v in AllVariables(equations) ==> 0 <= v.0 < |kinds|
    ensures forall v :: v in Variables(equations, Endogenous)
                        <==> v in AllVariables(equations) && OfKind(v, Endogenous, kinds)
  {
    VariablesKind(equations, Endogenous, kinds);
    VariablesKind(equations, Exogenous, kinds);
    VariablesKind(equations, ExogenousDet, kinds);
    VariablesKind(equations, Parameter, kinds);
    VariablesKind(equations, Trend, kinds);
  }

  lemma SortedMore(ordered: map<(int, int), nat>, inv: seq<(int, int)>, kinds: seq<Kind>, i: nat)
    requires i < |inv| && Known(inv, kinds) && Sorted(ordered, inv, kinds, i)
    requires forall j, k :: 0 <= j < k < |inv| ==> Before(inv[j], inv[k])
    ensures IsEndo(inv, kinds, i) ==> Sorted(ordered[Place(inv[i], kinds) := i], inv, kinds, i + 1)
    ensures !IsEndo(inv, kinds, i) ==> Sorted(ordered, inv, kinds, i + 1)
  {
    hide Sorted;
    if IsEndo(inv, kinds, i) {
      PlaceFree(ordered, inv, kinds, i);
      SortedEndo(ordered, inv, kinds, i);
    } else {
      SortedOther(ordered, inv, kinds, i);
    }
  }

  lemma SortedOther(ordered: map<(int, int), nat>, inv: seq<(int, int)>, kinds: seq<Kind>, i: nat)
    requires i < |inv| && Known(inv, kinds) && Sorted(ordered, inv, kinds, i) && !IsEndo(inv, kinds, i)
    ensures Sorted(ordered, inv, kinds, i + 1)
  {
    hide Place, Found, EndoCount;
    assert inv[..i + 1] == inv[..i] + [inv[i]];
    EndoCountMore(inv[..i], inv[i], kinds);
    forall k | k in ordered ensures FoundAt(ordered, inv, kinds, i + 1, k) {
      assert FoundAt(ordered, inv, kinds, i, k);
    }
  }

  lemma SortedEndo(ordered: map<(int, int), nat>, inv: seq<(int, int)>, kinds: seq<Kind>, i: nat)
    requires i < |inv| && Known(inv, kinds) && Sorted(ordered, inv, kinds, i) && IsEndo(inv, kinds, i)
    requires Place(inv[i], kinds) !in ordered
    ensures Sorted(ordered[Place(inv[i], kinds) := i], inv, kinds, i + 1)
  {
    hide Place, Found, EndoCount;
    var k := Place(inv[i], kinds);
    var more := ordered[k := i];
    assert inv[..i + 1] == inv[..i] + [inv[i]];
    EndoCountMore(inv[..i], inv[i], kinds);
    assert more.Keys == ordered.Keys + {k} && |more.Keys| == |ordered.Keys| + 1;
    FoundMore(ordered, inv, kinds, i);
    forall l | l in more ensures FoundAt(more, inv, kinds, i + 1, l) {
      if l != k {
        assert FoundAt(ordered, inv, kinds, i, l);
      }
    }
  }

  lemma FoundMore(ordered: map<(int, int), nat>, inv: seq<(int, int)>, kinds: seq<Kind>, i: nat)
    requires i < |inv| && Known(inv, kinds) && IsEndo(inv, kinds, i) && Place(inv[i], kinds) !in ordered
    ensures Found(ordered[Place(inv[i], kinds) := i], inv, kinds, i)
    ensures forall j: nat :: j < |inv| && Found(ordered, inv, kinds, j) ==>
              Found(ordered[Place(inv[i], kinds) := i], inv, kinds, j)
  {
  }

  lemma PlaceFree(ordered: map<(int, int), nat>, inv: seq<(int, int)>, kinds: seq<Kind>, i: nat)
    requires i < |inv| && Known(inv, kinds) && Sorted(ordered, inv, kinds, i) && IsEndo(inv, kinds, i)
    requires forall j, k :: 0 <= j < k < |inv| ==> Before(inv[j], inv[k])
    ensures Place(inv[i], kinds) !in ordered
  {
    hide Place, EndoCount;
    var k := Place(inv[i], kinds);
    if k in ordered {
      PlaceInjective(inv[ordered[k]], inv[i], kinds);
    }
  }

  lemma ColumnsFrom(ordered: map<(int, int), nat>, ranks: map<nat, nat>, exoCols: map<nat, nat>, inv: seq<(int, int)>,
                    kinds: seq<Kind>, exo: bool)
    requires Known(inv, kinds) && Sorted(ordered, inv, kinds, |inv|) && ExoColumns(exoCols, inv, kinds, exo, |inv|)
    requires Ranked(ordered, ranks)
    ensures Columns(exoCols + ranks, inv, kinds, exo)
  {
    hide Ranked, Sorted, Place, ExoColumn;
    RankedKeys(ordered, ranks, inv, kinds);
    forall i: nat, j: nat | i < |inv| && j < |inv| && IsEndo(inv, kinds, i) && IsEndo(inv, kinds, j)
      ensures i in ranks && ranks[i] < EndoCount(inv, kinds)
      ensures j in ranks && (ranks[i] < ranks[j] <==> Before(Place(inv[i], kinds), Place(inv[j], kinds)))
    {
      RanksOf(ordered, ranks, inv, kinds, i, j);
    }
    forall c: nat | c < EndoCount(inv, kinds) ensures c in (exoCols + ranks).Values {
      RankTaken(ordered, ranks, exoCols, inv, kinds, c);
    }
    ExoStays(exoCols, ranks, inv, kinds, exo);
  }

  lemma RanksOf(ordered: map<(int, int), nat>, ranks: map<nat, nat>, inv: seq<(int, int)>, kinds: seq<Kind>, i: nat,
                j: nat)
    requires Known(inv, kinds) && Sorted(ordered, inv, kinds, |inv|) && Ranked(ordered, ranks)
    requires i < |inv| && j < |inv| && IsEndo(inv, kinds, i) && IsEndo(inv, kinds, j)
    ensures i in ranks && j in ranks && ranks[i] < EndoCount(inv, kinds)
    ensures ranks[i] < ranks[j] <==> Before(Place(inv[i], kinds), Place(inv[j], kinds))
  {
    hide Place, RankOnto;
    assert inv[..|inv|] == inv;
    assert PairOrder(ordered, ranks, Place(inv[i], kinds), Place(inv[j], kinds));
  }

  lemma RankTaken(ordered: map<(int, int), nat>, ranks: map<nat, nat>, exoCols: map<nat, nat>, inv: seq<(int, int)>,
                  kinds: seq<Kind>, c: nat)
    requires Known(inv, kinds) && Sorted(ordered, inv, kinds, |inv|) && Ranked(ordered, ranks)
    requires c < EndoCount(inv, kinds)
    ensures c in (exoCols + ranks).Values
  {
    assert inv[..|inv|] == inv;
    assert c in ranks.Values;
    var i :| i in ranks && ranks[i] == c;
    assert (exoCols + ranks)[i] == c;
  }

  lemma ExoStays(exoCols: map<nat, nat>, ranks: map<nat, nat>, inv: seq<(int, int)>, kinds: seq<Kind>, exo: bool)
    requires Known(inv, kinds) && ExoColumns(exoCols, inv, kinds, exo, |inv|)
    requires forall i: nat :: i in ranks <==> i < |inv| && IsEndo(inv, kinds, i)
    ensures forall i: nat :: i < |inv| && exo && ExoColumn(inv, kinds, i) >= 0 ==>
              i in exoCols && i !in ranks && exoCols[i] == ExoColumn(inv, kinds, i)
    ensures forall i: nat :: i in exoCols ==> i < |inv| && exo && ExoColumn(inv, kinds, i) >= 0
  {
    forall i: nat | i < |inv| && exo && ExoColumn(inv, kinds, i) >= 0
      ensures i in exoCols && i !in ranks && exoCols[i] == ExoColumn(inv, kinds, i)
    {
      assert !IsEndo(inv, kinds, i);
    }
  }

  lemma RankedKeys(ordered: map<(int, int), nat>, ranks: map<nat, nat>, inv: seq<(int, int)>, kinds: seq<Kind>)
    requires Known(inv, kinds) && Sorted(ordered, inv, kinds, |inv|) && Ranked(ordered, ranks)
    ensures forall i: nat :: i in ranks <==> i < |inv| && IsEndo(inv, kinds, i)
  {
    forall i: nat ensures i in ranks <==> i < |inv| && IsEndo(inv, kinds, i) {
      if i in ranks {
        assert i in ordered.Values;
        var k :| k in ordered && ordered[k] == i;
      }
      if i < |inv| && IsEndo(inv, kinds, i) {
        assert ordered[Place(inv[i], kinds)] in ordered.Values;
      }
    }
  }
}