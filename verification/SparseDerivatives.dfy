/** The sparse matrices of second and third derivatives, written from the derivatives stored for sorted indices only. */
module SparseDerivatives {
  import opened Results
  import opened Expressions
  import opened Constructors
  import opened Derivatives
  import opened JacobianColumns
  import ShiftedDerivatives
  import opened Sets

  /** A derivative of an equation with respect to derivation IDs, in descending order. */
  datatype Entry = Entry(eq: nat, vars: seq<nat>, d: Expr)

  /** A line of the matrix: equation and column counted from 1, and the value. */
  datatype Row = Row(eq: int, col: int, value: Expr)

  predicate Descending(vars: seq<nat>) {
    forall i, j :: 0 <= i < j < |vars| ==> vars[i] >= vars[j]
  }

  predicate SameKey(e: Entry, f: Entry) {
    e.eq == f.eq && e.vars == f.vars
  }

  /** What is stored of one order: sorted indices, at most one derivative each. */
  predicate Stored(es: seq<Entry>, order: nat) {
    && (forall i :: 0 <= i < |es| ==> |es[i].vars| == order && Descending(es[i].vars))
    && (forall i, j :: 0 <= i < j < |es| ==> !SameKey(es[i], es[j]))
  }

  /** The number of different orders of a descending list of at most three indices. */
  function Orders(vars: seq<nat>): nat {
    if |vars| == 2 then if vars[1] == vars[0] then 1 else 2
    else if |vars| == 3 then
      if vars[2] == vars[1] && vars[1] == vars[0] then 1
      else if vars[2] == vars[1] || vars[1] == vars[0] then 3
      else 6
    else 1
  }

  function Total(es: seq<Entry>): nat {
    if es == [] then 0 else Total(es[..|es| - 1]) + Orders(es[|es| - 1].vars)
  }

  // ----- the derivatives of the next order

  predicate Comes(e: Entry, v: nat, d: (Expr, nat) -> Expr) {
    |e.vars| > 0 && v <= e.vars[|e.vars| - 1] && d(e.d, v) != Zero
  }

  function Next(e: Entry, v: nat, d: (Expr, nat) -> Expr): Entry {
    Entry(e.eq, e.vars + [v], d(e.d, v))
  }

  ghost predicate NextSound(n: Entry, es: seq<Entry>, vars: seq<nat>, d: (Expr, nat) -> Expr) {
    exists e, v :: e in es && v in vars && Comes(e, v, d) && n == Next(e, v, d)
  }

  /** The stored derivatives of the next order are the derivatives, not 0, with respect to an index that is not larger
      than the last one; and none is lost. */
  ghost predicate NextExact(r: seq<Entry>, es: seq<Entry>, vars: seq<nat>, d: (Expr, nat) -> Expr) {
    && (forall n :: n in r ==> NextSound(n, es, vars, d))
    && (forall e, v :: e in es && v in vars && Comes(e, v, d) ==> Next(e, v, d) in r)
  }

  predicate AllBelow(vars: seq<nat>, n: nat) {
    forall i :: 0 <= i < |vars| ==> vars[i] < n
  }

  predicate Ascending(vars: seq<nat>) {
    forall i, j :: 0 <= i < j < |vars| ==> vars[i] < vars[j]
  }

  lemma TotalMore(es: seq<Entry>, e: Entry)
    ensures Total(es + [e]) == Total(es) + Orders(e.vars)
  {
    assert (es + [e])[..|es|] == es;
  }

  /** The derivative node with respect to derivation ID v; where differentiation would end the program, any node. */
  function By(c: Tree, ids: seq<DerivId>): (Expr, nat) -> Expr {
    (e: Expr, v: nat) => if v < |ids| && Derivative(c, e, ids[v]).Ok? then Derivative(c, e, ids[v]).value else Zero
  }

  ghost predicate AllBuilt(c: Tree, es: seq<Entry>) {
    forall e :: e in es ==> Built(c, e.d)
  }

  /** A derivative of e that is asked for ends the program. */
  ghost predicate Ends(c: Tree, ids: seq<DerivId>, e: Entry, vars: seq<nat>)
    requires |e.vars| > 0 && AllBelow(vars, |ids|)
  {
    exists v :: v in vars && v <= e.vars[|e.vars| - 1] && Derivative(c, e.d, ids[v]) == Exit
  }

  ghost predicate EndsBelow(c: Tree, ids: seq<DerivId>, e: Entry, vars: seq<nat>)
    requires AllBelow(vars, |ids|)
  {
    |e.vars| > 0 && Ends(c, ids, e, vars)
  }

  /** The derivatives of one entry. */
  method NextOf(e: Entry, vars: seq<nat>, cache: DerivativeCache, ids: seq<DerivId>)
    returns (r: Outcome<seq<Entry>>, nnz: nat)
    requires cache.Valid() && NonZeroConstants(cache.c.m) && Built(cache.c, e.d)
    requires |e.vars| > 0 && Descending(e.vars) && Ascending(vars) && AllBelow(vars, |ids|)
    modifies cache
    ensures cache.Valid() && (r.Exit? <==> Ends(cache.c, ids, e, vars))
    ensures r.Ok? ==> && Stored(r.value, |e.vars| + 1) && NextExact(r.value, [e], vars, By(cache.c, ids))
                      && AllBuilt(cache.c, r.value) && nnz == Total(r.value)
  {
    hide Orders, Total, Stored, NextExact, Derivative, Built;
    ghost var d := By(cache.c, ids);
    var next: seq<Entry> := [];
    nnz := 0;
    NoneYet(e, d);
    for k := 0 to |vars|
      invariant cache.Valid() && Stored(next, |e.vars| + 1) && NextExact(next, [e], vars[..k], d)
      invariant AllBuilt(cache.c, next) && nnz == Total(next)
      invariant forall j :: 0 <= j < k && vars[j] <= e.vars[|e.vars| - 1] ==> Derivative(cache.c, e.d, ids[vars[j]]).Ok?
    {
      var v := vars[k];
      assert vars[..k + 1] == vars[..k] + [v];
      OneMore(next, e, vars[..k], v, d);
      if v <= e.vars[|e.vars| - 1] {
        var dv := cache.GetDerivative(e.d, ids[v]);
        if dv.Exit? {
          return Exit, nnz;
        }
        if dv.value != Zero {
          ShiftedDerivatives.DerivativeBuilt(cache.c, e.d, ids[v]);
          TotalMore(next, Next(e, v, d));
          nnz := nnz + Orders(e.vars + [v]);
          next := next + [Entry(e.eq, e.vars + [v], dv.value)];
        }
      }
    }
    assert vars[..|vars|] == vars;
    r := Ok(next);
  }

  lemma NoneYet(e: Entry, d: (Expr, nat) -> Expr)
    ensures Stored([], |e.vars| + 1) && NextExact([], [e], [], d) && Total([]) == 0
  {
  }

  lemma OneMore(r: seq<Entry>, e: Entry, vars: seq<nat>, v: nat, d: (Expr, nat) -> Expr)
    requires |e.vars| > 0 && Descending(e.vars) && v !in vars
    requires Stored(r, |e.vars| + 1) && NextExact(r, [e], vars, d)
    ensures var more := if Comes(e, v, d) then r + [Next(e, v, d)] else r;
            Stored(more, |e.vars| + 1) && NextExact(more, [e], vars + [v], d)
  {
    hide Stored, NextExact;
    OneStored(r, e, vars, v, d);
    OneExact(r, e, vars, v, d);
  }

  lemma OneStored(r: seq<Entry>, e: Entry, vars: seq<nat>, v: nat, d: (Expr, nat) -> Expr)
    requires |e.vars| > 0 && Descending(e.vars) && v !in vars
    requires Stored(r, |e.vars| + 1) && NextExact(r, [e], vars, d)
    ensures Comes(e, v, d) ==> Stored(r + [Next(e, v, d)], |e.vars| + 1)
  {
    if Comes(e, v, d) {
      forall n | n in r ensures !SameKey(n, Next(e, v, d)) {
        var f, w :| f in [e] && w in vars && Comes(f, w, d) && n == Next(f, w, d);
        assert n.vars[|e.vars|] == w != v;
      }
      JoinStored(r, [Next(e, v, d)], |e.vars| + 1);
    }
  }

  lemma OneExact(r: seq<Entry>, e: Entry, vars: seq<nat>, v: nat, d: (Expr, nat) -> Expr)
    requires NextExact(r, [e], vars, d)
    ensures NextExact(if Comes(e, v, d) then r + [Next(e, v, d)] else r, [e], vars + [v], d)
  {
    var more := if Comes(e, v, d) then r + [Next(e, v, d)] else r;
    forall n | n in more ensures NextSound(n, [e], vars + [v], d) {
      if n in r {
        var f, w :| f in [e] && w in vars && Comes(f, w, d) && n == Next(f, w, d);
        assert w in vars + [v];
      } else {
        assert e in [e] && v in vars + [v];
      }
    }
  }

  lemma KeyFrom(n: Entry, es: seq<Entry>, vars: seq<nat>, d: (Expr, nat) -> Expr, m: Entry, e: Entry)
    requires NextSound(n, es, vars, d) && NextSound(m, [e], vars, d)
    requires forall f :: f in es ==> !SameKey(f, e)
    ensures !SameKey(n, m)
  {
    var f, v :| f in es && v in vars && Comes(f, v, d) && n == Next(f, v, d);
    var g, w :| g in [e] && w in vars && Comes(g, w, d) && m == Next(g, w, d);
    assert n.vars[..|n.vars| - 1] == f.vars && m.vars[..|m.vars| - 1] == e.vars;
  }

  lemma JoinStored(r: seq<Entry>, s: seq<Entry>, order: nat)
    requires Stored(r, order) && Stored(s, order)
    requires forall n, m :: n in r && m in s ==> !SameKey(n, m)
    ensures Stored(r + s, order)
  {
  }

  lemma {:induction false} TotalJoin(r: seq<Entry>, s: seq<Entry>)
    ensures Total(r + s) == Total(r) + Total(s)
    decreases s
  {
    if s == [] {
      assert r + s == r;
    } else {
      assert (r + s)[..|r + s| - 1] == r + s[..|s| - 1];
      TotalJoin(r, s[..|s| - 1]);
    }
  }

  /** From the derivatives of one order to those of the next, with the number of elements of the matrix. */
  method NextDerivatives(es: seq<Entry>, ghost order: nat, vars: seq<nat>, cache: DerivativeCache, ids: seq<DerivId>)
    returns (r: Outcome<seq<Entry>>, nnz: nat)
    requires cache.Valid() && NonZeroConstants(cache.c.m) && AllBuilt(cache.c, es)
    requires Stored(es, order) && order > 0 && Ascending(vars) && AllBelow(vars, |ids|)
    modifies cache
    ensures cache.Valid() && (r.Exit? <==> exists e :: e in es && EndsBelow(cache.c, ids, e, vars))
    ensures r.Ok? ==> && Stored(r.value, order + 1) && NextExact(r.value, es, vars, By(cache.c, ids))
                      && AllBuilt(cache.c, r.value) && nnz == Total(r.value)
  {
    ghost var d := By(cache.c, ids);
    var next: seq<Entry> := [];
    nnz := 0;
    NoNext(order, vars, d);
    AllStored(es, order);
    hide Built, Ends, Stored, NextExact, Total;
    for i := 0 to |es|
      invariant cache.Valid() && Stored(next, order + 1) && NextExact(next, es[..i], vars, d)
      invariant AllBuilt(cache.c, next) && nnz == Total(next)
      invariant forall j :: 0 <= j < i ==> !EndsBelow(cache.c, ids, es[j], vars)
    {
      var block, count := NextOf(es[i], vars, cache, ids);
      if block.Exit? {
        assert EndsBelow(cache.c, ids, es[i], vars);
        return Exit, nnz;
      }
      TotalJoin(next, block.value);
      JoinNext(next, block.value, es, i, order, vars, d);
      next, nnz := next + block.value, nnz + count;
    }
    assert es[..|es|] == es;
    r := Ok(next);
  }

  lemma NoNext(order: nat, vars: seq<nat>, d: (Expr, nat) -> Expr)
    ensures Stored([], order + 1) && NextExact([], [], vars, d) && Total([]) == 0
  {
  }

  lemma AllStored(es: seq<Entry>, order: nat)
    requires Stored(es, order)
    ensures forall i :: 0 <= i < |es| ==> |es[i].vars| == order && Descending(es[i].vars)
  {
  }

  lemma JoinNext(r: seq<Entry>, block: seq<Entry>, es: seq<Entry>, i: nat, order: nat, vars: seq<nat>,
                 d: (Expr, nat) -> Expr)
    requires i < |es| && Stored(es, order) && Stored(r, order + 1) && Stored(block, order + 1)
    requires NextExact(r, es[..i], vars, d) && NextExact(block, [es[i]], vars, d)
    ensures Stored(r + block, order + 1) && NextExact(r + block, es[..i + 1], vars, d)
  {
    forall n, m | n in r && m in block ensures !SameKey(n, m) {
      KeyFrom(n, es[..i], vars, d, m, es[i]);
    }
    JoinStored(r, block, order + 1);
    JoinExact(r, block, es[..i], es[i], vars, d);
    assert es[..i + 1] == es[..i] + [es[i]];
  }

  lemma JoinExact(r: seq<Entry>, s: seq<Entry>, es: seq<Entry>, e: Entry, vars: seq<nat>, d: (Expr, nat) -> Expr)
    requires NextExact(r, es, vars, d) && NextExact(s, [e], vars, d)
    ensures NextExact(r + s, es + [e], vars, d)
  {
    forall n | n in r + s ensures NextSound(n, es + [e], vars, d) {
      if n in r {
        var f, v :| f in es && v in vars && Comes(f, v, d) && n == Next(f, v, d);
        assert f in es + [e];
      } else {
        var f, v :| f in [e] && v in vars && Comes(f, v, d) && n == Next(f, v, d);
        assert f in es + [e];
      }
    }
  }

  // ----- the columns

  /** The columns of the Jacobian for the derivation IDs of an entry, below n. */
  predicate Numbered(e: Entry, cols: map<nat, nat>, n: nat) {
    forall v :: v in e.vars ==> v in cols && cols[v] < n
  }

  function Code2(a: nat, b: nat, n: nat): int {
    a * n + b
  }

  function Code3(a: nat, b: nat, c: nat, n: nat): int {
    a * (n * n) + b * n + c
  }

  lemma Code2Injective(a: nat, b: nat, x: nat, y: nat, n: nat)
    requires b < n && y < n && Code2(a, b, n) == Code2(x, y, n)
    ensures a == x && b == y
  {
    if a < x {
      LargerPart(a, x, n);
    } else if x < a {
      LargerPart(x, a, n);
    }
  }

  lemma LargerPart(a: nat, x: nat, n: nat)
    requires a < x
    ensures a * n + n <= x * n
  {
    var k := x - a - 1;
    assert x * n == a * n + n + k * n;
  }

  lemma Code3AsCode2(a: nat, b: nat, c: nat, n: nat)
    ensures Code3(a, b, c, n) == Code2(a * n + b, c, n)
  {
    assert a * (n * n) == (a * n) * n;
  }

  lemma Code3Injective(a: nat, b: nat, c: nat, x: nat, y: nat, z: nat, n: nat)
    requires b < n && c < n && y < n && z < n && Code3(a, b, c, n) == Code3(x, y, z, n)
    ensures a == x && b == y && c == z
  {
    Code3AsCode2(a, b, c, n);
    Code3AsCode2(x, y, z, n);
    Code2Injective(a * n + b, c, x * n + y, z, n);
    Code2Injective(a, b, x, y, n);
  }

  predicate Among<T(==)>(x: T, y: T, z: T, a: T, b: T, c: T) {
    || (x == a && y == b && z == c) || (x == a && y == c && z == b) || (x == b && y == a && z == c)
    || (x == b && y == c && z == a) || (x == c && y == a && z == b) || (x == c && y == b && z == a)
  }

  /** The column of an element of the matrix of second or third derivatives. */
  function Code(ids: seq<nat>, n: nat): int {
    if |ids| == 2 then Code2(ids[0], ids[1], n)
    else if |ids| == 3 then Code3(ids[0], ids[1], ids[2], n)
    else 0
  }

  /** One list of indices is the other in another order. */
  predicate Reordered(vs: seq<nat>, ws: seq<nat>) {
    |vs| == |ws|
    && ((|vs| == 2 && ((vs[0] == ws[0] && vs[1] == ws[1]) || (vs[0] == ws[1] && vs[1] == ws[0])))
        || (|vs| == 3 && Among(vs[0], vs[1], vs[2], ws[0], ws[1], ws[2])))
  }

  function Ids(vs: seq<nat>, cols: map<nat, nat>): (ids: seq<nat>)
    requires forall v :: v in vs ==> v in cols
    ensures |ids| == |vs| && forall i :: 0 <= i < |vs| ==> ids[i] == cols[vs[i]]
  {
    seq(|vs|, i requires 0 <= i < |vs| => cols[vs[i]])
  }

  /** c is the column of the indices of the entry in some order. */
  ghost predicate InColumn(e: Entry, c: int, cols: map<nat, nat>, n: nat)
    requires Numbered(e, cols, n)
  {
    exists vs :: Reordered(vs, e.vars) && (forall v :: v in vs ==> v in cols) && Code(Ids(vs, cols), n) == c
  }

  lemma ReorderedIn(vs: seq<nat>, ws: seq<nat>)
    requires Reordered(vs, ws)
    ensures |vs| == |ws| && forall v :: v in vs ==> v in ws
  {
  }

  /** Only one descending list is a reordering of a given list. */
  lemma OneDescending(vs: seq<nat>, ws: seq<nat>, xs: seq<nat>)
    requires Reordered(vs, ws) && Reordered(vs, xs) && Descending(ws) && Descending(xs)
    ensures ws == xs
  {
    assert ws[0] >= ws[1] && xs[0] >= xs[1];
    if |vs| == 3 {
      assert ws[1] >= ws[2] && xs[1] >= xs[2];
    }
  }

  /** The column determines the indices, in their order. */
  lemma CodeInjective(vs: seq<nat>, ws: seq<nat>, cols: map<nat, nat>, n: nat)
    requires |vs| == |ws| && (|vs| == 2 || |vs| == 3) && Injective(cols)
    requires forall v :: v in vs ==> v in cols && cols[v] < n
    requires forall v :: v in ws ==> v in cols && cols[v] < n
    requires Code(Ids(vs, cols), n) == Code(Ids(ws, cols), n)
    ensures vs == ws
  {
    hide Code2, Code3;
    var a, b := Ids(vs, cols), Ids(ws, cols);
    if |vs| == 2 {
      Code2Injective(a[0], a[1], b[0], b[1], n);
    } else {
      Code3Injective(a[0], a[1], a[2], b[0], b[1], b[2], n);
    }
    assert forall i :: 0 <= i < |vs| ==> cols[vs[i]] == cols[ws[i]];
  }

  /** Different entries of an equation have no column in common. */
  lemma NoSharedColumn(e: Entry, f: Entry, c: int, cols: map<nat, nat>, n: nat)
    requires |e.vars| == |f.vars| && (|e.vars| == 2 || |e.vars| == 3) && Descending(e.vars) && Descending(f.vars)
    requires Numbered(e, cols, n) && Numbered(f, cols, n) && Injective(cols)
    requires InColumn(e, c, cols, n) && InColumn(f, c, cols, n)
    ensures e.vars == f.vars
  {
    hide Code, Reordered;
    var vs :| Reordered(vs, e.vars) && (forall v :: v in vs ==> v in cols) && Code(Ids(vs, cols), n) == c;
    var ws :| Reordered(ws, f.vars) && (forall v :: v in ws ==> v in cols) && Code(Ids(ws, cols), n) == c;
    ReorderedIn(vs, e.vars);
    ReorderedIn(ws, f.vars);
    CodeInjective(vs, ws, cols, n);
    OneDescending(vs, e.vars, f.vars);
  }

  // ----- the lines

  ghost predicate RowOf(r: Row, e: Entry, cols: map<nat, nat>, n: nat)
    requires Numbered(e, cols, n)
  {
    r.eq == e.eq + 1 && r.value == e.d && InColumn(e, r.col - 1, cols, n)
  }

  function RowAt(e: Entry, c: int): Row {
    Row(e.eq + 1, c + 1, e.d)
  }

  predicate OncePerPlace(rows: seq<Row>) {
    forall i, j :: 0 <= i < j < |rows| ==> rows[i].eq != rows[j].eq || rows[i].col != rows[j].col
  }

  ghost predicate AllNumbered(es: seq<Entry>, cols: map<nat, nat>, n: nat) {
    forall e :: e in es ==> Numbered(e, cols, n)
  }

  /** The lines hold every stored derivative in every order of its indices, nothing else, and no element twice. */
  ghost predicate Exact(rows: seq<Row>, es: seq<Entry>, cols: map<nat, nat>, n: nat)
    requires AllNumbered(es, cols, n)
  {
    && (forall r :: r in rows ==> exists e :: e in es && RowOf(r, e, cols, n))
    && (forall e, c :: e in es && InColumn(e, c, cols, n) ==> RowAt(e, c) in rows)
    && OncePerPlace(rows)
  }

  lemma NoRows(cols: map<nat, nat>, n: nat)
    ensures AllNumbered([], cols, n) && Exact([], [], cols, n)
  {
  }

  /** The lines of one more entry. */
  lemma MoreRows(rows: seq<Row>, block: seq<Row>, es: seq<Entry>, e: Entry, cols: map<nat, nat>, n: nat, order: nat)
    requires Stored(es + [e], order) && (order == 2 || order == 3) && Injective(cols)
    requires AllNumbered(es, cols, n) && Numbered(e, cols, n)
    requires Exact(rows, es, cols, n) && Exact(block, [e], cols, n)
    ensures AllNumbered(es + [e], cols, n) && Exact(rows + block, es + [e], cols, n)
  {
    hide InColumn, Numbered, Stored;
    forall r | r in rows + block ensures exists f :: f in es + [e] && RowOf(r, f, cols, n) {
      if r in rows {
        var f :| f in es && RowOf(r, f, cols, n);
        assert f in es + [e];
      } else {
        assert RowOf(r, e, cols, n) && e in es + [e];
      }
    }
    RowsApart(rows, block, es, e, cols, n, order);
  }

  lemma RowsApart(rows: seq<Row>, block: seq<Row>, es: seq<Entry>, e: Entry, cols: map<nat, nat>, n: nat, order: nat)
    requires Stored(es + [e], order) && (order == 2 || order == 3) && Injective(cols)
    requires AllNumbered(es, cols, n) && Numbered(e, cols, n)
    requires Exact(rows, es, cols, n) && Exact(block, [e], cols, n)
    ensures OncePerPlace(rows + block)
  {
    hide InColumn, Numbered, Stored, Exact;
    forall r, s | r in rows && s in block ensures r.eq != s.eq || r.col != s.col {
      Apart(r, rows, s, block, es, e, cols, n, order);
    }
    ExactOnce(rows, es, cols, n);
    ExactOnce(block, [e], cols, n);
    JoinPlaces(rows, block);
  }

  lemma ExactOnce(rows: seq<Row>, es: seq<Entry>, cols: map<nat, nat>, n: nat)
    requires AllNumbered(es, cols, n) && Exact(rows, es, cols, n)
    ensures OncePerPlace(rows)
  {
  }

  lemma RowFrom(r: Row, rows: seq<Row>, es: seq<Entry>, cols: map<nat, nat>, n: nat) returns (e: Entry)
    requires AllNumbered(es, cols, n) && Exact(rows, es, cols, n) && r in rows
    ensures e in es && RowOf(r, e, cols, n)
  {
    hide InColumn, Numbered, OncePerPlace;
    e :| e in es && RowOf(r, e, cols, n);
  }

  lemma Apart(r: Row, rows: seq<Row>, s: Row, block: seq<Row>, es: seq<Entry>, e: Entry, cols: map<nat, nat>, n: nat,
              order: nat)
    requires Stored(es + [e], order) && (order == 2 || order == 3) && Injective(cols)
    requires AllNumbered(es, cols, n) && Numbered(e, cols, n)
    requires Exact(rows, es, cols, n) && Exact(block, [e], cols, n) && r in rows && s in block
    ensures r.eq != s.eq || r.col != s.col
  {
    hide InColumn, Numbered, Stored, Exact;
    var f := RowFrom(r, rows, es, cols, n);
    var g := RowFrom(s, block, [e], cols, n);
    OthersDiffer(es, e, f, order);
    if r.eq == s.eq && r.col == s.col {
      NoSharedColumn(e, f, r.col - 1, cols, n);
    }
  }

  lemma JoinPlaces(rows: seq<Row>, block: seq<Row>)
    requires OncePerPlace(rows) && OncePerPlace(block)
    requires forall r, s :: r in rows && s in block ==> r.eq != s.eq || r.col != s.col
    ensures OncePerPlace(rows + block)
  {
  }

  /** The lines of a single entry. */
  lemma RowsOfOne(rows: seq<Row>, e: Entry, cols: map<nat, nat>, n: nat)
    requires Numbered(e, cols, n)
    requires forall r :: r in rows ==> RowOf(r, e, cols, n)
    requires forall c :: InColumn(e, c, cols, n) ==> RowAt(e, c) in rows
    requires OncePerPlace(rows)
    ensures Exact(rows, [e], cols, n)
  {
    hide InColumn, Numbered;
    assert e in [e];
  }

  lemma OthersDiffer(es: seq<Entry>, e: Entry, f: Entry, order: nat)
    requires Stored(es + [e], order) && f in es
    ensures !SameKey(f, e) && |f.vars| == order && |e.vars| == order && Descending(f.vars) && Descending(e.vars)
  {
    var i :| 0 <= i < |es| && es[i] == f;
    assert (es + [e])[i] == f && (es + [e])[|es|] == e;
  }

  lemma Columns2(e: Entry, c: int, cols: map<nat, nat>, n: nat)
    requires |e.vars| == 2 && Numbered(e, cols, n)
    ensures var a, b := cols[e.vars[0]], cols[e.vars[1]];
            InColumn(e, c, cols, n) <==> c == Code2(a, b, n) || c == Code2(b, a, n)
  {
    hide Code2;
    var v, w := e.vars[0], e.vars[1];
    Ordered2(e, v, w, cols, n);
    Ordered2(e, w, v, cols, n);
  }

  lemma Ordered2(e: Entry, v: nat, w: nat, cols: map<nat, nat>, n: nat)
    requires Numbered(e, cols, n) && Reordered([v, w], e.vars)
    ensures v in cols && w in cols && InColumn(e, Code2(cols[v], cols[w], n), cols, n)
  {
    assert v in [v, w] && w in [v, w];
    ReorderedIn([v, w], e.vars);
    assert Code(Ids([v, w], cols), n) == Code2(cols[v], cols[w], n);
  }

  lemma Ordered3(e: Entry, v: nat, w: nat, u: nat, cols: map<nat, nat>, n: nat)
    requires Numbered(e, cols, n) && Reordered([v, w, u], e.vars)
    ensures v in cols && w in cols && u in cols && InColumn(e, Code3(cols[v], cols[w], cols[u], n), cols, n)
  {
    assert v in [v, w, u] && w in [v, w, u] && u in [v, w, u];
    ReorderedIn([v, w, u], e.vars);
    assert Code(Ids([v, w, u], cols), n) == Code3(cols[v], cols[w], cols[u], n);
  }

  /** The columns of the six orders of three indices. */
  function Codes3(a: nat, b: nat, c: nat, n: nat): set<int> {
    {Code3(a, b, c, n), Code3(a, c, b, n), Code3(b, a, c, n), Code3(b, c, a, n), Code3(c, a, b, n), Code3(c, b, a, n)}
  }

  lemma Columns3(e: Entry, c: int, cols: map<nat, nat>, n: nat)
    requires |e.vars| == 3 && Numbered(e, cols, n)
    ensures InColumn(e, c, cols, n) <==> c in Codes3(cols[e.vars[0]], cols[e.vars[1]], cols[e.vars[2]], n)
  {
    hide Code3;
    var v, w, u := e.vars[0], e.vars[1], e.vars[2];
    Ordered3(e, v, w, u, cols, n);
    Ordered3(e, v, u, w, cols, n);
    Ordered3(e, w, v, u, cols, n);
    Ordered3(e, w, u, v, cols, n);
    Ordered3(e, u, v, w, cols, n);
    Ordered3(e, u, w, v, cols, n);
  }

  // ----- writing

  /** The Hessian: from one derivative for each pair of indices, the element and the symmetric one. */
  method WriteHessian(es: seq<Entry>, cols: map<nat, nat>, n: nat) returns (rows: seq<Row>)
    requires Stored(es, 2) && AllNumbered(es, cols, n) && Injective(cols)
    ensures Exact(rows, es, cols, n) && |rows| == Total(es)
  {
    hide Exact, InColumn, Stored;
    rows := [];
    NoRows(cols, n);
    for i := 0 to |es|
      invariant AllNumbered(es[..i], cols, n) && Exact(rows, es[..i], cols, n) && |rows| == Total(es[..i])
    {
      var e := es[i];
      assert es[..i + 1] == es[..i] + [e];
      StoredPrefix(es, i, 2);
      var block := HessianRows(e, cols, n);
      MoreRows(rows, block, es[..i], e, cols, n, 2);
      TotalMore(es[..i], e);
      rows := rows + block;
    }
    assert es[..|es|] == es;
  }

  lemma StoredPrefix(es: seq<Entry>, i: nat, order: nat)
    requires Stored(es, order) && i < |es|
    ensures Stored(es[..i] + [es[i]], order) && |es[i].vars| == order && Descending(es[i].vars)
  {
  }

  method HessianRows(e: Entry, cols: map<nat, nat>, n: nat) returns (rows: seq<Row>)
    requires |e.vars| == 2 && Descending(e.vars) && Numbered(e, cols, n) && Injective(cols)
    ensures Exact(rows, [e], cols, n) && |rows| == Orders(e.vars)
  {
    hide InColumn, Code2;
    var id1, id2 := cols[e.vars[0]], cols[e.vars[1]];
    rows := [Row(e.eq + 1, Code2(id1, id2, n) + 1, e.d)];
    forall c: int ensures InColumn(e, c, cols, n) <==> c == Code2(id1, id2, n) || c == Code2(id2, id1, n) {
      Columns2(e, c, cols, n);
    }
    if id1 != id2 {
      rows := rows + [Row(e.eq + 1, Code2(id2, id1, n) + 1, rows[0].value)];
      if Code2(id1, id2, n) == Code2(id2, id1, n) {
        Code2Injective(id1, id2, id2, id1, n);
      }
    }
    assert RowAt(e, Code2(id1, id2, n)) == rows[0];
    assert id1 != id2 ==> RowAt(e, Code2(id2, id1, n)) == rows[1];
    RowsOfOne(rows, e, cols, n);
  }

  /** The least element of a set, the first that the iteration over it visits. */
  lemma {:induction false} LeastColumn(s: set<int>)
    requires s != {}
    ensures exists x :: x in s && forall y :: y in s ==> x <= y
  {
    var x := Member(s);
    if s == {x} {
      assert forall y :: y in s ==> x <= y;
    } else {
      LeastColumn(s - {x});
      var z :| z in s - {x} && forall y :: y in s - {x} ==> z <= y;
      var w := if z <= x then z else x;
      forall y | y in s ensures w <= y {
        if y != x {
          assert y in s - {x};
        }
      }
      assert w in s;
    }
  }

  lemma SameOrders(e: Entry, cols: map<nat, nat>, n: nat)
    requires |e.vars| == 3 && Numbered(e, cols, n) && Injective(cols) && Descending(e.vars)
    ensures Orders(e.vars) == DifferentOrders(cols[e.vars[0]], cols[e.vars[1]], cols[e.vars[2]])
  {
    assert e.vars[0] >= e.vars[1] >= e.vars[2];
  }

  /** The number of different orders of three numbers of which the first and the last are equal only if all are. */
  function DifferentOrders(a: nat, b: nat, c: nat): nat {
    if a == b && b == c then 1 else if a == b || b == c then 3 else 6
  }

  lemma CountOrders(a: nat, b: nat, c: nat, n: nat)
    requires a < n && b < n && c < n && (a == c ==> a == b)
    ensures |Codes3(a, b, c, n) - {Code3(a, b, c, n)}| == DifferentOrders(a, b, c) - 1
  {
    hide Code3;
    forall x: nat, y: nat, z: nat, u: nat, v: nat, w: nat
      | y < n && z < n && v < n && w < n && Code3(x, y, z, n) == Code3(u, v, w, n)
      ensures x == u && y == v && z == w
    {
      Code3Injective(x, y, z, u, v, w, n);
    }
    var others := Codes3(a, b, c, n) - {Code3(a, b, c, n)};
    if a == b && b == c {
      assert others == {};
    } else if a == b {
      assert others == {Code3(a, c, a, n), Code3(c, a, a, n)};
    } else if b == c {
      assert others == {Code3(b, a, b, n), Code3(b, b, a, n)};
    } else {
      assert others == {Code3(a, c, b, n), Code3(b, a, c, n), Code3(b, c, a, n), Code3(c, a, b, n), Code3(c, b, a, n)};
    }
  }

  /** The lines for a set of columns, each once. */
  predicate LinesOf(rows: seq<Row>, e: Entry, columns: set<int>) {
    && (forall r :: r in rows ==> r == RowAt(e, r.col - 1) && r.col - 1 in columns)
    && (forall c :: c in columns ==> RowAt(e, c) in rows)
    && OncePerPlace(rows) && |rows| == |columns|
  }

  lemma OneLine(e: Entry, c: int)
    ensures LinesOf([RowAt(e, c)], e, {c})
  {
  }

  lemma OneMoreLine(rows: seq<Row>, e: Entry, columns: set<int>, c: int)
    requires LinesOf(rows, e, columns) && c !in columns
    ensures LinesOf(rows + [RowAt(e, c)], e, columns + {c})
  {
    JoinPlaces(rows, [RowAt(e, c)]);
  }

  /** The line of the reference column, and those of the other columns in ascending order; equal indices give equal
      columns, which appear once. */
  method OrdersOf(e: Entry, refCol: int, others: set<int>) returns (rows: seq<Row>)
    ensures LinesOf(rows, e, {refCol} + others)
  {
    hide LinesOf;
    rows := [Row(e.eq + 1, refCol + 1, e.d)];
    OneLine(e, refCol);
    var rest := others;
    while rest != {}
      invariant rest <= others && rows != [] && rows[0].value == e.d
      invariant LinesOf(rows, e, {refCol} + (others - rest))
    {
      LeastColumn(rest);
      var c :| c in rest && forall y :: y in rest ==> c <= y;
      if c != refCol {
        OneMoreLine(rows, e, {refCol} + (others - rest), c);
        rows := rows + [Row(e.eq + 1, c + 1, rows[0].value)];
      }
      assert {refCol} + (others - (rest - {c})) == {refCol} + (others - rest) + {c};
      assert c == refCol ==> {refCol} + (others - rest) + {c} == {refCol} + (others - rest);
      rest := rest - {c};
    }
    assert {refCol} + (others - {}) == {refCol} + others;
  }

  lemma LinesExact(rows: seq<Row>, e: Entry, cols: map<nat, nat>, n: nat, columns: set<int>)
    requires Numbered(e, cols, n) && LinesOf(rows, e, columns)
    requires forall c :: InColumn(e, c, cols, n) <==> c in columns
    ensures Exact(rows, [e], cols, n)
  {
    hide InColumn;
    RowsOfOne(rows, e, cols, n);
  }

  method ThirdRows(e: Entry, cols: map<nat, nat>, n: nat) returns (rows: seq<Row>)
    requires |e.vars| == 3 && Descending(e.vars) && Numbered(e, cols, n) && Injective(cols)
    ensures Exact(rows, [e], cols, n) && |rows| == Orders(e.vars)
  {
    hide InColumn, Code3, Exact;
    var id1, id2, id3 := cols[e.vars[0]], cols[e.vars[1]], cols[e.vars[2]];
    var refCol := Code3(id1, id2, id3, n);
    var others := {Code3(id1, id3, id2, n), Code3(id2, id1, id3, n), Code3(id2, id3, id1, n), Code3(id3, id1, id2, n),
                   Code3(id3, id2, id1, n)};
    rows := OrdersOf(e, refCol, others);
    ghost var all := Codes3(id1, id2, id3, n);
    assert {refCol} + others == all;
    forall c: int ensures InColumn(e, c, cols, n) <==> c in all {
      Columns3(e, c, cols, n);
    }
    LinesExact(rows, e, cols, n, all);
    CountOrders(id1, id2, id3, n);
    assert all == (all - {refCol}) + {refCol};
    SameOrders(e, cols, n);
  }

  /** The third derivatives: from one derivative for each descending triple of indices, the elements for all orders. */
  method WriteThirdDerivatives(es: seq<Entry>, cols: map<nat, nat>, n: nat) returns (rows: seq<Row>)
    requires Stored(es, 3) && AllNumbered(es, cols, n) && Injective(cols)
    ensures Exact(rows, es, cols, n) && |rows| == Total(es)
  {
    hide Exact, InColumn, Stored;
    rows := [];
    NoRows(cols, n);
    for i := 0 to |es|
      invariant AllNumbered(es[..i], cols, n) && Exact(rows, es[..i], cols, n) && |rows| == Total(es[..i])
    {
      var e := es[i];
      assert es[..i + 1] == es[..i] + [e];
      StoredPrefix(es, i, 3);
      var block := ThirdRows(e, cols, n);
      MoreRows(rows, block, es[..i], e, cols, n, 3);
      TotalMore(es[..i], e);
      rows := rows + block;
    }
    assert es[..|es|] == es;
  }

  /** What the lines mean for a reader of the matrix: the element of an equation at a list of indices, in any order, is
      in the lines exactly when a derivative is stored for the descending list, and then with its value. */
  lemma ElementExact(rows: seq<Row>, es: seq<Entry>, cols: map<nat, nat>, n: nat, order: nat, eq: nat, vs: seq<nat>,
                     ws: seq<nat>, d: Expr)
    requires Stored(es, order) && (order == 2 || order == 3) && AllNumbered(es, cols, n) && Injective(cols)
    requires Exact(rows, es, cols, n)
    requires |vs| == order && Reordered(vs, ws) && Descending(ws) && forall v :: v in vs ==> v in cols && cols[v] < n
    ensures Row(eq + 1, Code(Ids(vs, cols), n) + 1, d) in rows <==> Entry(eq, ws, d) in es
  {
    hide Code, Reordered, OncePerPlace;
    var r, c := Row(eq + 1, Code(Ids(vs, cols), n) + 1, d), Code(Ids(vs, cols), n);
    if Entry(eq, ws, d) in es {
      assert InColumn(Entry(eq, ws, d), c, cols, n);
      assert RowAt(Entry(eq, ws, d), c) == r;
    }
    hide Exact;
    if r in rows {
      var e := RowFrom(r, rows, es, cols, n);
      var us :| Reordered(us, e.vars) && (forall v :: v in us ==> v in cols) && Code(Ids(us, cols), n) == c;
      ReorderedIn(us, e.vars);
      CodeInjective(us, vs, cols, n);
      OneDescending(vs, e.vars, ws);
    }
  }

  /** The column of the indices in their stored order. */
  lemma OwnColumn(e: Entry, cols: map<nat, nat>, n: nat)
    requires (|e.vars| == 2 || |e.vars| == 3) && Numbered(e, cols, n)
    ensures InColumn(e, Code(Ids(e.vars, cols), n), cols, n)
  {
    assert Reordered(e.vars, e.vars);
  }

  /** Without that the matrix cannot be written: when the variables of two different derivatives of an equation share their
      columns, as those of an exogenous symbol with two lags do, no lines hold both. */
  lemma SharedColumnsNotExact(rows: seq<Row>, es: seq<Entry>, cols: map<nat, nat>, n: nat, e: Entry, f: Entry)
    requires AllNumbered(es, cols, n) && e in es && f in es && e.eq == f.eq && e.d != f.d
    requires |e.vars| == |f.vars| && (|e.vars| == 2 || |e.vars| == 3)
    requires forall i :: 0 <= i < |e.vars| ==> cols[e.vars[i]] == cols[f.vars[i]]
    ensures !Exact(rows, es, cols, n)
  {
    hide Code, InColumn;
    assert Numbered(e, cols, n) && Numbered(f, cols, n);
    assert Ids(e.vars, cols) == Ids(f.vars, cols);
    var c := Code(Ids(e.vars, cols), n);
    OwnColumn(e, cols, n);
    OwnColumn(f, cols, n);
    if RowAt(e, c) in rows && RowAt(f, c) in rows {
      TwoAtOnePlace(rows, RowAt(e, c), RowAt(f, c));
    }
  }

  lemma TwoAtOnePlace(rows: seq<Row>, r: Row, s: Row)
    requires r in rows && s in rows && r != s && r.eq == s.eq && r.col == s.col
    ensures !OncePerPlace(rows)
  {
    var i :| 0 <= i < |rows| && rows[i] == r;
    var j :| 0 <= j < |rows| && rows[j] == s;
    var a, b := if i < j then i else j, if i < j then j else i;
    assert rows[a].eq == rows[b].eq && rows[a].col == rows[b].col;
  }

  // ----- the matrices of a model

  /** An entry of the Jacobian: a derivative of an equation that is not the node 0. */
  predicate FirstSound(n: Entry, equations: seq<Expr>, vars: seq<nat>, d: (Expr, nat) -> Expr) {
    && n.eq < |equations| && |n.vars| == 1 && n.vars[0] in vars
    && n.d == d(equations[n.eq], n.vars[0]) && n.d != Zero
  }

  function First(equations: seq<Expr>, eq: nat, v: nat, d: (Expr, nat) -> Expr): Entry
    requires eq < |equations|
  {
    Entry(eq, [v], d(equations[eq], v))
  }

  /** The first derivatives that are stored: all those that are not 0, each once. */
  ghost predicate FirstExact(r: seq<Entry>, equations: seq<Expr>, vars: seq<nat>, d: (Expr, nat) -> Expr) {
    && Stored(r, 1) && (forall n :: n in r ==> FirstSound(n, equations, vars, d))
    && (forall eq, v :: 0 <= eq < |equations| && v in vars && d(equations[eq], v) != Zero ==>
          First(equations, eq, v, d) in r)
  }

  /** The same while the loops run: for the variables before, and for the first i equations with this one. */
  ghost predicate FirstUpTo(r: seq<Entry>, equations: seq<Expr>, vars: seq<nat>, v: nat, i: nat, d: (Expr, nat) -> Expr) {
    && Stored(r, 1)
    && (forall n :: n in r ==> FirstSound(n, equations, vars + [v], d) && (n.vars[0] == v ==> n.eq < i))
    && (forall eq, w :: 0 <= eq < |equations| && w in vars && d(equations[eq], w) != Zero ==> First(equations, eq, w, d) in r)
    && (forall eq :: 0 <= eq < i && eq < |equations| && d(equations[eq], v) != Zero ==> First(equations, eq, v, d) in r)
  }

  lemma FirstStart(r: seq<Entry>, equations: seq<Expr>, vars: seq<nat>, v: nat, d: (Expr, nat) -> Expr)
    requires FirstExact(r, equations, vars, d) && v !in vars
    ensures FirstUpTo(r, equations, vars, v, 0, d)
  {
  }

  lemma FirstStep(r: seq<Entry>, equations: seq<Expr>, vars: seq<nat>, v: nat, i: nat, d: (Expr, nat) -> Expr)
    requires FirstUpTo(r, equations, vars, v, i, d) && i < |equations|
    ensures FirstUpTo(if d(equations[i], v) == Zero then r else r + [First(equations, i, v, d)], equations, vars, v, i + 1, d)
  {
    if d(equations[i], v) != Zero {
      forall n, m | n in r && m in [First(equations, i, v, d)] ensures !SameKey(n, m) {
        assert n.vars[0] == v ==> n.eq < i;
      }
      JoinStored(r, [First(equations, i, v, d)], 1);
    }
  }

  lemma FirstEnd(r: seq<Entry>, equations: seq<Expr>, vars: seq<nat>, v: nat, d: (Expr, nat) -> Expr)
    requires FirstUpTo(r, equations, vars, v, |equations|, d)
    ensures FirstExact(r, equations, vars + [v], d)
  {
  }

  /** The first derivatives of the equations. */
  method ComputeJacobian(equations: seq<Expr>, vars: seq<nat>, cache: DerivativeCache, ids: seq<DerivId>)
    returns (r: Outcome<seq<Entry>>)
    requires cache.Valid() && NonZeroConstants(cache.c.m) && forall e :: e in equations ==> Built(cache.c, e)
    requires Ascending(vars) && AllBelow(vars, |ids|)
    modifies cache
    ensures cache.Valid()
    ensures r.Exit? <==> exists e, v :: e in equations && v in vars && Derivative(cache.c, e, ids[v]) == Exit
    ensures r.Ok? ==> FirstExact(r.value, equations, vars, By(cache.c, ids)) && AllBuilt(cache.c, r.value)
  {
    hide Derivative, Built, FirstExact;
    var first: seq<Entry> := [];
    NoFirst(equations, By(cache.c, ids));
    for k := 0 to |vars|
      invariant cache.Valid() && AllBuilt(cache.c, first) && FirstExact(first, equations, vars[..k], By(cache.c, ids))
      invariant forall e, j :: e in equations && 0 <= j < k ==> Derivative(cache.c, e, ids[vars[j]]).Ok?
    {
      var column := JacobianColumn(equations, first, vars, k, cache, ids);
      if column.Exit? {
        return Exit;
      }
      first := column.value;
    }
    assert vars[..|vars|] == vars;
    r := Ok(first);
  }

  lemma NoFirst(equations: seq<Expr>, d: (Expr, nat) -> Expr)
    ensures FirstExact([], equations, [], d)
  {
  }

  /** The inner loop over the equations. */
  method JacobianColumn(equations: seq<Expr>, first: seq<Entry>, vars: seq<nat>, k: nat, cache: DerivativeCache,
                        ids: seq<DerivId>)
    returns (r: Outcome<seq<Entry>>)
    requires cache.Valid() && NonZeroConstants(cache.c.m) && forall e :: e in equations ==> Built(cache.c, e)
    requires Ascending(vars) && k < |vars| && vars[k] < |ids| && AllBuilt(cache.c, first)
    requires FirstExact(first, equations, vars[..k], By(cache.c, ids))
    modifies cache
    ensures cache.Valid()
    ensures r.Exit? <==> exists e :: e in equations && Derivative(cache.c, e, ids[vars[k]]) == Exit
    ensures r.Ok? ==> FirstExact(r.value, equations, vars[..k + 1], By(cache.c, ids)) && AllBuilt(cache.c, r.value)
  {
    hide Derivative, Built, FirstExact, FirstUpTo;
    ghost var d := By(cache.c, ids);
    var next, v := first, vars[k];
    FirstStart(first, equations, vars[..k], v, d);
    for i := 0 to |equations|
      invariant cache.Valid() && AllBuilt(cache.c, next) && FirstUpTo(next, equations, vars[..k], v, i, d)
      invariant forall j :: 0 <= j < i ==> Derivative(cache.c, equations[j], ids[v]).Ok?
    {
      var dv := cache.GetDerivative(equations[i], ids[v]);
      if dv.Exit? {
        return Exit;
      }
      FirstStep(next, equations, vars[..k], v, i, d);
      if dv.value != Zero {
        ShiftedDerivatives.DerivativeBuilt(cache.c, equations[i], ids[v]);
        next := next + [Entry(i, [v], dv.value)];
      }
    }
    FirstEnd(next, equations, vars[..k], v, d);
    assert vars[..k + 1] == vars[..k] + [v];
    r := Ok(next);
  }

  /** The derivation IDs of the endogenous variables, and of the exogenous ones. */
  method CollectVars(inv: seq<(int, int)>, kinds: seq<Kind>) returns (vars: seq<nat>)
    requires Known(inv, kinds)
    ensures Ascending(vars) && AllBelow(vars, |inv|)
    ensures forall i: nat :: i in vars <==> i < |inv| && (IsEndo(inv, kinds, i) || ExoColumn(inv, kinds, i) >= 0)
  {
    vars := [];
    for i := 0 to |inv|
      invariant Ascending(vars) && AllBelow(vars, i)
      invariant forall j: nat :: j in vars <==> j < i && (IsEndo(inv, kinds, j) || ExoColumn(inv, kinds, j) >= 0)
    {
      var kind := kinds[inv[i].0];
      if kind == Endogenous || kind == Exogenous || kind == ExogenousDet {
        vars := vars + [i];
      }
    }
  }

  /** The derivatives of all orders of a model. */
  datatype ModelDerivatives = ModelDerivatives(vars: seq<nat>, first: seq<Entry>, second: seq<Entry>, third: seq<Entry>,
                                               nnz2: nat, nnz3: nat)

  /** The stored derivatives of each order are those of the order before. */
  ghost predicate DerivativesOf(m: ModelDerivatives, equations: seq<Expr>, d: (Expr, nat) -> Expr) {
    && FirstExact(m.first, equations, m.vars, d)
    && Stored(m.second, 2) && NextExact(m.second, m.first, m.vars, d) && m.nnz2 == Total(m.second)
    && Stored(m.third, 3) && NextExact(m.third, m.second, m.vars, d) && m.nnz3 == Total(m.third)
  }

  /** A derivative of an equation, of a first derivative that is not the node 0, or of a derivative of such a one, ends the
      program. */
  ghost predicate Ending(c: Tree, ids: seq<DerivId>, equations: seq<Expr>, vars: seq<nat>)
    requires AllBelow(vars, |ids|)
  {
    || (exists e, v :: e in equations && v in vars && Derivative(c, e, ids[v]) == Exit)
    || FirstEnds(c, ids, equations, vars)
    || SecondEnds(c, ids, equations, vars)
  }

  ghost predicate FirstEnds(c: Tree, ids: seq<DerivId>, equations: seq<Expr>, vars: seq<nat>)
    requires AllBelow(vars, |ids|)
  {
    exists e :: FirstSound(e, equations, vars, By(c, ids)) && EndsBelow(c, ids, e, vars)
  }

  ghost predicate SecondEnds(c: Tree, ids: seq<DerivId>, equations: seq<Expr>, vars: seq<nat>)
    requires AllBelow(vars, |ids|)
  {
    exists e, v :: && FirstSound(e, equations, vars, By(c, ids)) && v in vars && Comes(e, v, By(c, ids))
                   && EndsBelow(c, ids, Next(e, v, By(c, ids)), vars)
  }

  lemma InFirstExact(first: seq<Entry>, equations: seq<Expr>, vars: seq<nat>, d: (Expr, nat) -> Expr, e: Entry)
    requires FirstExact(first, equations, vars, d)
    ensures e in first <==> FirstSound(e, equations, vars, d)
  {
    if FirstSound(e, equations, vars, d) {
      assert e.vars == [e.vars[0]] && e == First(equations, e.eq, e.vars[0], d);
    }
  }

  lemma FirstEnding(c: Tree, ids: seq<DerivId>, equations: seq<Expr>, vars: seq<nat>, first: seq<Entry>)
    requires AllBelow(vars, |ids|) && FirstExact(first, equations, vars, By(c, ids))
    ensures FirstEnds(c, ids, equations, vars) <==> exists e :: e in first && EndsBelow(c, ids, e, vars)
  {
    hide FirstExact, FirstSound, EndsBelow, By;
    forall e ensures e in first <==> FirstSound(e, equations, vars, By(c, ids)) {
      InFirstExact(first, equations, vars, By(c, ids), e);
    }
  }

  lemma SecondEnding(c: Tree, ids: seq<DerivId>, equations: seq<Expr>, vars: seq<nat>, first: seq<Entry>, second: seq<Entry>)
    requires AllBelow(vars, |ids|) && FirstExact(first, equations, vars, By(c, ids))
    requires NextExact(second, first, vars, By(c, ids))
    ensures SecondEnds(c, ids, equations, vars) <==> exists n :: n in second && EndsBelow(c, ids, n, vars)
  {
    hide FirstExact, FirstSound, EndsBelow, By, Comes, Next;
    forall e ensures e in first <==> FirstSound(e, equations, vars, By(c, ids)) {
      InFirstExact(first, equations, vars, By(c, ids), e);
    }
    if n :| n in second && EndsBelow(c, ids, n, vars) {
      assert NextSound(n, first, vars, By(c, ids));
    }
  }

  /** From the equations to the derivatives of order 1, 2 and 3; the program ends exactly when a derivative that is computed
      ends it. */
  method ComputingPass(equations: seq<Expr>, tables: DerivationTables, cache: DerivativeCache)
    returns (r: Outcome<ModelDerivatives>, ghost vars: seq<nat>)
    requires tables.derivIdTable == map[] && tables.invDerivIdTable == [] && tables.dynJacobianColsTable == map[]
    requires cache.Valid() && NonZeroConstants(cache.c.m)
    requires forall e :: e in equations ==> Typed(e, tables.kinds) && Built(cache.c, e)
    modifies tables, cache
    ensures Known(tables.invDerivIdTable, tables.kinds)
    ensures Numbering(tables.derivIdTable, tables.invDerivIdTable) && tables.derivIdTable.Keys == AllVariables(equations)
    ensures HoldsVariables(tables.derivIdTable.Keys, equations, tables.kinds)
    ensures Columns(tables.dynJacobianColsTable, tables.invDerivIdTable, tables.kinds, true)
    ensures Ascending(vars) && AllBelow(vars, |tables.invDerivIdTable|)
    ensures forall v: nat :: v in vars <==> v in tables.dynJacobianColsTable
    ensures Selects(vars, DerivIds(tables.invDerivIdTable, tables.kinds), equations)
    ensures OthersNull(vars, DerivIds(tables.invDerivIdTable, tables.kinds), equations, cache.c)
    ensures r.Exit? <==> Ending(cache.c, DerivIds(tables.invDerivIdTable, tables.kinds), equations, vars)
    ensures r.Ok? ==> && DerivativesOf(r.value, equations, By(cache.c, DerivIds(tables.invDerivIdTable, tables.kinds)))
                      && r.value.vars == vars
  {
    hide Numbering, Columns, Stored, NextExact, FirstExact, Built, AllBuilt, Total, Ends, EndsBelow, Derivative, AllVariables,
         By, FirstEnds, SecondEnds, Selects, OthersNull, HoldsVariables, Typed;
    tables.ComputeDerivIDs(equations);
    tables.ComputeDynJacobianCols(true);
    var ids := DerivIds(tables.invDerivIdTable, tables.kinds);
    var indices := CollectVars(tables.invDerivIdTable, tables.kinds);
    vars := indices;
    VarsHaveColumns(vars, tables.dynJacobianColsTable, tables.invDerivIdTable, tables.kinds);
    VarsSelect(vars, tables.derivIdTable, tables.invDerivIdTable, tables.kinds, equations, cache.c);
    var first := ComputeJacobian(equations, indices, cache, ids);
    if first.Exit? {
      return Exit, vars;
    }
    FirstStored(first.value, equations, vars, By(cache.c, ids));
    FirstEnding(cache.c, ids, equations, vars, first.value);
    var second, nnz2 := NextDerivatives(first.value, 1, indices, cache, ids);
    if second.Exit? {
      return Exit, vars;
    }
    SecondEnding(cache.c, ids, equations, vars, first.value, second.value);
    var third, nnz3 := NextDerivatives(second.value, 2, indices, cache, ids);
    if third.Exit? {
      return Exit, vars;
    }
    r := Ok(ModelDerivatives(indices, first.value, second.value, third.value, nnz2, nnz3));
  }

  lemma FirstStored(r: seq<Entry>, equations: seq<Expr>, vars: seq<nat>, d: (Expr, nat) -> Expr)
    requires FirstExact(r, equations, vars, d)
    ensures Stored(r, 1)
  {
  }

  lemma VarsHaveColumns(vars: seq<nat>, cols: map<nat, nat>, inv: seq<(int, int)>, kinds: seq<Kind>)
    requires Known(inv, kinds) && Columns(cols, inv, kinds, true)
    requires forall i: nat :: i in vars <==> i < |inv| && (IsEndo(inv, kinds, i) || ExoColumn(inv, kinds, i) >= 0)
    ensures forall v: nat :: v in vars <==> v in cols
  {
  }

  predicate Derived(k: Kind) {
    k == Endogenous || k == Exogenous || k == ExogenousDet
  }

  predicate IsId(vars: seq<nat>, ids: seq<DerivId>, x: DerivId)
    requires AllBelow(vars, |ids|)
  {
    exists v :: v in vars && ids[v] == x
  }

  /** The indices are exactly those of the endogenous and exogenous variables, deterministic ones included, that appear in
      an equation, at every lead or lag at which they do. */
  ghost predicate Selects(vars: seq<nat>, ids: seq<DerivId>, equations: seq<Expr>)
    requires AllBelow(vars, |ids|)
  {
    forall x: DerivId :: IsId(vars, ids, x) <==> Derived(x.0.kind) && Appears(equations, x.0, x.1)
  }

  /** The derivatives with respect to the others are the node 0. */
  ghost predicate OthersNull(vars: seq<nat>, ids: seq<DerivId>, equations: seq<Expr>, c: Tree)
    requires AllBelow(vars, |ids|)
  {
    forall e, x: DerivId :: e in equations && Derived(x.0.kind) && !IsId(vars, ids, x) ==> Derivative(c, e, x) == Ok(Zero)
  }

  lemma VarsSelect(vars: seq<nat>, table: map<(int, int), nat>, inv: seq<(int, int)>, kinds: seq<Kind>,
                   equations: seq<Expr>, c: Tree)
    requires Known(inv, kinds) && Numbering(table, inv) && HoldsVariables(table.Keys, equations, kinds)
    requires AllBelow(vars, |inv|) && NonZeroConstants(c.m)
    requires forall i: nat :: i in vars <==> i < |inv| && (IsEndo(inv, kinds, i) || ExoColumn(inv, kinds, i) >= 0)
    requires forall e :: e in equations ==> Typed(e, kinds) && Built(c, e)
    ensures Selects(vars, DerivIds(inv, kinds), equations) && OthersNull(vars, DerivIds(inv, kinds), equations, c)
  {
    hide Derivative, Built;
    var ids := DerivIds(inv, kinds);
    forall x: DerivId ensures IsId(vars, ids, x) <==> Derived(x.0.kind) && Appears(equations, x.0, x.1) {
      if IsId(vars, ids, x) {
        var v :| v in vars && ids[v] == x;
        assert inv[v] in table;
      }
      if Derived(x.0.kind) && Appears(equations, x.0, x.1) {
        AppearsTyped(equations, kinds, x);
        assert (x.0.id as int, x.1) in table;
        var v := table[(x.0.id as int, x.1)];
        assert v in vars && ids[v] == x;
      }
    }
    forall e, x: DerivId | e in equations && Derived(x.0.kind) && !IsId(vars, ids, x)
      ensures Derivative(c, e, x) == Ok(Zero)
    {
      assert x !in NonNull(e) by {
        assert !Appears(equations, x.0, x.1);
      }
      Sparse(c, e, x);
    }
  }

  lemma AppearsTyped(es: seq<Expr>, kinds: seq<Kind>, x: DerivId)
    requires Appears(es, x.0, x.1) && forall e :: e in es ==> Typed(e, kinds)
    ensures x.0.id < |kinds| && kinds[x.0.id] == x.0.kind
  {
    var e :| e in es && x in NonNull(e);
    TypedVariable(e, kinds, x);
  }

  lemma {:induction false} TypedVariable(e: Expr, kinds: seq<Kind>, x: DerivId)
    requires Typed(e, kinds) && x in NonNull(e)
    ensures x.0.id < |kinds| && kinds[x.0.id] == x.0.kind
  {
    match e
    case Un(_, arg) => TypedVariable(arg, kinds, x);
    case Bin(_, l, r) => TypedVariable(if x in NonNull(l) then l else r, kinds, x);
    case _ =>
  }

  /** An entry of the next order comes from the entry of its first indices. */
  lemma NextFrom(n: Entry, es: seq<Entry>, vars: seq<nat>, d: (Expr, nat) -> Expr, e: Entry, w: nat)
    requires n.eq == e.eq && n.vars == e.vars + [w] && |e.vars| > 0 && w in vars && w <= e.vars[|e.vars| - 1]
    requires forall f :: f in es && f.eq == e.eq && f.vars == e.vars ==> f == e
    ensures NextSound(n, es, vars, d) <==> e in es && Comes(e, w, d) && n.d == d(e.d, w)
  {
    if NextSound(n, es, vars, d) {
      var f, u :| f in es && u in vars && Comes(f, u, d) && n == Next(f, u, d);
      assert n.vars[..|n.vars| - 1] == f.vars && n.vars[..|n.vars| - 1] == e.vars;
    }
    if e in es && Comes(e, w, d) && n.d == d(e.d, w) {
      assert n == Next(e, w, d);
    }
  }

  lemma InNext(n: Entry, r: seq<Entry>, es: seq<Entry>, vars: seq<nat>, d: (Expr, nat) -> Expr)
    requires NextExact(r, es, vars, d)
    ensures n in r <==> NextSound(n, es, vars, d)
  {
  }

  lemma InFirst(e: Entry, m: ModelDerivatives, equations: seq<Expr>, d: (Expr, nat) -> Expr, eq: nat, v: nat)
    requires FirstExact(m.first, equations, m.vars, d) && eq < |equations| && v in m.vars && e.eq == eq && e.vars == [v]
    ensures e in m.first <==> d(equations[eq], v) != Zero && e.d == d(equations[eq], v)
  {
    if e in m.first {
      assert FirstSound(e, equations, m.vars, d);
    }
    if d(equations[eq], v) != Zero && e.d == d(equations[eq], v) {
      assert e == First(equations, eq, v, d);
    }
  }

  /** What is stored for two indices: the derivative of the derivative, unless one of the two is the node 0. */
  lemma SecondDerivatives(m: ModelDerivatives, equations: seq<Expr>, d: (Expr, nat) -> Expr, eq: nat, v: nat, w: nat, x: Expr)
    requires DerivativesOf(m, equations, d) && eq < |equations| && v in m.vars && w in m.vars && w <= v
    ensures Entry(eq, [v, w], x) in m.second
            <==> d(equations[eq], v) != Zero && d(d(equations[eq], v), w) != Zero && x == d(d(equations[eq], v), w)
  {
    hide FirstExact, NextExact, Stored;
    var e, n := Entry(eq, [v], d(equations[eq], v)), Entry(eq, [v, w], x);
    forall f | f in m.first && f.eq == eq && f.vars == [v] ensures f == e {
      InFirst(f, m, equations, d, eq, v);
    }
    InFirst(e, m, equations, d, eq, v);
    InNext(n, m.second, m.first, m.vars, d);
    NextFrom(n, m.first, m.vars, d, e, w);
  }

  /** The same for three indices. */
  lemma ThirdDerivatives(m: ModelDerivatives, equations: seq<Expr>, d: (Expr, nat) -> Expr, eq: nat, v: nat, w: nat, u: nat,
                         x: Expr)
    requires DerivativesOf(m, equations, d) && eq < |equations| && v in m.vars && w in m.vars && u in m.vars && u <= w <= v
    ensures Entry(eq, [v, w, u], x) in m.third
            <==> && d(equations[eq], v) != Zero && d(d(equations[eq], v), w) != Zero
                 && d(d(d(equations[eq], v), w), u) != Zero && x == d(d(d(equations[eq], v), w), u)
  {
    var e, n := Entry(eq, [v, w], d(d(equations[eq], v), w)), Entry(eq, [v, w, u], x);
    forall f | f in m.second && f.eq == eq && f.vars == [v, w] ensures f == e {
      SecondDerivatives(m, equations, d, eq, v, w, f.d);
    }
    SecondDerivatives(m, equations, d, eq, v, w, e.d);
    InNext(n, m.third, m.second, m.vars, d);
    hide FirstExact, NextExact, Stored;
    NextFrom(n, m.second, m.vars, d, e, u);
  }

  lemma NextNumbered(r: seq<Entry>, es: seq<Entry>, vars: seq<nat>, d: (Expr, nat) -> Expr, cols: map<nat, nat>,
                     n: nat)
    requires NextExact(r, es, vars, d) && AllNumbered(es, cols, n)
    requires forall v :: v in vars ==> v in cols && cols[v] < n
    ensures AllNumbered(r, cols, n)
  {
    forall m | m in r ensures Numbered(m, cols, n) {
      var e, v :| e in es && v in vars && Comes(e, v, d) && m == Next(e, v, d);
      assert Numbered(e, cols, n);
    }
  }

  /** Writes both matrices, for the columns of the Jacobian: they are exact whenever no exogenous symbol appears with two
      leads or lags. */
  method WriteMatrices(m: ModelDerivatives, ghost equations: seq<Expr>, ghost d: (Expr, nat) -> Expr, cols: map<nat, nat>,
                       inv: seq<(int, int)>, kinds: seq<Kind>)
    returns (hessian: seq<Row>, cube: seq<Row>)
    requires Known(inv, kinds) && Columns(cols, inv, kinds, true) && OneLag(inv, kinds)
    requires forall i, j :: 0 <= i < j < |inv| ==> Before(inv[i], inv[j])
    requires DerivativesOf(m, equations, d) && forall v :: v in m.vars ==> v in cols
    ensures var n := ColumnCount(inv, kinds, true);
            AllNumbered(m.second, cols, n) && Exact(hessian, m.second, cols, n) && |hessian| == m.nnz2
    ensures var n := ColumnCount(inv, kinds, true);
            AllNumbered(m.third, cols, n) && Exact(cube, m.third, cols, n) && |cube| == m.nnz3
  {
    hide Stored, NextExact, FirstExact, Exact, Numbered, Columns;
    var n := ColumnCount(inv, kinds, true);
    ColumnsInjective(cols, inv, kinds, true);
    forall v | v in m.vars ensures v in cols && cols[v] < n {
      ColumnBelow(cols, inv, kinds, true, v);
    }
    FirstNumbered(m.first, equations, m.vars, d, cols, n);
    NextNumbered(m.second, m.first, m.vars, d, cols, n);
    hessian := WriteHessian(m.second, cols, n);
    NextNumbered(m.third, m.second, m.vars, d, cols, n);
    cube := WriteThirdDerivatives(m.third, cols, n);
  }

  lemma FirstNumbered(es: seq<Entry>, equations: seq<Expr>, vars: seq<nat>, d: (Expr, nat) -> Expr, cols: map<nat, nat>,
                      n: nat)
    requires FirstExact(es, equations, vars, d) && forall v :: v in vars ==> v in cols && cols[v] < n
    ensures AllNumbered(es, cols, n)
  {
    forall e | e in es ensures Numbered(e, cols, n) {
      assert FirstSound(e, equations, vars, d);
    }
  }
}
