/** The code of the derivatives: the update section, the Jacobian section, and the two back-patched jumps that
    select one of them. */
module DerivativeCode {
  import opened Results
  import opened Expressions
  import opened Bytecode
  import opened ExpressionCode
  import opened BlockCode
  import BlockHeaders

  /** A derivative of an equation with respect to an endogenous variable. */
  datatype Entry = Entry(equation: nat, sym: Symbol, lag: int, d: Expr)

  // ----- the update section: u[i] := r[i] - sum of the derivatives of equation i times their variables

  /** The code that stores derivative k in u[base + k], for the first n derivatives. */
  function DerivativesCode(entries: seq<Entry>, n: nat, base: nat, terms: set<Expr>, slot: map<Expr, nat>)
    : seq<Instruction>
    requires n <= |entries| && terms <= slot.Keys
  {
    if n == 0 then []
    else
      DerivativesCode(entries, n - 1, base, terms, slot)
      + ([FNUMEXPR(FirstEndoDerivative, entries[n - 1].equation)]
         + (Code(entries[n - 1].d, terms, slot) + [FSTPU(base + n - 1)]))
  }

  /** The indices below n of the derivatives of an equation. */
  function RowOf(entries: seq<Entry>, equation: nat, n: nat): (row: seq<nat>)
    requires n <= |entries|
    ensures forall i :: 0 <= i < |row| ==> row[i] < n && entries[row[i]].equation == equation
  {
    if n == 0 then []
    else
      var row := RowOf(entries, equation, n - 1);
      if entries[n - 1].equation == equation then row + [n - 1] else row
  }

  /** The code that adds up the first n products of a row on the stack. */
  function RowCode(entries: seq<Entry>, row: seq<nat>, n: nat, base: nat): seq<Instruction>
    requires n <= |row| && forall i :: 0 <= i < |row| ==> row[i] < |entries|
  {
    if n == 0 then []
    else
      var k := row[n - 1];
      RowCode(entries, row, n - 1, base)
      + ([FLDU(base + k), FLDV(entries[k].sym, entries[k].lag), FBINARY(Times)]
         + (if n > 1 then [FBINARY(Plus)] else []))
  }

  function UpdateRowCode(entries: seq<Entry>, i: nat, base: nat): seq<Instruction> {
    var row := RowOf(entries, i, |entries|);
    [FLDR(i)] + (RowCode(entries, row, |row|, base) + ((if row != [] then [FBINARY(Minus)] else []) + [FSTPU(i)]))
  }

  function UpdateRowsCode(entries: seq<Entry>, n: nat, base: nat): seq<Instruction> {
    if n == 0 then [] else UpdateRowsCode(entries, n - 1, base) + UpdateRowCode(entries, n - 1, base)
  }

  /** The whole update section of a model with n equations. */
  function UpdateCode(entries: seq<Entry>, n: nat, terms: set<Expr>, slot: map<Expr, nat>): seq<Instruction>
    requires terms <= slot.Keys
  {
    DerivativesCode(entries, |entries|, n, terms, slot) + UpdateRowsCode(entries, n, n)
  }

  predicate HasU(s: State, base: nat, k: nat) {
    base + k in s.u
  }

  function UAt(s: State, base: nat, k: nat): real {
    if base + k in s.u then s.u[base + k] else 0.0
  }

  /** The sum of derivative times variable over the first n members of a row. */
  function RowSum(entries: seq<Entry>, row: seq<nat>, n: nat, base: nat, s: State, t: int): real
    requires n <= |row| && forall i :: 0 <= i < |row| ==> row[i] < |entries|
  {
    if n == 0 then 0.0
    else
      var e := entries[row[n - 1]];
      RowSum(entries, row, n - 1, base, s, t) + UAt(s, base, row[n - 1]) * s.path(e.sym, DateOf(e.sym, e.lag, t))
  }

  ghost predicate HaveU(entries: seq<Entry>, base: nat, s: State) {
    forall k :: 0 <= k < |entries| ==> HasU(s, base, k)
  }

  /** Derivative k has its value in u[base + k]. */
  predicate DerivativeAt(m: Functions, t: int, entries: seq<Entry>, k: nat, base: nat, s: State)
    requires k < |entries|
  {
    base + k in s.u && Value(m, entries[k].d, s.path, t) == Some(s.u[base + k])
  }

  /** The first n derivatives have a value and are executable. */
  ghost predicate AllCompute(m: Functions, t: int, entries: seq<Entry>, n: nat, terms: set<Expr>, path: Path)
    requires n <= |entries|
  {
    forall k :: 0 <= k < n ==> ComputesAt(m, t, entries, k, terms, path)
  }

  predicate ComputesAt(m: Functions, t: int, entries: seq<Entry>, k: nat, terms: set<Expr>, path: Path)
    requires k < |entries|
  {
    Computes(m, t, entries[k].d, terms, path)
  }

  lemma {:induction false} DerivativesCorrect(m: Functions, t: int, entries: seq<Entry>, n: nat, base: nat,
                                              terms: set<Expr>, slot: map<Expr, nat>, s: State)
    requires n <= |entries| && terms <= slot.Keys && SlotsHold(m, t, terms, slot, s)
    requires forall k :: 0 <= k < |entries| ==> NoEquality(entries[k].d)
    ensures var r := ExecAll(m, t, DerivativesCode(entries, n, base, terms, slot), s);
            && (r.Some? <==> AllCompute(m, t, entries, n, terms, s.path))
            && (r.Some? ==> r.value == s.(u := r.value.u, expression := r.value.expression)
                            && forall k :: 0 <= k < n ==> DerivativeAt(m, t, entries, k, base, r.value))
    decreases n
  {
    hide Code, ExecAll, Exec, SlotsHold, Value, Executable;
    if n == 0 {
      ExecNothing(m, t, s);
    } else {
      var code := DerivativesCode(entries, n - 1, base, terms, slot);
      var e := entries[n - 1];
      var head, body := [FNUMEXPR(FirstEndoDerivative, e.equation)], Code(e.d, terms, slot) + [FSTPU(base + n - 1)];
      ExecAppend(m, t, code, head + body, s);
      DerivativesCorrect(m, t, entries, n - 1, base, terms, slot, s);
      assert AllCompute(m, t, entries, n, terms, s.path)
             <==> AllCompute(m, t, entries, n - 1, terms, s.path) && ComputesAt(m, t, entries, n - 1, terms, s.path);
      if AllCompute(m, t, entries, n - 1, terms, s.path) {
        var s1 := ExecAll(m, t, code, s).value;
        ExecAppend(m, t, head, body, s1);
        Heading(m, t, FirstEndoDerivative, e.equation, s1);
        var s2 := Announce(s1, FirstEndoDerivative, e.equation);
        ArgumentCode(m, t, e.d, terms, slot, s, s2, [FSTPU(base + n - 1)]);
        if ComputesAt(m, t, entries, n - 1, terms, s.path) {
          StoreU(m, t, base + n - 1, s2, Value(m, e.d, s2.path, t).value);
          var s' := ExecAll(m, t, DerivativesCode(entries, n, base, terms, slot), s).value;
          forall k | 0 <= k < n ensures DerivativeAt(m, t, entries, k, base, s') {
            if k < n - 1 {
              assert DerivativeAt(m, t, entries, k, base, s1);
            }
          }
        }
      }
    }
  }

  lemma StoreU(m: Functions, t: int, k: nat, s: State, v: real)
    ensures ExecAll(m, t, [FSTPU(k)], Push(s, v)) == Some(s.(u := s.u[k := v]))
  {
    ExecOne(m, t, FSTPU(k), Push(s, v));
    PushPop(s, v);
  }

  lemma LoadProduct(m: Functions, t: int, k: nat, sym: Symbol, lag: int, s: State, v: real)
    requires k in s.u && v == s.u[k] * s.path(sym, DateOf(sym, lag, t))
    ensures ExecAll(m, t, [FLDU(k), FLDV(sym, lag), FBINARY(Times)], s) == Some(Push(s, v))
  {
    hide ExecAll;
    var a, b := s.u[k], s.path(sym, DateOf(sym, lag, t));
    assert [FLDU(k), FLDV(sym, lag), FBINARY(Times)] == [FLDU(k)] + ([FLDV(sym, lag)] + [FBINARY(Times)]);
    ExecAppend(m, t, [FLDU(k)], [FLDV(sym, lag)] + [FBINARY(Times)], s);
    ExecOne(m, t, FLDU(k), s);
    ExecAppend(m, t, [FLDV(sym, lag)], [FBINARY(Times)], Push(s, a));
    ExecOne(m, t, FLDV(sym, lag), Push(s, a));
    BinaryOnTop(m, t, Times, s, a, b);
  }

  /** The products of a row leave their sum on the stack. */
  lemma {:induction false} RowCorrect(m: Functions, t: int, entries: seq<Entry>, row: seq<nat>, n: nat, base: nat, s: State)
    requires n <= |row| && (forall i :: 0 <= i < |row| ==> row[i] < |entries|) && HaveU(entries, base, s)
    ensures ExecAll(m, t, RowCode(entries, row, n, base), s)
            == Some(if n == 0 then s else Push(s, RowSum(entries, row, n, base, s, t)))
    decreases n
  {
    hide ExecAll;
    if n == 0 {
      ExecNothing(m, t, s);
    } else {
      RowCorrect(m, t, entries, row, n - 1, base, s);
      var k, code := row[n - 1], RowCode(entries, row, n - 1, base);
      var sym, lag := entries[k].sym, entries[k].lag;
      var load, add := [FLDU(base + k), FLDV(sym, lag), FBINARY(Times)], if n > 1 then [FBINARY(Plus)] else [];
      assert HasU(s, base, k);
      var v, sum := UAt(s, base, k) * s.path(sym, DateOf(sym, lag, t)), RowSum(entries, row, n - 1, base, s, t);
      ExecAppend(m, t, code, load + add, s);
      var s1 := if n > 1 then Push(s, sum) else s;
      ExecAppend(m, t, load, add, s1);
      LoadProduct(m, t, base + k, sym, lag, s1, v);
      if n > 1 {
        AddOnTop(m, t, s, sum, v, RowSum(entries, row, n, base, s, t));
      } else {
        ExecNothing(m, t, Push(s, v));
        assert RowSum(entries, row, 0, base, s, t) == 0.0;
        assert RowSum(entries, row, 1, base, s, t) == v;
      }
    }
  }

  lemma AddOnTop(m: Functions, t: int, s: State, v: real, w: real, z: real)
    requires z == v + w
    ensures ExecAll(m, t, [FBINARY(Plus)], Push(Push(s, v), w)) == Some(Push(s, z))
  {
    BinaryOnTop(m, t, Plus, s, v, w);
  }

  /** What one row of the update section stores. */
  lemma UpdateRowCorrect(m: Functions, t: int, entries: seq<Entry>, i: nat, base: nat, s: State)
    requires HaveU(entries, base, s) && i in s.residuals
    ensures var row := RowOf(entries, i, |entries|);
            ExecAll(m, t, UpdateRowCode(entries, i, base), s)
            == Some(s.(u := s.u[i := s.residuals[i] - RowSum(entries, row, |row|, base, s, t)]))
  {
    hide ExecAll, RowCode, RowOf;
    var row := RowOf(entries, i, |entries|);
    var code, minus := RowCode(entries, row, |row|, base), if row != [] then [FBINARY(Minus)] else [];
    var r, sum := s.residuals[i], RowSum(entries, row, |row|, base, s, t);
    ExecAppend(m, t, [FLDR(i)], code + (minus + [FSTPU(i)]), s);
    ExecOne(m, t, FLDR(i), s);
    var s1 := Push(s, r);
    ExecAppend(m, t, code, minus + [FSTPU(i)], s1);
    assert HaveU(entries, base, s1) by {
      forall k | 0 <= k < |entries| ensures HasU(s1, base, k) {
        assert HasU(s, base, k);
      }
    }
    RowCorrect(m, t, entries, row, |row|, base, s1);
    RowSumSame(entries, row, |row|, base, s, s1, t);
    if row != [] {
      ExecAppend(m, t, minus, [FSTPU(i)], Push(s1, sum));
      BinaryOnTop(m, t, Minus, s, r, sum);
      StoreU(m, t, i, s, r - sum);
    } else {
      assert minus + [FSTPU(i)] == [FSTPU(i)];
      assert sum == 0.0;
      StoreU(m, t, i, s, r);
    }
  }

  lemma {:induction false} RowSumSame(entries: seq<Entry>, row: seq<nat>, n: nat, base: nat, s: State, s': State, t: int)
    requires n <= |row| && s'.path == s.path
    requires forall i :: 0 <= i < |row| ==> row[i] < |entries| && UAt(s', base, row[i]) == UAt(s, base, row[i])
    ensures RowSum(entries, row, n, base, s', t) == RowSum(entries, row, n, base, s, t)
    decreases n
  {
    if n > 0 {
      RowSumSame(entries, row, n - 1, base, s, s', t);
    }
  }

  /** u[i] holds the residual of equation i minus the sum of its derivatives times their variables. */
  predicate Updated(entries: seq<Entry>, i: nat, base: nat, s: State, t: int) {
    var row := RowOf(entries, i, |entries|);
    i in s.u && i in s.residuals && s.u[i] == s.residuals[i] - RowSum(entries, row, |row|, base, s, t)
  }

  predicate SameU(s: State, s': State, base: nat, k: nat) {
    HasU(s, base, k) && HasU(s', base, k) && UAt(s', base, k) == UAt(s, base, k)
  }

  /** The rows: u[i] becomes r[i] minus the row sum, for i below n, which is at most the base of the derivatives. */
  lemma {:induction false} UpdateRowsCorrect(m: Functions, t: int, entries: seq<Entry>, n: nat, base: nat, s: State)
    requires n <= base && HaveU(entries, base, s) && forall i :: 0 <= i < n ==> i in s.residuals
    ensures ExecAll(m, t, UpdateRowsCode(entries, n, base), s).Some?
    ensures var s' := ExecAll(m, t, UpdateRowsCode(entries, n, base), s).value;
            && s' == s.(u := s'.u)
            && (forall k :: 0 <= k < |entries| ==> SameU(s, s', base, k))
            && (forall i :: 0 <= i < n ==> Updated(entries, i, base, s', t))
    decreases n
  {
    hide ExecAll, UpdateRowCode, RowOf, RowSum;
    if n == 0 {
      ExecNothing(m, t, s);
      forall k | 0 <= k < |entries| ensures SameU(s, s, base, k) {
        assert HasU(s, base, k);
      }
    } else {
      var code, last := UpdateRowsCode(entries, n - 1, base), UpdateRowCode(entries, n - 1, base);
      ExecAppend(m, t, code, last, s);
      UpdateRowsCorrect(m, t, entries, n - 1, base, s);
      var s1 := ExecAll(m, t, code, s).value;
      forall k | 0 <= k < |entries| ensures HasU(s1, base, k) {
        assert SameU(s, s1, base, k);
      }
      UpdateRowCorrect(m, t, entries, n - 1, base, s1);
      var s' := ExecAll(m, t, UpdateRowsCode(entries, n, base), s).value;
      forall k | 0 <= k < |entries| ensures SameU(s, s', base, k) && SameU(s1, s', base, k) {
        assert SameU(s, s1, base, k);
      }
      forall i | 0 <= i < n ensures Updated(entries, i, base, s', t) {
        var row := RowOf(entries, i, |entries|);
        forall j | 0 <= j < |row| ensures row[j] < |entries| && UAt(s', base, row[j]) == UAt(s1, base, row[j]) {
          assert SameU(s1, s', base, row[j]);
        }
        RowSumSame(entries, row, |row|, base, s1, s', t);
        if i < n - 1 {
          assert Updated(entries, i, base, s1, t);
        }
      }
    }
  }

  /** The update section runs to its end exactly when every derivative has a value and is executable. Then u[n + k] holds
      derivative k, and u[i] holds the residual of equation i minus the sum of its derivatives times their variables. */
  lemma UpdateCorrect(m: Functions, t: int, entries: seq<Entry>, n: nat, terms: set<Expr>, slot: map<Expr, nat>, s: State)
    requires terms <= slot.Keys && SlotsHold(m, t, terms, slot, s)
    requires forall k :: 0 <= k < |entries| ==> NoEquality(entries[k].d)
    requires forall i :: 0 <= i < n ==> i in s.residuals
    ensures var r := ExecAll(m, t, UpdateCode(entries, n, terms, slot), s);
            && (r.Some? <==> AllCompute(m, t, entries, |entries|, terms, s.path))
            && (r.Some? ==> r.value == s.(u := r.value.u, expression := r.value.expression)
                            && (forall k :: 0 <= k < |entries| ==> DerivativeAt(m, t, entries, k, n, r.value))
                            && (forall i :: 0 <= i < n ==> Updated(entries, i, n, r.value, t)))
  {
    hide ExecAll, DerivativesCode, UpdateRowsCode, RowOf, RowSum, SlotsHold, AllCompute;
    var first, rows := DerivativesCode(entries, |entries|, n, terms, slot), UpdateRowsCode(entries, n, n);
    ExecAppend(m, t, first, rows, s);
    DerivativesCorrect(m, t, entries, |entries|, n, terms, slot, s);
    if AllCompute(m, t, entries, |entries|, terms, s.path) {
      var s1 := ExecAll(m, t, first, s).value;
      forall k | 0 <= k < |entries| ensures HasU(s1, n, k) {
        assert DerivativeAt(m, t, entries, k, n, s1);
      }
      UpdateRowsCorrect(m, t, entries, n, n, s1);
      var s' := ExecAll(m, t, UpdateCode(entries, n, terms, slot), s).value;
      forall k | 0 <= k < |entries| ensures DerivativeAt(m, t, entries, k, n, s') {
        assert DerivativeAt(m, t, entries, k, n, s1) && SameU(s1, s', n, k);
      }
    }
  }

  // ----- the Jacobian section

  /** The order of the entries of the Jacobian: by lag, then variable. */
  predicate SameColumn(a: Entry, b: Entry) {
    a.sym == b.sym && a.lag == b.lag
  }

  /** The column counter after entry k: it advances when the variable or the lag changes. */
  function Column(entries: seq<Entry>, k: nat): nat
    requires k < |entries|
  {
    if k == 0 then 0
    else if SameColumn(entries[k - 1], entries[k]) then Column(entries, k - 1)
    else Column(entries, k - 1) + 1
  }

  /** Entries of one variable and lag are contiguous, as in the ordered map they come from. */
  ghost predicate Grouped(entries: seq<Entry>) {
    forall i, j, k :: 0 <= i <= j <= k < |entries| && SameColumn(entries[i], entries[k]) ==>
      SameColumn(entries[i], entries[j])
  }

  lemma {:induction false} ColumnGrows(entries: seq<Entry>, i: nat, k: nat)
    requires i <= k < |entries|
    ensures Column(entries, i) <= Column(entries, k)
    ensures Column(entries, i) == Column(entries, k) ==> SameColumn(entries[i], entries[k])
    decreases k
  {
    if i < k {
      ColumnGrows(entries, i, k - 1);
    }
  }

  lemma {:induction false} ColumnSame(entries: seq<Entry>, i: nat, k: nat)
    requires i <= k < |entries| && Grouped(entries) && SameColumn(entries[i], entries[k])
    ensures Column(entries, i) == Column(entries, k)
    decreases k
  {
    if i < k {
      assert SameColumn(entries[i], entries[k - 1]);
      ColumnSame(entries, i, k - 1);
    }
  }

  /** Two entries share a column exactly when they are derivatives with respect to the same variable and lag. */
  lemma ColumnExact(entries: seq<Entry>, i: nat, k: nat)
    requires i < |entries| && k < |entries| && Grouped(entries)
    ensures Column(entries, i) == Column(entries, k) <==> SameColumn(entries[i], entries[k])
  {
    var a, b := if i <= k then i else k, if i <= k then k else i;
    ColumnGrows(entries, a, b);
    if SameColumn(entries[i], entries[k]) {
      ColumnSame(entries, a, b);
    }
  }

  function EntryCode(e: Entry, column: nat, terms: set<Expr>, slot: map<Expr, nat>): seq<Instruction>
    requires terms <= slot.Keys
  {
    [FNUMEXPR(FirstEndoDerivative, e.equation)]
    + (Code(e.d, terms, slot) + [FSTPG3(e.equation, e.sym.id, e.lag, column)])
  }

  function JacobianCode(entries: seq<Entry>, n: nat, terms: set<Expr>, slot: map<Expr, nat>): seq<Instruction>
    requires n <= |entries| && terms <= slot.Keys
  {
    if n == 0 then []
    else JacobianCode(entries, n - 1, terms, slot) + EntryCode(entries[n - 1], Column(entries, n - 1), terms, slot)
  }

  /** Entry k of the Jacobian holds the value of its derivative. */
  predicate JacobianAt(m: Functions, t: int, entries: seq<Entry>, k: nat, s: State)
    requires k < |entries|
  {
    var place := (entries[k].equation, Column(entries, k));
    place in s.jacobian && Value(m, entries[k].d, s.path, t) == Some(s.jacobian[place])
  }

  /** No two entries are derivatives of one equation with respect to the same variable and lag. */
  ghost predicate DistinctEntries(entries: seq<Entry>) {
    forall i, j :: 0 <= i < j < |entries| && entries[i].equation == entries[j].equation ==>
      !SameColumn(entries[i], entries[j])
  }

  /** The Jacobian section runs to its end exactly when every derivative has a value and is executable; it then has stored
      every derivative at the row of its equation and the column of its variable and lag, and changed nothing else. */
  lemma {:induction false} JacobianCorrect(m: Functions, t: int, entries: seq<Entry>, n: nat, terms: set<Expr>,
                                           slot: map<Expr, nat>, s: State)
    requires n <= |entries| && terms <= slot.Keys && SlotsHold(m, t, terms, slot, s)
    requires Grouped(entries) && DistinctEntries(entries)
    requires forall k :: 0 <= k < |entries| ==> NoEquality(entries[k].d)
    ensures var r := ExecAll(m, t, JacobianCode(entries, n, terms, slot), s);
            && (r.Some? <==> AllCompute(m, t, entries, n, terms, s.path))
            && (r.Some? ==> r.value == s.(jacobian := r.value.jacobian, expression := r.value.expression)
                            && forall k :: 0 <= k < n ==> JacobianAt(m, t, entries, k, r.value))
    decreases n
  {
    hide Code, ExecAll, Exec, SlotsHold, Value, Executable;
    if n == 0 {
      ExecNothing(m, t, s);
    } else {
      var e, column := entries[n - 1], Column(entries, n - 1);
      var code, last := JacobianCode(entries, n - 1, terms, slot), EntryCode(e, column, terms, slot);
      ExecAppend(m, t, code, last, s);
      JacobianCorrect(m, t, entries, n - 1, terms, slot, s);
      assert AllCompute(m, t, entries, n, terms, s.path)
             <==> AllCompute(m, t, entries, n - 1, terms, s.path) && ComputesAt(m, t, entries, n - 1, terms, s.path);
      if AllCompute(m, t, entries, n - 1, terms, s.path) {
        var s1 := ExecAll(m, t, code, s).value;
        var store := FSTPG3(e.equation, e.sym.id, e.lag, column);
        ExecAppend(m, t, [FNUMEXPR(FirstEndoDerivative, e.equation)], Code(e.d, terms, slot) + [store], s1);
        Heading(m, t, FirstEndoDerivative, e.equation, s1);
        var s2 := Announce(s1, FirstEndoDerivative, e.equation);
        ArgumentCode(m, t, e.d, terms, slot, s, s2, [store]);
        if ComputesAt(m, t, entries, n - 1, terms, s.path) {
          StoreJacobian(m, t, e.equation, e.sym.id, e.lag, column, s2, Value(m, e.d, s2.path, t).value);
          JacobianMore(m, t, entries, n, s1, ExecAll(m, t, JacobianCode(entries, n, terms, slot), s).value);
        }
      }
    }
  }

  /** One more entry of the Jacobian, at a place of its own. */
  lemma JacobianMore(m: Functions, t: int, entries: seq<Entry>, n: nat, s: State, s': State)
    requires 0 < n <= |entries| && Grouped(entries) && DistinctEntries(entries)
    requires Value(m, entries[n - 1].d, s.path, t).Some?
    requires forall k :: 0 <= k < n - 1 ==> JacobianAt(m, t, entries, k, s)
    requires s' == Announce(s, FirstEndoDerivative, entries[n - 1].equation).(
                     jacobian := s.jacobian[(entries[n - 1].equation, Column(entries, n - 1))
                                            := Value(m, entries[n - 1].d, s.path, t).value])
    ensures forall k :: 0 <= k < n ==> JacobianAt(m, t, entries, k, s')
  {
    forall k | 0 <= k < n ensures JacobianAt(m, t, entries, k, s') {
      if k < n - 1 {
        assert JacobianAt(m, t, entries, k, s);
        ColumnExact(entries, k, n - 1);
      }
    }
  }

  lemma StoreJacobian(m: Functions, t: int, row: nat, col: nat, lag: int, place: nat, s: State, v: real)
    requires s.expression.0 == FirstEndoDerivative
    ensures ExecAll(m, t, [FSTPG3(row, col, lag, place)], Push(s, v))
            == Some(s.(jacobian := s.jacobian[(row, place) := v]))
  {
    ExecOne(m, t, FSTPG3(row, col, lag, place), Push(s, v));
    PushPop(s, v);
  }

  // ----- the exogenous variables in the Jacobian section

  /** A derivative of an equation with respect to an exogenous variable, by its number within the type. */
  datatype ExoEntry = ExoEntry(equation: nat, number: nat, kind: int, lag: int, d: Expr)

  /** The keys of the ordered map that the entries come from. */
  function KeysOf(entries: seq<ExoEntry>): (keys: seq<BlockHeaders.Key>)
    ensures |keys| == |entries|
  {
    seq(|entries|, k requires 0 <= k < |entries| =>
      ((entries[k].lag, entries[k].kind), (entries[k].number as int, entries[k].equation as int)))
  }

  /** The row and the column of an entry; the column counter ignores the type. */
  function ExoPlace(entries: seq<ExoEntry>, k: nat): (nat, nat)
    requires k < |entries|
  {
    (entries[k].equation, BlockHeaders.SectionColumn(KeysOf(entries), k))
  }

  function ExoEntryCode(e: ExoEntry, column: nat, terms: set<Expr>, slot: map<Expr, nat>): seq<Instruction>
    requires terms <= slot.Keys
  {
    [FNUMEXPR(FirstExoDerivative, e.equation)]
    + (Code(e.d, terms, slot) + [FSTPG3(e.equation, e.number, e.lag, column)])
  }

  function ExoCode(entries: seq<ExoEntry>, n: nat, terms: set<Expr>, slot: map<Expr, nat>): seq<Instruction>
    requires n <= |entries| && terms <= slot.Keys
  {
    if n == 0 then []
    else ExoCode(entries, n - 1, terms, slot) + ExoEntryCode(entries[n - 1], ExoPlace(entries, n - 1).1, terms, slot)
  }

  ghost predicate ExoCompute(m: Functions, t: int, entries: seq<ExoEntry>, n: nat, terms: set<Expr>, path: Path)
    requires n <= |entries|
  {
    forall k :: 0 <= k < n ==> ExoComputesAt(m, t, entries, k, terms, path)
  }

  predicate ExoComputesAt(m: Functions, t: int, entries: seq<ExoEntry>, k: nat, terms: set<Expr>, path: Path)
    requires k < |entries|
  {
    Computes(m, t, entries[k].d, terms, path)
  }

  /** The place of entry k holds the value of its derivative. */
  predicate ExoAt(m: Functions, t: int, entries: seq<ExoEntry>, k: nat, s: State)
    requires k < |entries|
  {
    var place := ExoPlace(entries, k);
    place in s.jacobianExo && Value(m, entries[k].d, s.path, t) == Some(s.jacobianExo[place])
  }

  /** None of the first n entries behind entry k has its place. */
  ghost predicate LastThere(entries: seq<ExoEntry>, k: nat, n: nat)
    requires k < n <= |entries|
  {
    forall j :: k < j < n ==> ExoPlace(entries, j) != ExoPlace(entries, k)
  }

  /** Every place holds the derivative that was stored there last. */
  ghost predicate ExoStored(m: Functions, t: int, entries: seq<ExoEntry>, n: nat, s: State)
    requires n <= |entries|
  {
    forall k :: 0 <= k < n && LastThere(entries, k, n) ==> ExoAt(m, t, entries, k, s)
  }

  /** The exogenous part runs to its end exactly when every derivative has a value and is executable; every place then holds
      the derivative stored there last, and nothing else has changed. */
  lemma {:induction false} ExoCorrect(m: Functions, t: int, entries: seq<ExoEntry>, n: nat, terms: set<Expr>,
                                      slot: map<Expr, nat>, s: State)
    requires n <= |entries| && terms <= slot.Keys && SlotsHold(m, t, terms, slot, s)
    requires forall k :: 0 <= k < |entries| ==> NoEquality(entries[k].d)
    ensures var r := ExecAll(m, t, ExoCode(entries, n, terms, slot), s);
            && (r.Some? <==> ExoCompute(m, t, entries, n, terms, s.path))
            && (r.Some? ==> r.value == s.(jacobianExo := r.value.jacobianExo, expression := r.value.expression)
                            && ExoStored(m, t, entries, n, r.value))
    decreases n
  {
    hide Code, ExecAll, Exec, SlotsHold, Value, Executable, ExoPlace, ExoStored;
    if n == 0 {
      ExecNothing(m, t, s);
      NothingStored(m, t, entries, s);
    } else {
      var e, column := entries[n - 1], ExoPlace(entries, n - 1).1;
      var code, last := ExoCode(entries, n - 1, terms, slot), ExoEntryCode(e, column, terms, slot);
      ExecAppend(m, t, code, last, s);
      ExoCorrect(m, t, entries, n - 1, terms, slot, s);
      assert ExoCompute(m, t, entries, n, terms, s.path)
             <==> ExoCompute(m, t, entries, n - 1, terms, s.path) && ExoComputesAt(m, t, entries, n - 1, terms, s.path);
      if ExoCompute(m, t, entries, n - 1, terms, s.path) {
        var s1 := ExecAll(m, t, code, s).value;
        var store := FSTPG3(e.equation, e.number, e.lag, column);
        ExecAppend(m, t, [FNUMEXPR(FirstExoDerivative, e.equation)], Code(e.d, terms, slot) + [store], s1);
        Heading(m, t, FirstExoDerivative, e.equation, s1);
        var s2 := Announce(s1, FirstExoDerivative, e.equation);
        ArgumentCode(m, t, e.d, terms, slot, s, s2, [store]);
        if ExoComputesAt(m, t, entries, n - 1, terms, s.path) {
          StoreExo(m, t, e.equation, e.number, e.lag, column, s2, Value(m, e.d, s2.path, t).value);
          ExoMore(m, t, entries, n, s1, ExecAll(m, t, ExoCode(entries, n, terms, slot), s).value);
        }
      }
    }
  }

  lemma NothingStored(m: Functions, t: int, entries: seq<ExoEntry>, s: State)
    ensures ExoStored(m, t, entries, 0, s)
  {
  }

  /** One more exogenous entry. */
  lemma ExoMore(m: Functions, t: int, entries: seq<ExoEntry>, n: nat, s: State, s': State)
    requires 0 < n <= |entries| && Value(m, entries[n - 1].d, s.path, t).Some? && ExoStored(m, t, entries, n - 1, s)
    requires s' == Announce(s, FirstExoDerivative, entries[n - 1].equation).(
                     jacobianExo := s.jacobianExo[(entries[n - 1].equation, ExoPlace(entries, n - 1).1)
                                                  := Value(m, entries[n - 1].d, s.path, t).value])
    ensures ExoStored(m, t, entries, n, s')
  {
    hide Value;
    forall k | 0 <= k < n && LastThere(entries, k, n) ensures ExoAt(m, t, entries, k, s') {
      if k < n - 1 {
        assert LastThere(entries, k, n - 1) && ExoPlace(entries, n - 1) != ExoPlace(entries, k);
        assert ExoAt(m, t, entries, k, s);
      }
    }
  }

  lemma StoreExo(m: Functions, t: int, row: nat, col: nat, lag: int, place: nat, s: State, v: real)
    requires s.expression == (FirstExoDerivative, row)
    ensures ExecAll(m, t, [FSTPG3(row, col, lag, place)], Push(s, v))
            == Some(s.(jacobianExo := s.jacobianExo[(row, place) := v]))
  {
    ExecOne(m, t, FSTPG3(row, col, lag, place), Push(s, v));
    PushPop(s, v);
  }

  /** Where no exogenous variable meets a deterministic one of the same number, no derivative is overwritten. */
  lemma ExoPlacesDistinct(entries: seq<ExoEntry>, k: nat)
    requires BlockHeaders.SortedKeys(KeysOf(entries)) && BlockHeaders.NoTypesMeet(KeysOf(entries)) && k < |entries|
    ensures LastThere(entries, k, |entries|)
  {
    var keys := KeysOf(entries);
    BlockHeaders.ExoColumnsExact(keys);
    forall j | k < j < |entries| ensures ExoPlace(entries, j) != ExoPlace(entries, k) {
      assert BlockHeaders.KeyBefore(keys[k], keys[j]);
      assert BlockHeaders.SectionColumn(keys, k) == BlockHeaders.SectionColumn(keys, j)
             <==> BlockHeaders.ColumnOf(keys[k]) == BlockHeaders.ColumnOf(keys[j]);
    }
  }

  // ----- the jumps

  /** The layout of the two sections: a jump over the first one, the first section, a jump over the second one,
      and the second section. */
  function SectionsCode(first: seq<Instruction>, second: seq<Instruction>): seq<Instruction> {
    [FJMPIFEVAL(|first| + 1)] + first + [FJMP(|second|)] + second
  }

  /** The sections at position pc of a program. */
  predicate PlacedAt(code: seq<Instruction>, pc: nat, part: seq<Instruction>) {
    pc + |part| <= |code| && code[pc..pc + |part|] == part
  }

  lemma PlacedInside(code: seq<Instruction>, pc: nat, a: seq<Instruction>, b: seq<Instruction>, c: seq<Instruction>)
    requires PlacedAt(code, pc, a + b + c)
    ensures PlacedAt(code, pc + |a|, b)
  {
    var part := a + b + c;
    forall k | 0 <= k < |b| ensures code[pc + |a| + k] == b[k] {
      assert code[pc..pc + |part|][|a| + k] == part[|a| + k];
    }
  }

  lemma SectionsLayout(code: seq<Instruction>, pc: nat, first: seq<Instruction>, second: seq<Instruction>)
    requires PlacedAt(code, pc, SectionsCode(first, second))
    ensures pc + |first| + 1 < |code| && code[pc] == FJMPIFEVAL(|first| + 1) && code[pc + |first| + 1] == FJMP(|second|)
    ensures PlacedAt(code, pc + 1, first) && PlacedAt(code, pc + |first| + 2, second)
  {
    var head, jump := [FJMPIFEVAL(|first| + 1)], [FJMP(|second|)];
    assert [] + head + (first + jump + second) == SectionsCode(first, second);
    PlacedInside(code, pc, [], head, first + jump + second);
    assert code[pc] == code[pc..pc + 1][0];
    assert head + first + (jump + second) == SectionsCode(first, second);
    PlacedInside(code, pc, head, first, jump + second);
    PlacedInside(code, pc, head + first, jump, second);
    assert code[pc + |first| + 1] == code[pc + |first| + 1..pc + |first| + 2][0];
    assert head + first + jump + second + [] == SectionsCode(first, second);
    PlacedInside(code, pc, head + first + jump, second, []);
  }

  /** The steps from the start of the sections to just behind them. */
  function StepsOver(evaluate: bool, first: seq<Instruction>, second: seq<Instruction>): nat {
    if evaluate then |second| + 1 else |first| + 2
  }

  /** The jumps land correctly: from the start of the sections, an evaluation runs exactly the second section, and
      any other run exactly the first one; both end just behind the sections, unless the section itself stops. */
  lemma SectionsCorrect(m: Functions, t: int, evaluate: bool, code: seq<Instruction>, pc: nat,
                        first: seq<Instruction>, second: seq<Instruction>, s: State)
    requires PlacedAt(code, pc, SectionsCode(first, second)) && NoJump(first) && NoJump(second)
    ensures Run(m, t, evaluate, code, pc, s, StepsOver(evaluate, first, second))
            == match ExecAll(m, t, if evaluate then second else first, s)
               case Some(s') => Some((pc + |SectionsCode(first, second)|, s'))
               case None => None
  {
    hide ExecAll, Exec, Run;
    SectionsLayout(code, pc, first, second);
    assert |SectionsCode(first, second)| == |first| + |second| + 2;
    if evaluate {
      var at := pc + |first| + 2;
      OneStep(m, t, evaluate, code, pc, s, (at, s));
      RunAppend(m, t, evaluate, code, pc, s, 1, |second|, (at, s));
      RunStraight(m, t, evaluate, code, at, second, s);
    } else {
      var at, r := pc + 1 + |first|, ExecAll(m, t, first, s);
      OneStep(m, t, evaluate, code, pc, s, (pc + 1, s));
      RunAppend(m, t, evaluate, code, pc, s, 1, |first| + 1, (pc + 1, s));
      RunStraight(m, t, evaluate, code, pc + 1, first, s);
      if r.Some? {
        RunAppend(m, t, evaluate, code, pc + 1, s, |first|, 1, (at, r.value));
        OneStep(m, t, evaluate, code, at, r.value, (at + |second| + 1, r.value));
      } else {
        RunStopped(m, t, evaluate, code, pc + 1, s, |first|, 1);
      }
    }
  }

  lemma OneStep(m: Functions, t: int, evaluate: bool, code: seq<Instruction>, pc: int, s: State, next: (int, State))
    requires Step(m, t, evaluate, code, pc, s) == Some(next)
    ensures Run(m, t, evaluate, code, pc, s, 1) == Some(next)
  {
    assert Run(m, t, evaluate, code, next.0, next.1, 0) == Some(next);
  }

  lemma NoJumpAppend(a: seq<Instruction>, b: seq<Instruction>)
    requires NoJump(a) && NoJump(b)
    ensures NoJump(a + b)
  {
  }

  lemma {:induction false} CodeNoJump(e: Expr, terms: set<Expr>, slot: map<Expr, nat>)
    requires terms <= slot.Keys
    ensures NoJump(Code(e, terms, slot))
  {
    match e
    case Un(op, arg) =>
      if e !in terms {
        CodeNoJump(arg, terms, slot);
        NoJumpAppend(Code(arg, terms, slot), [FUNARY(op)]);
      }
    case Bin(op, l, r) =>
      if e !in terms {
        CodeNoJump(l, terms, slot);
        CodeNoJump(r, terms, slot);
        BinaryCodeIs(op, l, r, terms, slot);
        NoJumpAppend(Code(r, terms, slot), [FBINARY(Opcode(op))]);
        NoJumpAppend(Code(l, terms, slot), Code(r, terms, slot) + [FBINARY(Opcode(op))]);
        NoJumpAppend(OrderCode(op), Code(l, terms, slot) + (Code(r, terms, slot) + [FBINARY(Opcode(op))]));
      }
    case _ =>
  }

  lemma {:induction false} DerivativesNoJump(entries: seq<Entry>, n: nat, base: nat, terms: set<Expr>, slot: map<Expr, nat>)
    requires n <= |entries| && terms <= slot.Keys
    ensures NoJump(DerivativesCode(entries, n, base, terms, slot))
    decreases n
  {
    if n > 0 {
      DerivativesNoJump(entries, n - 1, base, terms, slot);
      CodeNoJump(entries[n - 1].d, terms, slot);
    }
  }

  lemma {:induction false} RowNoJump(entries: seq<Entry>, row: seq<nat>, n: nat, base: nat)
    requires n <= |row| && forall i :: 0 <= i < |row| ==> row[i] < |entries|
    ensures NoJump(RowCode(entries, row, n, base))
    decreases n
  {
    if n > 0 {
      RowNoJump(entries, row, n - 1, base);
    }
  }

  lemma {:induction false} UpdateRowsNoJump(entries: seq<Entry>, n: nat, base: nat)
    ensures NoJump(UpdateRowsCode(entries, n, base))
  {
    if n > 0 {
      UpdateRowsNoJump(entries, n - 1, base);
      var row := RowOf(entries, n - 1, |entries|);
      RowNoJump(entries, row, |row|, base);
    }
  }

  lemma {:induction false} JacobianNoJump(entries: seq<Entry>, n: nat, terms: set<Expr>, slot: map<Expr, nat>)
    requires n <= |entries| && terms <= slot.Keys
    ensures NoJump(JacobianCode(entries, n, terms, slot))
    decreases n
  {
    if n > 0 {
      JacobianNoJump(entries, n - 1, terms, slot);
      CodeNoJump(entries[n - 1].d, terms, slot);
    }
  }

  lemma {:induction false} ExoNoJump(entries: seq<ExoEntry>, n: nat, terms: set<Expr>, slot: map<Expr, nat>)
    requires n <= |entries| && terms <= slot.Keys
    ensures NoJump(ExoCode(entries, n, terms, slot))
    decreases n
  {
    if n > 0 {
      ExoNoJump(entries, n - 1, terms, slot);
      CodeNoJump(entries[n - 1].d, terms, slot);
    }
  }

  /** The second section: the Jacobian with its exogenous part. */
  function EvaluationCode(ordered: seq<Entry>, exo: seq<ExoEntry>, terms: set<Expr>, slot: map<Expr, nat>): seq<Instruction>
    requires terms <= slot.Keys
  {
    JacobianCode(ordered, |ordered|, terms, slot) + ExoCode(exo, |exo|, terms, slot)
  }

  /** The second section runs to its end exactly when all its derivatives have a value and are executable, and then has
      stored them and nothing else. */
  lemma EvaluationCorrect(m: Functions, t: int, ordered: seq<Entry>, exo: seq<ExoEntry>, terms: set<Expr>,
                          slot: map<Expr, nat>, s: State)
    requires terms <= slot.Keys && SlotsHold(m, t, terms, slot, s) && Grouped(ordered) && DistinctEntries(ordered)
    requires forall k :: 0 <= k < |ordered| ==> NoEquality(ordered[k].d)
    requires forall k :: 0 <= k < |exo| ==> NoEquality(exo[k].d)
    ensures var r := ExecAll(m, t, EvaluationCode(ordered, exo, terms, slot), s);
            && (r.Some? <==> AllCompute(m, t, ordered, |ordered|, terms, s.path)
                             && ExoCompute(m, t, exo, |exo|, terms, s.path))
            && (r.Some? ==> JacobianStored(m, t, ordered, exo, s, r.value))
  {
    hide ExecAll, JacobianCode, ExoCode, SlotsHold, Value, AllCompute, ExoCompute, ExoAt, LastThere;
    ExecAppend(m, t, JacobianCode(ordered, |ordered|, terms, slot), ExoCode(exo, |exo|, terms, slot), s);
    JacobianCorrect(m, t, ordered, |ordered|, terms, slot, s);
    var r1 := ExecAll(m, t, JacobianCode(ordered, |ordered|, terms, slot), s);
    if r1.Some? {
      SlotsSame(m, t, terms, slot, s, r1.value);
      ExoCorrect(m, t, exo, |exo|, terms, slot, r1.value);
      var r := ExecAll(m, t, ExoCode(exo, |exo|, terms, slot), r1.value);
      if r.Some? {
        forall k | 0 <= k < |ordered| ensures JacobianAt(m, t, ordered, k, r.value) {
          assert JacobianAt(m, t, ordered, k, r1.value);
        }
        AllExoStored(m, t, exo, r.value);
      }
    }
  }

  lemma AllExoStored(m: Functions, t: int, exo: seq<ExoEntry>, s: State)
    requires ExoStored(m, t, exo, |exo|, s)
    ensures BlockHeaders.SortedKeys(KeysOf(exo)) && BlockHeaders.NoTypesMeet(KeysOf(exo)) ==>
              forall k :: 0 <= k < |exo| ==> ExoAt(m, t, exo, k, s)
  {
    hide LastThere, ExoAt, BlockHeaders.SortedKeys, BlockHeaders.NoTypesMeet;
    if BlockHeaders.SortedKeys(KeysOf(exo)) && BlockHeaders.NoTypesMeet(KeysOf(exo)) {
      forall k | 0 <= k < |exo| ensures ExoAt(m, t, exo, k, s) {
        ExoPlacesDistinct(exo, k);
      }
    }
  }

  /** The sections of a model, wherever they stand in a program: an evaluation stores the Jacobian and nothing else, any
      other run the vector u and nothing else, and both go on behind the sections, if and only if all derivatives have a
      value and are executable. */
  lemma SectionsOfModel(m: Functions, t: int, evaluate: bool, code: seq<Instruction>, pc: nat, entries: seq<Entry>,
                        ordered: seq<Entry>, exo: seq<ExoEntry>, n: nat, terms: set<Expr>, slot: map<Expr, nat>, s: State)
    requires terms <= slot.Keys && SlotsHold(m, t, terms, slot, s) && Grouped(ordered) && DistinctEntries(ordered)
    requires PlacedAt(code, pc, SectionsCode(UpdateCode(entries, n, terms, slot), EvaluationCode(ordered, exo, terms, slot)))
    requires forall k :: 0 <= k < |entries| ==> NoEquality(entries[k].d)
    requires forall k :: 0 <= k < |ordered| ==> NoEquality(ordered[k].d)
    requires forall k :: 0 <= k < |exo| ==> NoEquality(exo[k].d)
    requires forall i :: 0 <= i < n ==> i in s.residuals
    ensures var first, second := UpdateCode(entries, n, terms, slot), EvaluationCode(ordered, exo, terms, slot);
            var r := Run(m, t, evaluate, code, pc, s, StepsOver(evaluate, first, second));
            && (r.Some? <==> if evaluate then AllCompute(m, t, ordered, |ordered|, terms, s.path)
                                              && ExoCompute(m, t, exo, |exo|, terms, s.path)
                             else AllCompute(m, t, entries, |entries|, terms, s.path))
            && (r.Some? ==> r.value.0 == pc + |SectionsCode(first, second)|)
            && (r.Some? && evaluate ==> JacobianStored(m, t, ordered, exo, s, r.value.1))
            && (r.Some? && !evaluate ==> UStored(m, t, entries, n, s, r.value.1))
  {
    hide ExecAll, UpdateCode, EvaluationCode, SlotsHold, RowOf, RowSum, Run, AllCompute, ExoCompute, SectionsCode,
         JacobianStored, DerivativeAt, Updated;
    var first, second := UpdateCode(entries, n, terms, slot), EvaluationCode(ordered, exo, terms, slot);
    UpdateNoJump(entries, n, terms, slot);
    EvaluationNoJump(ordered, exo, terms, slot);
    SectionsCorrect(m, t, evaluate, code, pc, first, second, s);
    if evaluate {
      EvaluationCorrect(m, t, ordered, exo, terms, slot, s);
    } else {
      UpdateCorrect(m, t, entries, n, terms, slot, s);
    }
  }

  lemma EvaluationNoJump(ordered: seq<Entry>, exo: seq<ExoEntry>, terms: set<Expr>, slot: map<Expr, nat>)
    requires terms <= slot.Keys
    ensures NoJump(EvaluationCode(ordered, exo, terms, slot))
  {
    JacobianNoJump(ordered, |ordered|, terms, slot);
    ExoNoJump(exo, |exo|, terms, slot);
    NoJumpAppend(JacobianCode(ordered, |ordered|, terms, slot), ExoCode(exo, |exo|, terms, slot));
  }

  /** Only the Jacobian has changed. It holds all derivatives; of two exogenous ones with the same place the later one, of
      which there are none where no exogenous variable meets a deterministic one of the same number. */
  ghost predicate JacobianStored(m: Functions, t: int, ordered: seq<Entry>, exo: seq<ExoEntry>, s: State, s': State) {
    && s' == s.(jacobian := s'.jacobian, jacobianExo := s'.jacobianExo, expression := s'.expression)
    && (forall k :: 0 <= k < |ordered| ==> JacobianAt(m, t, ordered, k, s'))
    && ExoStored(m, t, exo, |exo|, s')
    && (BlockHeaders.SortedKeys(KeysOf(exo)) && BlockHeaders.NoTypesMeet(KeysOf(exo)) ==>
          forall k :: 0 <= k < |exo| ==> ExoAt(m, t, exo, k, s'))
  }

  /** Only u has changed, and it holds all derivatives and the right-hand sides. */
  ghost predicate UStored(m: Functions, t: int, entries: seq<Entry>, n: nat, s: State, s': State) {
    && s' == s.(u := s'.u, expression := s'.expression)
    && (forall k :: 0 <= k < |entries| ==> DerivativeAt(m, t, entries, k, n, s'))
    && (forall i :: 0 <= i < n ==> Updated(entries, i, n, s', t))
  }

  lemma UpdateNoJump(entries: seq<Entry>, n: nat, terms: set<Expr>, slot: map<Expr, nat>)
    requires terms <= slot.Keys
    ensures NoJump(UpdateCode(entries, n, terms, slot))
  {
    DerivativesNoJump(entries, |entries|, n, terms, slot);
    UpdateRowsNoJump(entries, n, n);
    NoJumpAppend(DerivativesCode(entries, |entries|, n, terms, slot), UpdateRowsCode(entries, n, n));
  }

  // ----- emission

  method WriteDerivatives(file: CodeFile, entries: seq<Entry>, base: nat, terms: set<Expr>, slot: map<Expr, nat>)
    requires terms <= slot.Keys
    modifies file
    ensures file.code == old(file.code) + DerivativesCode(entries, |entries|, base, terms, slot)
    ensures file.instructionNumber - old(file.instructionNumber) == |file.code| - |old(file.code)|
  {
    hide Code;
    for k := 0 to |entries|
      invariant file.code == old(file.code) + DerivativesCode(entries, k, base, terms, slot)
      invariant file.instructionNumber - old(file.instructionNumber) == |file.code| - |old(file.code)|
    {
      ghost var before := file.code;
      file.Write(FNUMEXPR(FirstEndoDerivative, entries[k].equation));
      Compile(file, entries[k].d, terms, slot);
      file.Write(FSTPU(base + k));
      Gather(old(file.code), DerivativesCode(entries, k, base, terms, slot),
             [FNUMEXPR(FirstEndoDerivative, entries[k].equation)], Code(entries[k].d, terms, slot), [FSTPU(base + k)]);
    }
  }

  lemma Gather(start: seq<Instruction>, done: seq<Instruction>, a: seq<Instruction>, b: seq<Instruction>,
               c: seq<Instruction>)
    ensures start + done + a + b + c == start + (done + (a + (b + c)))
  {
  }

  method WriteRow(file: CodeFile, entries: seq<Entry>, row: seq<nat>, base: nat)
    requires forall i :: 0 <= i < |row| ==> row[i] < |entries|
    modifies file
    ensures file.code == old(file.code) + RowCode(entries, row, |row|, base)
    ensures file.instructionNumber - old(file.instructionNumber) == |file.code| - |old(file.code)|
  {
    for i := 0 to |row|
      invariant file.code == old(file.code) + RowCode(entries, row, i, base)
      invariant file.instructionNumber - old(file.instructionNumber) == |file.code| - |old(file.code)|
    {
      ghost var before := RowCode(entries, row, i, base);
      var k := row[i];
      file.Write(FLDU(base + k));
      file.Write(FLDV(entries[k].sym, entries[k].lag));
      file.Write(FBINARY(Times));
      if i > 0 {
        file.Write(FBINARY(Plus));
      }
      assert RowCode(entries, row, i + 1, base)
             == before + ([FLDU(base + k), FLDV(entries[k].sym, entries[k].lag), FBINARY(Times)]
                          + (if i > 0 then [FBINARY(Plus)] else []));
      assert file.code == old(file.code) + RowCode(entries, row, i + 1, base);
    }
  }

  method WriteUpdateRows(file: CodeFile, entries: seq<Entry>, n: nat, base: nat)
    modifies file
    ensures file.code == old(file.code) + UpdateRowsCode(entries, n, base)
    ensures file.instructionNumber - old(file.instructionNumber) == |file.code| - |old(file.code)|
  {
    hide RowCode;
    for i := 0 to n
      invariant file.code == old(file.code) + UpdateRowsCode(entries, i, base)
      invariant file.instructionNumber - old(file.instructionNumber) == |file.code| - |old(file.code)|
    {
      ghost var before := UpdateRowsCode(entries, i, base);
      var row := RowOf(entries, i, |entries|);
      file.Write(FLDR(i));
      WriteRow(file, entries, row, base);
      if row != [] {
        file.Write(FBINARY(Minus));
      }
      file.Write(FSTPU(i));
      var minus := if row != [] then [FBINARY(Minus)] else [];
      assert file.code == old(file.code) + before + [FLDR(i)] + RowCode(entries, row, |row|, base) + (minus + [FSTPU(i)]);
      Gather(old(file.code), before, [FLDR(i)], RowCode(entries, row, |row|, base), minus + [FSTPU(i)]);
    }
  }

  method WriteJacobian(file: CodeFile, entries: seq<Entry>, terms: set<Expr>, slot: map<Expr, nat>)
    requires terms <= slot.Keys
    modifies file
    ensures file.code == old(file.code) + JacobianCode(entries, |entries|, terms, slot)
    ensures file.instructionNumber - old(file.instructionNumber) == |file.code| - |old(file.code)|
  {
    hide Code;
    var countCol: nat := 0;
    for k := 0 to |entries|
      invariant countCol == if k == 0 then 0 else Column(entries, k - 1) + 1
      invariant file.code == old(file.code) + JacobianCode(entries, k, terms, slot)
      invariant file.instructionNumber - old(file.instructionNumber) == |file.code| - |old(file.code)|
    {
      var e := entries[k];
      file.Write(FNUMEXPR(FirstEndoDerivative, e.equation));
      if k == 0 || !SameColumn(entries[k - 1], e) {
        countCol := countCol + 1;
      }
      Compile(file, e.d, terms, slot);
      file.Write(FSTPG3(e.equation, e.sym.id, e.lag, countCol - 1));
      Gather(old(file.code), JacobianCode(entries, k, terms, slot), [FNUMEXPR(FirstEndoDerivative, e.equation)],
             Code(e.d, terms, slot), [FSTPG3(e.equation, e.sym.id, e.lag, countCol - 1)]);
    }
  }

  /** Writes the exogenous part; the counter looks at the number and the lag, not at the type. */
  method WriteExo(file: CodeFile, entries: seq<ExoEntry>, terms: set<Expr>, slot: map<Expr, nat>)
    requires terms <= slot.Keys
    modifies file
    ensures file.code == old(file.code) + ExoCode(entries, |entries|, terms, slot)
    ensures file.instructionNumber - old(file.instructionNumber) == |file.code| - |old(file.code)|
  {
    hide Code;
    var prevVar: int, prevLag: int := -1, -999999999;
    var countCol: nat := 0;
    for k := 0 to |entries|
      invariant if k == 0 then prevVar == -1 && countCol == 0
                else prevVar == entries[k - 1].number && prevLag == entries[k - 1].lag
                     && countCol == ExoPlace(entries, k - 1).1 + 1
      invariant file.code == old(file.code) + ExoCode(entries, k, terms, slot)
      invariant file.instructionNumber - old(file.instructionNumber) == |file.code| - |old(file.code)|
    {
      var e := entries[k];
      file.Write(FNUMEXPR(FirstExoDerivative, e.equation));
      if prevVar != e.number || prevLag != e.lag {
        prevVar, prevLag := e.number, e.lag;
        countCol := countCol + 1;
      }
      Compile(file, e.d, terms, slot);
      file.Write(FSTPG3(e.equation, e.number, e.lag, countCol - 1));
      Gather(old(file.code), ExoCode(entries, k, terms, slot), [FNUMEXPR(FirstExoDerivative, e.equation)],
             Code(e.d, terms, slot), [FSTPG3(e.equation, e.number, e.lag, countCol - 1)]);
    }
  }

  /** Writes both sections. The jumps are written with offset 0 and rewritten when the length of the code that they
      skip is known; it is measured by the instruction number, which each rewriting advances once more. */
  method WriteSections(file: CodeFile, entries: seq<Entry>, ordered: seq<Entry>, exo: seq<ExoEntry>, n: nat,
                       terms: set<Expr>, slot: map<Expr, nat>)
    requires terms <= slot.Keys
    modifies file
    ensures file.code == old(file.code) + SectionsCode(UpdateCode(entries, n, terms, slot),
                                                       EvaluationCode(ordered, exo, terms, slot))
    ensures file.instructionNumber == old(file.instructionNumber) + |file.code| - |old(file.code)| + 2
  {
    hide DerivativesCode, UpdateRowsCode, JacobianCode, ExoCode;
    ghost var first, second := UpdateCode(entries, n, terms, slot), EvaluationCode(ordered, exo, terms, slot);
    ghost var start := file.code;
    var pos1 := |file.code|;
    file.Write(FJMPIFEVAL(0));
    var prev := file.instructionNumber;
    WriteDerivatives(file, entries, n, terms, slot);
    WriteUpdateRows(file, entries, n, n);
    var pos2 := |file.code|;
    file.Write(FJMP(0));
    assert file.code == start + [FJMPIFEVAL(0)] + first + [FJMP(0)];
    assert pos1 < |file.code| && pos2 < |file.code|;
    file.Rewrite(pos1, FJMPIFEVAL(file.instructionNumber - prev));
    prev := file.instructionNumber;
    WriteJacobian(file, ordered, terms, slot);
    WriteExo(file, exo, terms, slot);
    file.Rewrite(pos2, FJMP(file.instructionNumber - prev));
    assert file.code == start + ([FJMPIFEVAL(|first| + 1)] + first + [FJMP(|second|)] + second);
  }
}
