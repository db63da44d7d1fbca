/** The block headers that the preprocessor writes, and when they come back as they were. */
module BlockHeaders {
  import opened Results
  import opened CodeFormat

  // ----- the number of exogenous columns of a whole model

  /** The key of a derivative: lag and type, then variable and equation. */
  type Key = ((int, int), (int, int))

  predicate KeyBefore(a: Key, b: Key) {
    || a.0.0 < b.0.0
    || (a.0.0 == b.0.0 && a.0.1 < b.0.1)
    || (a.0 == b.0 && a.1.0 < b.1.0)
    || (a.0 == b.0 && a.1.0 == b.1.0 && a.1.1 < b.1.1)
  }

  /** The order in which a map visits its keys. */
  predicate SortedKeys(keys: seq<Key>) {
    forall i, j :: 0 <= i < j < |keys| ==> KeyBefore(keys[i], keys[j])
  }

  function ColumnOf(k: Key): (int, int, int) {
    (k.0.0, k.0.1, k.1.0)
  }

  /** The columns of the derivatives: variables with their type and lag. */
  function ColumnsOf(keys: seq<Key>): set<(int, int, int)> {
    set k | k in keys :: ColumnOf(k)
  }

  lemma ColumnsMore(keys: seq<Key>, k: Key)
    ensures ColumnsOf(keys + [k]) == ColumnsOf(keys) + {ColumnOf(k)}
  {
    forall x | x in ColumnsOf(keys) + {ColumnOf(k)} ensures x in ColumnsOf(keys + [k]) {
      if x in ColumnsOf(keys) {
        var l :| l in keys && ColumnOf(l) == x;
        assert l in keys + [k];
      } else {
        assert k in keys + [k];
      }
    }
  }

  /** In sorted keys, a column that was met before is that of the key before. */
  lemma ColumnMet(keys: seq<Key>, k: Key)
    requires SortedKeys(keys + [k])
    ensures ColumnOf(k) in ColumnsOf(keys) <==> keys != [] && ColumnOf(keys[|keys| - 1]) == ColumnOf(k)
  {
    var all := keys + [k];
    if ColumnOf(k) in ColumnsOf(keys) {
      var l :| l in keys && ColumnOf(l) == ColumnOf(k);
      var i :| 0 <= i < |keys| && keys[i] == l;
      assert all[i] == l && all[|keys| - 1] == keys[|keys| - 1] && all[|keys|] == k;
      assert KeyBefore(all[|keys| - 1], k);
      assert i < |keys| - 1 ==> KeyBefore(all[i], all[|keys| - 1]);
    } else if keys != [] {
      assert keys[|keys| - 1] in keys;
    }
  }

  lemma NoColumns()
    ensures ColumnsOf([]) == {}
  {
  }

  lemma SortedPrefix(keys: seq<Key>, i: nat)
    requires SortedKeys(keys) && i < |keys|
    ensures keys[..i + 1] == keys[..i] + [keys[i]] && SortedKeys(keys[..i] + [keys[i]])
  {
  }

  /** Counts the changes of lag, type and variable: the number of different columns. */
  method CountExoColumns(keys: seq<Key>) returns (count: nat)
    requires SortedKeys(keys) && forall k :: k in keys ==> k.1.0 >= 0
    ensures count == |ColumnsOf(keys)|
  {
    hide ColumnsOf, SortedKeys;
    var prevVar, prevLag, prevType := -1, -999999999, -1;
    count := 0;
    NoColumns();
    for i := 0 to |keys|
      invariant count == |ColumnsOf(keys[..i])|
      invariant if i == 0 then prevVar == -1 else (prevLag, prevType, prevVar) == ColumnOf(keys[i - 1])
    {
      var k := keys[i];
      var lag, kind, v := k.0.0, k.0.1, k.1.0;
      SortedPrefix(keys, i);
      ColumnsMore(keys[..i], k);
      ColumnMet(keys[..i], k);
      if prevVar != v || prevLag != lag || prevType != kind {
        prevVar, prevLag, prevType := v, lag, kind;
        count := count + 1;
      } else {
        assert ColumnsOf(keys[..i]) + {ColumnOf(k)} == ColumnsOf(keys[..i]);
      }
    }
    assert keys[..|keys|] == keys;
  }

  // ----- the columns in the Jacobian section, where the type is not looked at

  /** The column counter at a key: it advances when the variable or the lag changes. */
  function SectionColumn(keys: seq<Key>, k: nat): nat
    requires k < |keys|
  {
    if k == 0 then 0
    else SectionColumn(keys, k - 1) + if SameVarLag(keys[k - 1], keys[k]) then 0 else 1
  }

  predicate SameVarLag(a: Key, b: Key) {
    a.1.0 == b.1.0 && a.0.0 == b.0.0
  }

  /** An exogenous variable, and behind it a deterministic one of the same number at the same lag. */
  predicate TypesMeet(keys: seq<Key>, i: nat)
    requires 0 < i < |keys|
  {
    SameVarLag(keys[i - 1], keys[i]) && keys[i - 1].0.1 != keys[i].0.1
  }

  ghost predicate NoTypesMeet(keys: seq<Key>) {
    forall i: nat :: 0 < i < |keys| ==> !TypesMeet(keys, i)
  }

  /** Assigns the columns of the exogenous derivatives. */
  method AssignExoColumns(keys: seq<Key>) returns (columns: seq<nat>)
    requires forall k :: k in keys ==> k.1.0 >= 0
    ensures |columns| == |keys| && forall k :: 0 <= k < |keys| ==> columns[k] == SectionColumn(keys, k)
  {
    var prevVar, prevLag, countColExo := -1, -999999999, 0;
    columns := [];
    for i := 0 to |keys|
      invariant |columns| == i && forall k :: 0 <= k < i ==> columns[k] == SectionColumn(keys, k)
      invariant if i == 0 then prevVar == -1 && countColExo == 0
                else (prevLag, prevVar) == (keys[i - 1].0.0, keys[i - 1].1.0) && countColExo == SectionColumn(keys, i - 1) + 1
    {
      var v, lag := keys[i].1.0, keys[i].0.0;
      if prevVar != v || prevLag != lag {
        prevVar, prevLag := v, lag;
        countColExo := countColExo + 1;
      }
      columns := columns + [countColExo - 1];
    }
  }

  lemma {:induction false} SectionColumnGrows(keys: seq<Key>, i: nat, k: nat)
    requires i <= k < |keys|
    ensures SectionColumn(keys, i) <= SectionColumn(keys, k)
    ensures SectionColumn(keys, i) == SectionColumn(keys, k) ==> SameVarLag(keys[i], keys[k])
    ensures SectionColumn(keys, i) == SectionColumn(keys, k) && NoTypesMeet(keys) ==> ColumnOf(keys[i]) == ColumnOf(keys[k])
    decreases k
  {
    if i < k {
      SectionColumnGrows(keys, i, k - 1);
      assert NoTypesMeet(keys) ==> !TypesMeet(keys, k);
    }
  }

  lemma {:induction false} SectionColumnSame(keys: seq<Key>, i: nat, k: nat)
    requires SortedKeys(keys) && i <= k < |keys| && ColumnOf(keys[i]) == ColumnOf(keys[k])
    ensures SectionColumn(keys, i) == SectionColumn(keys, k)
    decreases k
  {
    if i < k {
      assert KeyBefore(keys[k - 1], keys[k]) && (i < k - 1 ==> KeyBefore(keys[i], keys[k - 1]));
      SectionColumnSame(keys, i, k - 1);
    }
  }

  /** Two derivatives get the same column exactly when they are for the same variable and lag, if and only if nowhere the
      last exogenous variable of a lag meets a deterministic one of the same number. */
  lemma ExoColumnsExact(keys: seq<Key>)
    requires SortedKeys(keys)
    ensures NoTypesMeet(keys) <==>
            forall i, k :: 0 <= i <= k < |keys| ==>
              (SectionColumn(keys, i) == SectionColumn(keys, k) <==> ColumnOf(keys[i]) == ColumnOf(keys[k]))
  {
    forall i, k | 0 <= i <= k < |keys|
      ensures ColumnOf(keys[i]) == ColumnOf(keys[k]) ==> SectionColumn(keys, i) == SectionColumn(keys, k)
      ensures NoTypesMeet(keys) && SectionColumn(keys, i) == SectionColumn(keys, k) ==> ColumnOf(keys[i]) == ColumnOf(keys[k])
    {
      SectionColumnGrows(keys, i, k);
      if ColumnOf(keys[i]) == ColumnOf(keys[k]) {
        SectionColumnSame(keys, i, k);
      }
    }
    forall i: nat | 0 < i < |keys| && TypesMeet(keys, i)
      ensures SectionColumn(keys, i - 1) == SectionColumn(keys, i) && ColumnOf(keys[i - 1]) != ColumnOf(keys[i])
    {
    }
  }

  function UpTo(n: nat): (vs: seq<int>)
    ensures |vs| == n
  {
    seq(n, i => i)
  }

  /** The header of a model that is not cut into blocks: all exogenous variables, but as many as there are columns. */
  function WholeModelHeader(kind: int, pairs: seq<(int, int)>, uCountInt: int, endoColumns: int, exoDetNbr: nat,
                            exoNbr: nat, exoColumns: nat): Block {
    Block(|pairs|, kind, pairs, false, |pairs|, 0, 0, uCountInt, endoColumns, exoDetNbr, exoColumns, 0, 0,
          UpTo(exoDetNbr), UpTo(exoNbr), [])
  }

  /** It is written without reading behind a vector exactly when there are at most as many exogenous columns as exogenous
      variables, and comes back as it was exactly when there are as many. */
  lemma WholeModelComesBack(kind: int, pairs: seq<(int, int)>, uCountInt: int, endoColumns: int, exoDetNbr: nat,
                            exoNbr: nat, exoColumns: nat)
    requires Complete(kind) && BlockFits(WholeModelHeader(kind, pairs, uCountInt, endoColumns, exoDetNbr, exoNbr, exoColumns))
    ensures var tag := BeginBlock(WholeModelHeader(kind, pairs, uCountInt, endoColumns, exoDetNbr, exoNbr, exoColumns));
            && (Writable(tag) <==> exoColumns <= exoNbr)
            && (Writable(tag) ==> (Restored(tag) == tag <==> exoColumns == exoNbr))
  {
    var tag := BeginBlock(WholeModelHeader(kind, pairs, uCountInt, endoColumns, exoDetNbr, exoNbr, exoColumns));
    if exoColumns <= exoNbr {
      RestoredSame(tag);
    }
  }

  /** One exogenous variable at two lags is enough to read behind the vector. */
  lemma TwoLagsReadBehind(kind: int, pairs: seq<(int, int)>, uCountInt: int, endoColumns: int, keys: seq<Key>)
    requires (0, 1, 0) in ColumnsOf(keys) && (-1, 1, 0) in ColumnsOf(keys)
    ensures !Readable(WholeModelHeader(kind, pairs, uCountInt, endoColumns, 0, 1, |ColumnsOf(keys)|))
  {
    var two := {(0, 1, 0), (-1, 1, 0)};
    assert ColumnsOf(keys) == two + (ColumnsOf(keys) - two);
    assert |two| == 2;
  }

  // ----- the number of exogenous columns of a block

  /** The exogenous variables of a block under each of their lags, both in ascending order. */
  predicate LagTable(t: seq<(int, seq<int>)>) {
    && (forall i, j :: 0 <= i < j < |t| ==> t[i].0 < t[j].0)
    && (forall i :: 0 <= i < |t| ==> t[i].1 != [] && AscendingFrom0(t[i].1))
  }

  predicate AscendingFrom0(vs: seq<int>) {
    (forall i :: 0 <= i < |vs| ==> 0 <= vs[i]) && forall i, j :: 0 <= i < j < |vs| ==> vs[i] < vs[j]
  }

  function TotalSize(t: seq<(int, seq<int>)>): nat {
    if t == [] then 0 else TotalSize(t[..|t| - 1]) + |t[|t| - 1].1|
  }

  /** Counts the changes of lag and variable: every variable under every lag. */
  method CountBlockColumns(t: seq<(int, seq<int>)>) returns (count: nat)
    requires LagTable(t)
    ensures count == TotalSize(t)
  {
    var prevVar, prevLag := -1, -999999999;
    count := 0;
    for i := 0 to |t|
      invariant count == TotalSize(t[..i])
      invariant i == 0 ==> prevVar == -1
      invariant i > 0 ==> prevLag == t[i - 1].0
    {
      var (lag, vars) := t[i];
      assert t[..i + 1][..i] == t[..i];
      for j := 0 to |vars|
        invariant count == TotalSize(t[..i]) + j
        invariant j > 0 ==> prevVar == vars[j - 1] && prevLag == lag
        invariant j == 0 ==> prevVar == -1 || prevLag < lag
      {
        if prevVar != vars[j] || prevLag != lag {
          prevVar, prevLag := vars[j], lag;
          count := count + 1;
        }
      }
    }
    assert t[..|t|] == t;
  }

  /** Every lag has one variable at least, so that the total is the number of lags only if every lag has one. */
  lemma {:induction false} TotalAtLeast(t: seq<(int, seq<int>)>)
    requires forall i :: 0 <= i < |t| ==> t[i].1 != []
    ensures TotalSize(t) >= |t|
    ensures TotalSize(t) == |t| <==> forall i :: 0 <= i < |t| ==> |t[i].1| == 1
  {
    if t != [] {
      var init := t[..|t| - 1];
      TotalAtLeast(init);
      assert forall i :: 0 <= i < |init| ==> init[i] == t[i];
      if forall i :: 0 <= i < |init| ==> |init[i].1| == 1 {
        assert forall i :: 0 <= i < |t| - 1 ==> |t[i].1| == 1;
      }
    }
  }

  /** The lags of the table, stored as unsigned integers. */
  function LagKeys(t: seq<(int, seq<int>)>): (vs: seq<int>)
    ensures |vs| == |t|
  {
    seq(|t|, i requires 0 <= i < |t| => t[i].0 % 0x1_0000_0000)
  }

  /** The header of a block: its feedback variables are counted, all its variables are given; the exogenous columns are
      counted, one entry for every lag is given. */
  function BlockHeader(mfs: nat, kind: int, pairs: seq<(int, int)>, linear: bool, endoNbr: int, maxLag: int,
                       uCountInt: int, endoColumns: int, exo: seq<(int, seq<int>)>, exoDet: seq<int>,
                       other: seq<int>, otherColumns: int): Block {
    Block(mfs, kind, pairs, linear, endoNbr, maxLag, maxLag, uCountInt, endoColumns, |exoDet|, TotalSize(exo), |other|,
          otherColumns, exoDet, LagKeys(exo), other)
  }

  /** It is written without reading behind a vector exactly when no lag has two exogenous variables, and, for a type with
      all fields stored, comes back as it was exactly when moreover the block has no recursive variables. */
  lemma BlockComesBack(mfs: nat, kind: int, pairs: seq<(int, int)>, linear: bool, endoNbr: int, maxLag: int,
                       uCountInt: int, endoColumns: int, exo: seq<(int, seq<int>)>, exoDet: seq<int>, other: seq<int>,
                       otherColumns: int)
    requires Complete(kind) && LagTable(exo) && mfs <= |pairs|
    requires BlockFits(BlockHeader(mfs, kind, pairs, linear, endoNbr, maxLag, uCountInt, endoColumns, exo, exoDet, other,
                                   otherColumns))
    ensures var tag := BeginBlock(BlockHeader(mfs, kind, pairs, linear, endoNbr, maxLag, uCountInt, endoColumns, exo,
                                              exoDet, other, otherColumns));
            && (Writable(tag) <==> forall i :: 0 <= i < |exo| ==> |exo[i].1| == 1)
            && (Writable(tag) ==> (Restored(tag) == tag <==> mfs == |pairs|))
  {
    var tag := BeginBlock(BlockHeader(mfs, kind, pairs, linear, endoNbr, maxLag, uCountInt, endoColumns, exo, exoDet,
                                      other, otherColumns));
    TotalAtLeast(exo);
    if Writable(tag) {
      RestoredSame(tag);
    }
  }
}
