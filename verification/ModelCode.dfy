/** The code of the equations of all blocks: numbering of the temporary terms, definition before use, emission. */
module ModelCode {
  import opened Results
  import opened Expressions
  import opened Bytecode
  import opened ExpressionCode
  import opened TemporaryTerms
  import opened BlockCode

  // ----- the order and the numbers of the temporary terms

  /** The members of a set of nodes in the order of their indices; `nodes` is the node list of the data tree. */
  function InOrder(nodes: seq<Expr>, s: set<Expr>): seq<Expr> {
    if nodes == [] then []
    else
      var n := |nodes| - 1;
      InOrder(nodes[..n], s) + (if nodes[n] in s then [nodes[n]] else [])
  }

  lemma {:induction false} InOrderElements(nodes: seq<Expr>, s: set<Expr>, e: Expr)
    ensures e in InOrder(nodes, s) <==> e in nodes && e in s
  {
    if nodes != [] {
      InOrderElements(nodes[..|nodes| - 1], s, e);
    }
  }

  /** The order keeps that of the indices. */
  lemma {:induction false} InOrderRanks(nodes: seq<Expr>, s: set<Expr>, i: nat, j: nat) returns (a: nat, b: nat)
    requires i < j < |nodes| && nodes[i] in s && nodes[j] in s
    ensures a < b < |InOrder(nodes, s)| && InOrder(nodes, s)[a] == nodes[i] && InOrder(nodes, s)[b] == nodes[j]
  {
    var n := |nodes| - 1;
    if j < n {
      a, b := InOrderRanks(nodes[..n], s, i, j);
    } else {
      assert nodes[..n][i] == nodes[i];
      InOrderElements(nodes[..n], s, nodes[i]);
      a :| 0 <= a < |InOrder(nodes[..n], s)| && InOrder(nodes[..n], s)[a] == nodes[i];
      b := |InOrder(nodes[..n], s)|;
    }
  }

  /** Each term has its number in the order of the terms. */
  ghost predicate Numbers(slot: map<Expr, nat>, order: seq<Expr>) {
    && |slot.Keys| == |order|
    && (forall e :: e in slot <==> e in order)
    && forall k :: 0 <= k < |order| ==> slot[order[k]] == k
  }

  lemma NextNumber(slot: map<Expr, nat>, order: seq<Expr>, e: Expr)
    requires Numbers(slot, order) && e !in order
    ensures Numbers(slot[e := |order|], order + [e])
  {
    assert slot[e := |order|].Keys == slot.Keys + {e};
    forall x ensures x in slot[e := |order|] <==> x in order + [e] {
      if x == e {
        assert (order + [e])[|order|] == x;
      }
    }
  }

  /** Numbers the temporary terms in the order of their indices: distinct slots below their count. */
  method ComputeTemporaryTermsMapping(nodes: seq<Expr>, terms: set<Expr>) returns (slot: map<Expr, nat>)
    requires forall e :: e in terms ==> e in nodes
    requires forall i, j :: 0 <= i < j < |nodes| ==> nodes[i] != nodes[j]
    ensures slot.Keys == terms && Injective(slot)
    ensures forall e :: e in terms ==> slot[e] < |terms|
    ensures forall i, j :: 0 <= i < j < |nodes| && nodes[i] in terms && nodes[j] in terms ==>
              slot[nodes[i]] < slot[nodes[j]]
  {
    slot := map[];
    var j := 0;
    for i := 0 to |nodes|
      invariant Numbers(slot, InOrder(nodes[..i], terms)) && |InOrder(nodes[..i], terms)| == j
    {
      assert nodes[..i + 1][..i] == nodes[..i];
      if nodes[i] in terms {
        InOrderElements(nodes[..i], terms, nodes[i]);
        NextNumber(slot, InOrder(nodes[..i], terms), nodes[i]);
        slot := slot[nodes[i] := j];
        j := j + 1;
      }
    }
    assert nodes[..|nodes|] == nodes;
    AllNumbered(nodes, terms, slot);
  }

  lemma AllNumbered(nodes: seq<Expr>, terms: set<Expr>, slot: map<Expr, nat>)
    requires forall e :: e in terms ==> e in nodes
    requires Numbers(slot, InOrder(nodes, terms))
    ensures slot.Keys == terms && Injective(slot)
    ensures forall e :: e in terms ==> slot[e] < |terms|
    ensures forall i, j :: 0 <= i < j < |nodes| && nodes[i] in terms && nodes[j] in terms ==>
              slot[nodes[i]] < slot[nodes[j]]
  {
    var order := InOrder(nodes, terms);
    forall e ensures e in slot <==> e in terms {
      InOrderElements(nodes, terms, e);
    }
    forall i, j | 0 <= i < j < |nodes| && nodes[i] in terms && nodes[j] in terms ensures slot[nodes[i]] < slot[nodes[j]] {
      var a, b := InOrderRanks(nodes, terms, i, j);
    }
  }

  // ----- definition before use

  /** Every slot loaded is among the stored ones or stored earlier in the code. */
  predicate LoadsStored(code: seq<Instruction>, stored: set<nat>) {
    code == [] ||
    match code[0]
    case FLDT(k) => k in stored && LoadsStored(code[1..], stored)
    case FSTPT(k) => LoadsStored(code[1..], stored + {k})
    case _ => LoadsStored(code[1..], stored)
  }

  /** The slots that a piece of code stores. */
  function Stores(code: seq<Instruction>): set<nat> {
    set i | 0 <= i < |code| && code[i].FSTPT? :: code[i].slot
  }

  lemma StoresAppend(a: seq<Instruction>, b: seq<Instruction>)
    ensures Stores(a + b) == Stores(a) + Stores(b)
  {
    forall k ensures k in Stores(a + b) <==> k in Stores(a) + Stores(b) {
      if k in Stores(a) {
        var i :| 0 <= i < |a| && a[i].FSTPT? && a[i].slot == k;
        assert (a + b)[i] == a[i];
      }
      if k in Stores(b) {
        var i :| 0 <= i < |b| && b[i].FSTPT? && b[i].slot == k;
        assert (a + b)[|a| + i] == b[i];
      }
    }
  }

  lemma {:induction false} LoadsAppend(a: seq<Instruction>, b: seq<Instruction>, stored: set<nat>)
    requires LoadsStored(a, stored) && LoadsStored(b, stored + Stores(a))
    ensures LoadsStored(a + b, stored)
  {
    if a == [] {
      assert a + b == b && stored + Stores(a) == stored;
    } else {
      assert (a + b)[0] == a[0] && (a + b)[1..] == a[1..] + b;
      assert a == [a[0]] + a[1..];
      StoresAppend([a[0]], a[1..]);
      var first := if a[0].FSTPT? then {a[0].slot} else {};
      assert Stores([a[0]]) == first by {
        if a[0].FSTPT? {
          assert [a[0]][0].slot in Stores([a[0]]);
        }
      }
      assert stored + first + Stores(a[1..]) == stored + Stores(a);
      if a[0].FSTPT? {
        LoadsAppend(a[1..], b, stored + first);
      } else {
        assert stored + first == stored;
        LoadsAppend(a[1..], b, stored);
      }
    }
  }

  /** In code that loads only stored slots, every load has an earlier store. */
  lemma {:induction false} LoadHasStore(code: seq<Instruction>, stored: set<nat>, j: nat)
    requires LoadsStored(code, stored) && j < |code| && code[j].FLDT?
    ensures code[j].slot in stored || exists i :: 0 <= i < j && code[i] == FSTPT(code[j].slot)
  {
    if j > 0 {
      var rest := code[1..];
      var more := if code[0].FSTPT? then stored + {code[0].slot} else stored;
      LoadHasStore(rest, more, j - 1);
      if code[j].slot !in stored {
        if code[0] != FSTPT(code[j].slot) {
          var i :| 0 <= i < j - 1 && rest[i] == FSTPT(code[j].slot);
          assert code[i + 1] == rest[i];
        }
      }
    }
  }

  /** The slots of a set of terms. */
  function Slots(terms: set<Expr>, slot: map<Expr, nat>): set<nat>
    requires terms <= slot.Keys
  {
    set e | e in terms :: slot[e]
  }

  lemma {:induction false} CodeLoads(e: Expr, terms: set<Expr>, slot: map<Expr, nat>, stored: set<nat>)
    requires terms <= slot.Keys && Slots(terms, slot) <= stored
    ensures LoadsStored(Code(e, terms, slot), stored) && Stores(Code(e, terms, slot)) == {}
  {
    match e
    case Un(op, arg) =>
      if e in terms {
        assert slot[e] in Slots(terms, slot);
      } else {
        CodeLoads(arg, terms, slot, stored);
        Quiet(Code(arg, terms, slot), [FUNARY(op)], stored);
      }
    case Bin(op, l, r) =>
      if e in terms {
        assert slot[e] in Slots(terms, slot);
      } else {
        CodeLoads(l, terms, slot, stored);
        CodeLoads(r, terms, slot, stored);
        BinaryCodeIs(op, l, r, terms, slot);
        Quiet(Code(r, terms, slot), [FBINARY(Opcode(op))], stored);
        Quiet(Code(l, terms, slot), Code(r, terms, slot) + [FBINARY(Opcode(op))], stored);
        Quiet(OrderCode(op), Code(l, terms, slot) + (Code(r, terms, slot) + [FBINARY(Opcode(op))]), stored);
      }
    case _ =>
  }

  lemma Quiet(a: seq<Instruction>, b: seq<Instruction>, stored: set<nat>)
    requires LoadsStored(a, stored) && Stores(a) == {} && LoadsStored(b, stored) && Stores(b) == {}
    ensures LoadsStored(a + b, stored) && Stores(a + b) == {}
  {
    assert stored + Stores(a) == stored;
    LoadsAppend(a, b, stored);
    StoresAppend(a, b);
  }

  lemma SlotsUnion(a: set<Expr>, b: set<Expr>, slot: map<Expr, nat>)
    requires a <= slot.Keys && b <= slot.Keys
    ensures Slots(a + b, slot) == Slots(a, slot) + Slots(b, slot)
  {
  }

  lemma TermCodeLoads(e: Expr, terms: set<Expr>, slot: map<Expr, nat>, stored: set<nat>)
    requires terms <= slot.Keys && e in slot && Slots(terms, slot) <= stored
    ensures LoadsStored(TermCode(e, terms, slot), stored) && Stores(TermCode(e, terms, slot)) == {slot[e]}
  {
    hide Code;
    var head, code, store := [FNUMEXPR(TemporaryTerm, slot[e])], Code(e, terms, slot), [FSTPT(slot[e])];
    CodeLoads(e, terms, slot, stored);
    assert stored + Stores(code) == stored && LoadsStored(store, stored);
    LoadsAppend(code, store, stored);
    StoresAppend(code, store);
    assert Stores(head) == {} && LoadsStored(head, stored) && stored + Stores(head) == stored;
    LoadsAppend(head, code + store, stored);
    StoresAppend(head, code + store);
    assert Stores(store) == {slot[e]} by {
      assert store[0].slot in Stores(store);
    }
  }

  lemma {:induction false} TermsCodeLoads(list: seq<Expr>, slot: map<Expr, nat>, stored: set<nat>)
    requires Elements(list) <= slot.Keys
    ensures LoadsStored(TermsCode(list, slot), stored) && Stores(TermsCode(list, slot)) == Slots(Elements(list), slot)
  {
    hide TermCode, LoadsStored;
    if list == [] {
      LoadsNothing(stored);
    } else {
      var init, e := list[..|list| - 1], list[|list| - 1];
      TermsCodeLoads(init, slot, stored);
      TermCodeLoads(e, Elements(init), slot, stored + Stores(TermsCode(init, slot)));
      LoadsAppend(TermsCode(init, slot), TermCode(e, Elements(init), slot), stored);
      StoresAppend(TermsCode(init, slot), TermCode(e, Elements(init), slot));
      assert Elements(list) == Elements(init) + {e};
      SlotsUnion(Elements(init), {e}, slot);
    }
  }

  lemma LoadsNothing(stored: set<nat>)
    ensures LoadsStored([], stored) && Stores([]) == {}
  {
  }

  lemma EquationCodeLoads(eq: Equation, terms: set<Expr>, slot: map<Expr, nat>, stored: set<nat>)
    requires terms <= slot.Keys && Slots(terms, slot) <= stored
    ensures LoadsStored(EquationCode(eq, terms, slot), stored) && Stores(EquationCode(eq, terms, slot)) == {}
  {
    hide Code;
    var head := [FNUMEXPR(ModelEquation, eq.id)];
    match eq
    case Evaluate(_, sym, lag, rhs) =>
      CodeLoads(rhs, terms, slot, stored);
      Quiet(Code(rhs, terms, slot), [FSTPV(sym, lag)], stored);
      Quiet(head, SideCode(eq, terms, slot), stored);
    case Solve(_, lhs, rhs, pos) =>
      CodeLoads(lhs, terms, slot, stored);
      CodeLoads(rhs, terms, slot, stored);
      var tail := [FBINARY(Minus), FSTPR(pos)];
      assert tail[1..] == [FSTPR(pos)];
      Quiet(Code(rhs, terms, slot), tail, stored);
      Quiet(Code(lhs, terms, slot), Code(rhs, terms, slot) + tail, stored);
      Quiet(head, SideCode(eq, terms, slot), stored);
  }

  /** The code of a planned block loads only slots stored by earlier blocks or before in the block. */
  lemma {:induction false} BlockLoads(eqs: seq<Equation>, lists: seq<seq<Expr>>, n: nat, terms: set<Expr>,
                                      slot: map<Expr, nat>, before: set<Expr>)
    requires Planned(eqs, lists, terms, slot, before) && n <= |eqs|
    ensures before + Stored(lists, n) <= slot.Keys
    ensures LoadsStored(EquationsCode(eqs, lists, n, terms, slot), Slots(before, slot))
    ensures Stores(EquationsCode(eqs, lists, n, terms, slot)) == Slots(Stored(lists, n), slot)
    decreases n
  {
    hide TermsCode, EquationCode, LoadsStored, Stores;
    if n == 0 {
      LoadsNothing(Slots(before, slot));
    } else {
      var code, tc, ec := EquationsCode(eqs, lists, n - 1, terms, slot), TermsCode(lists[n - 1], slot),
                          EquationCode(eqs[n - 1], terms, slot);
      var stored := before + Stored(lists, n);
      BlockLoads(eqs, lists, n - 1, terms, slot, before);
      SlotsUnion(before, Stored(lists, n - 1), slot);
      SlotsUnion(Stored(lists, n - 1), Elements(lists[n - 1]), slot);
      SlotsUnion(before, Stored(lists, n), slot);
      var held := Slots(before, slot) + Stores(code);
      TermsCodeLoads(lists[n - 1], slot, held);
      assert Covered(eqs[n - 1], terms, stored);
      OnlyStored(eqs[n - 1], terms, stored, slot);
      assert held + Stores(tc) == Slots(stored, slot);
      EquationCodeLoads(eqs[n - 1], stored, slot, held + Stores(tc));
      LoadsAppend(tc, ec, held);
      StoresAppend(tc, ec);
      LoadsAppend(code, tc + ec, Slots(before, slot));
      StoresAppend(code, tc + ec);
    }
  }

  // ----- the plan of the temporary terms

  ghost function ListsOf(nodes: seq<Expr>, v: seq<set<Expr>>): seq<seq<Expr>> {
    seq(|v|, i requires 0 <= i < |v| => InOrder(nodes, v[i]))
  }

  ghost predicate InNodes(nodes: seq<Expr>, terms: set<Expr>) {
    forall e :: e in terms ==> e in nodes
  }

  /** Every operator below a node that was met was met no later. */
  lemma {:induction false} Reached(tables: TermTables, e: Expr, x: Expr)
    requires tables.Valid({}) && e in tables.firstOccurrence && x in Operators(e)
    ensures x in tables.firstOccurrence && Before(tables.firstOccurrence[x], tables.firstOccurrence[e])
    decreases e, 1
  {
    if x != e {
      assert tables.ChildrenMet(e);
      match e
      case Un(_, arg) => ReachedFrom(tables, e, arg, x);
      case Bin(_, l, r) => ReachedFrom(tables, e, if x in Operators(l) then l else r, x);
    }
  }

  lemma ReachedFrom(tables: TermTables, e: Expr, a: Expr, x: Expr)
    requires tables.Valid({}) && e in tables.firstOccurrence && tables.ChildrenMet(e)
    requires IsChild(a, e) && x in Operators(a)
    ensures x in tables.firstOccurrence && Before(tables.firstOccurrence[x], tables.firstOccurrence[e])
    decreases e, 0
  {
    assert IsOperator(a);
    Reached(tables, a, x);
  }

  /** The temporary terms of the blocks before b. */
  ghost function TermsBefore(tables: TermTables, b: nat): set<Expr>
    reads tables
    requires tables.Valid({})
  {
    set e | e in tables.temporaryTerms && tables.firstOccurrence[e].0 < b
  }

  lemma {:induction false} StoredIs(tables: TermTables, nodes: seq<Expr>, b: nat, n: nat, e: Expr)
    requires tables.Valid({}) && InNodes(nodes, tables.temporaryTerms)
    requires b < |tables.vTemporaryTerms| && n <= |tables.vTemporaryTerms[b]|
    ensures e in Stored(ListsOf(nodes, tables.vTemporaryTerms[b]), n)
            <==> e in tables.temporaryTerms && tables.firstOccurrence[e].0 == b && tables.firstOccurrence[e].1 < n
  {
    if n > 0 {
      StoredIs(tables, nodes, b, n - 1, e);
      var v := tables.vTemporaryTerms[b];
      InOrderElements(nodes, v[n - 1], e);
      assert ListsOf(nodes, v)[n - 1] == InOrder(nodes, v[n - 1]);
      assert tables.Attached();
      assert e in v[n - 1] <==> e in tables.temporaryTerms && tables.firstOccurrence[e] == (b, n - 1);
    }
  }

  /** Each temporary term belongs to exactly one equation, that of its first occurrence. */
  lemma OnePlace(tables: TermTables, e: Expr, p: Place)
    requires tables.Valid({}) && HasPlace(tables.vTemporaryTerms, p)
    ensures e in tables.vTemporaryTerms[p.0][p.1]
            <==> e in tables.temporaryTerms && e in tables.firstOccurrence && tables.firstOccurrence[e] == p
  {
    assert tables.Attached();
  }

  /** The equations of a block are the nodes that were visited for it. */
  predicate Visits(eqs: seq<Equation>, block: Block) {
    |eqs| == |block.equations| && forall i :: 0 <= i < |eqs| ==> Node(eqs[i]) == block.equations[i]
  }

  lemma EquationCovered(tables: TermTables, nodes: seq<Expr>, blocks: seq<Block>, b: nat, i: nat, eq: Equation)
    requires tables.Valid({}) && InNodes(nodes, tables.temporaryTerms) && tables.Visited(blocks, (|blocks|, 0))
    requires b < |blocks| == |tables.vTemporaryTerms| && i < |blocks[b].equations| == |tables.vTemporaryTerms[b]|
    requires Node(eq) == blocks[b].equations[i]
    ensures Covered(eq, tables.temporaryTerms,
                    TermsBefore(tables, b) + Stored(ListsOf(nodes, tables.vTemporaryTerms[b]), i + 1))
  {
    assert tables.VisitedAt(blocks[b].equations[i], (b, i));
    forall x | x in Operators(Node(eq)) && x in tables.temporaryTerms
      ensures x in TermsBefore(tables, b) + Stored(ListsOf(nodes, tables.vTemporaryTerms[b]), i + 1)
    {
      Reached(tables, Node(eq), x);
      StoredIs(tables, nodes, b, i + 1, x);
    }
  }

  lemma ListedTerm(tables: TermTables, nodes: seq<Expr>, b: nat, i: nat, e: Expr)
    requires tables.Valid({}) && HasPlace(tables.vTemporaryTerms, (b, i))
    requires e in ListsOf(nodes, tables.vTemporaryTerms[b])[i]
    ensures e in tables.temporaryTerms && NoEquality(e)
  {
    InOrderElements(nodes, tables.vTemporaryTerms[b][i], e);
    OnePlace(tables, e, (b, i));
    assert Plain(e);
  }

  /** The choice of temporary terms gives a plan for every block. */
  lemma PlanOf(tables: TermTables, nodes: seq<Expr>, blocks: seq<Block>, b: nat, eqs: seq<Equation>,
               slot: map<Expr, nat>)
    requires tables.Valid({}) && InNodes(nodes, tables.temporaryTerms) && tables.Visited(blocks, (|blocks|, 0))
    requires b < |blocks| == |tables.vTemporaryTerms| && |blocks[b].equations| == |tables.vTemporaryTerms[b]|
    requires Visits(eqs, blocks[b]) && PlainBlock(blocks[b])
    requires slot.Keys == tables.temporaryTerms && Injective(slot)
    ensures Planned(eqs, ListsOf(nodes, tables.vTemporaryTerms[b]), tables.temporaryTerms, slot, TermsBefore(tables, b))
  {
    var v, terms := tables.vTemporaryTerms[b], tables.temporaryTerms;
    var lists := ListsOf(nodes, v);
    forall i, e | 0 <= i < |lists| && e in lists[i] ensures e in terms && NoEquality(e) {
      ListedTerm(tables, nodes, b, i, e);
    }
    forall i | 0 <= i < |eqs|
      ensures NoInnerEquality(eqs[i])
      ensures Covered(eqs[i], terms, TermsBefore(tables, b) + Stored(lists, i + 1))
    {
      assert Plain(blocks[b].equations[i]);
      EquationCovered(tables, nodes, blocks, b, i, eqs[i]);
    }
  }

  // ----- all blocks

  /** The equations of all blocks with the tables chosen for them. */
  ghost predicate Chosen(tables: TermTables, nodes: seq<Expr>, blocks: seq<Block>, model: seq<seq<Equation>>,
                         slot: map<Expr, nat>)
    reads tables
  {
    && tables.Valid({}) && InNodes(nodes, tables.temporaryTerms) && tables.Visited(blocks, (|blocks|, 0))
    && tables.Originates(blocks)
    && |model| == |blocks| == |tables.vTemporaryTerms|
    && (forall b :: 0 <= b < |blocks| ==>
          && |blocks[b].equations| == |tables.vTemporaryTerms[b]|
          && Visits(model[b], blocks[b]) && PlainBlock(blocks[b]))
    && slot.Keys == tables.temporaryTerms && Injective(slot)
  }

  lemma ChosenPlan(tables: TermTables, nodes: seq<Expr>, blocks: seq<Block>, model: seq<seq<Equation>>,
                   slot: map<Expr, nat>, b: nat)
    requires Chosen(tables, nodes, blocks, model, slot) && b < |model|
    ensures |tables.vTemporaryTerms[b]| == |model[b]|
    ensures Planned(model[b], ListsOf(nodes, tables.vTemporaryTerms[b]), tables.temporaryTerms, slot,
                    TermsBefore(tables, b))
    ensures HaveSlots(ListsOf(nodes, tables.vTemporaryTerms[b]), slot)
  {
    PlanOf(tables, nodes, blocks, b, model[b], slot);
  }

  /** The code of the equations of the first n blocks. */
  ghost function ModelCode(tables: TermTables, nodes: seq<Expr>, blocks: seq<Block>, model: seq<seq<Equation>>,
                           slot: map<Expr, nat>, n: nat): seq<Instruction>
    reads tables
    requires Chosen(tables, nodes, blocks, model, slot) && n <= |model|
  {
    if n == 0 then []
    else
      ChosenPlan(tables, nodes, blocks, model, slot, n - 1);
      ModelCode(tables, nodes, blocks, model, slot, n - 1)
      + EquationsCode(model[n - 1], ListsOf(nodes, tables.vTemporaryTerms[n - 1]), |model[n - 1]|,
                      tables.temporaryTerms, slot)
  }

  lemma StoredAll(tables: TermTables, nodes: seq<Expr>, b: nat)
    requires tables.Valid({}) && InNodes(nodes, tables.temporaryTerms) && b < |tables.vTemporaryTerms|
    ensures TermsBefore(tables, b + 1)
            == TermsBefore(tables, b) + Stored(ListsOf(nodes, tables.vTemporaryTerms[b]), |tables.vTemporaryTerms[b]|)
  {
    var n := |tables.vTemporaryTerms[b]|;
    forall e ensures e in TermsBefore(tables, b + 1)
                     <==> e in TermsBefore(tables, b) + Stored(ListsOf(nodes, tables.vTemporaryTerms[b]), n) {
      StoredIs(tables, nodes, b, n, e);
      if e in tables.temporaryTerms {
        assert HasPlace(tables.vTemporaryTerms, tables.firstOccurrence[e]);
      }
    }
  }

  lemma NoSlots(slot: map<Expr, nat>)
    ensures Slots({}, slot) == {}
  {
  }

  lemma {:induction false} ModelLoads(tables: TermTables, nodes: seq<Expr>, blocks: seq<Block>,
                                      model: seq<seq<Equation>>, slot: map<Expr, nat>, n: nat)
    requires Chosen(tables, nodes, blocks, model, slot) && n <= |model|
    ensures LoadsStored(ModelCode(tables, nodes, blocks, model, slot, n), {})
    ensures Stores(ModelCode(tables, nodes, blocks, model, slot, n)) == Slots(TermsBefore(tables, n), slot)
    decreases n
  {
    hide LoadsStored, Stores, EquationsCode, Planned, HaveSlots, Stored, Slots;
    if n == 0 {
      LoadsNothing({});
      assert TermsBefore(tables, 0) == {};
      NoSlots(slot);
    } else {
      var b := n - 1;
      var lists, before := ListsOf(nodes, tables.vTemporaryTerms[b]), TermsBefore(tables, b);
      var code := ModelCode(tables, nodes, blocks, model, slot, b);
      ModelLoads(tables, nodes, blocks, model, slot, b);
      ChosenPlan(tables, nodes, blocks, model, slot, b);
      var more := EquationsCode(model[b], lists, |model[b]|, tables.temporaryTerms, slot);
      BlockLoads(model[b], lists, |model[b]|, tables.temporaryTerms, slot, before);
      assert {} + Stores(code) == Slots(before, slot);
      LoadsAppend(code, more, {});
      StoresAppend(code, more);
      StoredAll(tables, nodes, b);
      SlotsUnion(before, Stored(lists, |model[b]|), slot);
    }
  }

  /** The slot that instruction j loads is stored by an earlier one. */
  ghost predicate StoredBefore(code: seq<Instruction>, j: nat)
    requires j < |code| && code[j].FLDT?
  {
    exists i :: 0 <= i < j && code[i] == FSTPT(code[j].slot)
  }

  /** Temporaries are defined before use: in the code of the equations of all blocks, every slot that is loaded has
      been stored by an earlier instruction. */
  lemma DefinedBeforeUse(tables: TermTables, nodes: seq<Expr>, blocks: seq<Block>, model: seq<seq<Equation>>,
                         slot: map<Expr, nat>, j: nat)
    requires Chosen(tables, nodes, blocks, model, slot)
    requires j < |ModelCode(tables, nodes, blocks, model, slot, |model|)|
    requires ModelCode(tables, nodes, blocks, model, slot, |model|)[j].FLDT?
    ensures StoredBefore(ModelCode(tables, nodes, blocks, model, slot, |model|), j)
  {
    ModelLoads(tables, nodes, blocks, model, slot, |model|);
    LoadHasStore(ModelCode(tables, nodes, blocks, model, slot, |model|), {}, j);
  }

  /** Running the equations of a block from a state in which the slots of the terms of earlier blocks hold: it reaches the
      end exactly when all that the block computes has a value and is executable, and then every evaluated equation of the
      block holds, every residual slot holds left minus right, and the slots of the terms of this block hold too. */
  lemma BlockOfModelCorrect(m: Functions, t: int, tables: TermTables, nodes: seq<Expr>, blocks: seq<Block>,
                            model: seq<seq<Equation>>, slot: map<Expr, nat>, b: nat, s: State)
    requires Chosen(tables, nodes, blocks, model, slot) && b < |model|
    requires |tables.vTemporaryTerms[b]| == |model[b]| && HaveSlots(ListsOf(nodes, tables.vTemporaryTerms[b]), slot)
    requires RecursiveOrder(model[b], ListsOf(nodes, tables.vTemporaryTerms[b]), TermsBefore(tables, b))
    requires SlotsHold(m, t, TermsBefore(tables, b), slot, s)
    ensures var lists := ListsOf(nodes, tables.vTemporaryTerms[b]);
            var r := ExecAll(m, t, EquationsCode(model[b], lists, |model[b]|, tables.temporaryTerms, slot), s);
            && (r.Some? <==> BlockRuns(m, t, model[b], lists, |model[b]|, tables.temporaryTerms, s.path))
            && (r.Some? ==> Done(m, t, model[b], |model[b]|, r.value) && r.value.stack == s.stack
                            && r.value.path == PathAfter(m, t, model[b], |model[b]|, s.path)
                            && SlotsHold(m, t, TermsBefore(tables, b + 1), slot, r.value))
  {
    hide ExecAll, EquationsCode, Planned, BlockRuns;
    var lists, before := ListsOf(nodes, tables.vTemporaryTerms[b]), TermsBefore(tables, b);
    ChosenPlan(tables, nodes, blocks, model, slot, b);
    BlockCorrect(m, t, model[b], lists, |model[b]|, tables.temporaryTerms, slot, before, s);
    StoredAll(tables, nodes, b);
  }

  // ----- running all blocks

  /** The path after the first n blocks. */
  function ModelPath(m: Functions, t: int, model: seq<seq<Equation>>, n: nat, path: Path): Path
    requires n <= |model|
  {
    if n == 0 then path else PathAfter(m, t, model[n - 1], |model[n - 1]|, ModelPath(m, t, model, n - 1, path))
  }

  /** All that the first n blocks compute, each on the path that the blocks before it have made, has a value and is
      executable. */
  ghost predicate ModelRuns(m: Functions, t: int, tables: TermTables, nodes: seq<Expr>, blocks: seq<Block>,
                            model: seq<seq<Equation>>, slot: map<Expr, nat>, n: nat, path: Path)
    requires Chosen(tables, nodes, blocks, model, slot) && n <= |model|
    reads tables
  {
    n == 0 ||
    (&& ModelRuns(m, t, tables, nodes, blocks, model, slot, n - 1, path)
     && BlockRuns(m, t, model[n - 1], ListsOf(nodes, tables.vTemporaryTerms[n - 1]), |model[n - 1]|,
                  tables.temporaryTerms, ModelPath(m, t, model, n - 1, path)))
  }

  /** Every block is in the order that its code relies on. */
  ghost predicate AllRecursive(tables: TermTables, nodes: seq<Expr>, blocks: seq<Block>, model: seq<seq<Equation>>,
                               slot: map<Expr, nat>)
    requires Chosen(tables, nodes, blocks, model, slot)
    reads tables
  {
    forall b :: 0 <= b < |model| ==>
      RecursiveOrder(model[b], ListsOf(nodes, tables.vTemporaryTerms[b]), TermsBefore(tables, b))
  }

  /** The blocks are triangular: a variable that a block evaluates is in no evaluated equation of an earlier block. */
  ghost predicate Triangular(model: seq<seq<Equation>>) {
    forall a, i, b, j :: 0 <= a < b < |model| && 0 <= i < |model[a]| && 0 <= j < |model[b]| ==>
      Apart(model[a][i], model[b][j])
  }

  ghost predicate Apart(eq: Equation, later: Equation) {
    eq.Evaluate? && later.Evaluate? ==> later.sym.kind == Endogenous && UnreadBy((later.sym, later.lag), Node(eq))
  }

  /** The evaluated equation holds on the path. */
  ghost predicate HoldsOn(m: Functions, t: int, eq: Equation, path: Path) {
    eq.Evaluate? ==> Value(m, eq.rhs, path, t) == Value(m, Var(eq.sym, eq.lag), path, t)
  }

  /** What a block evaluates leaves the equations that do not contain it. */
  lemma {:induction false} BlockLeaves(m: Functions, t: int, eqs: seq<Equation>, n: nat, path: Path, eq: Equation)
    requires n <= |eqs| && forall j :: 0 <= j < |eqs| ==> Apart(eq, eqs[j])
    ensures HoldsOn(m, t, eq, PathAfter(m, t, eqs, n, path)) <==> HoldsOn(m, t, eq, path)
    decreases n
  {
    hide Value;
    if n > 0 {
      BlockLeaves(m, t, eqs, n - 1, path, eq);
      var p, last := PathAfter(m, t, eqs, n - 1, path), eqs[n - 1];
      if last.Evaluate? && eq.Evaluate? && Value(m, last.rhs, p, t).Some? {
        assert Apart(eq, last);
        var v := Value(m, last.rhs, p, t).value;
        Unread(m, eq.rhs, p, t, last.sym, last.lag, v);
        Unread(m, Var(eq.sym, eq.lag), p, t, last.sym, last.lag, v);
      }
    }
  }

  /** After the first n blocks: all residuals of the last one are left minus right, the slots of all terms so far hold, and
      the evaluated equations of all these blocks hold if the blocks are triangular. */
  ghost predicate AfterBlocks(m: Functions, t: int, tables: TermTables, model: seq<seq<Equation>>, slot: map<Expr, nat>,
                              n: nat, s: State, s': State)
    requires tables.Valid({}) && tables.temporaryTerms <= slot.Keys && n <= |model|
    reads tables
  {
    && s'.stack == s.stack && s'.path == ModelPath(m, t, model, n, s.path)
    && SlotsHold(m, t, TermsBefore(tables, n), slot, s')
    && (n > 0 ==> Done(m, t, model[n - 1], |model[n - 1]|, s'))
    && (Triangular(model) ==> AllHold(m, t, model, n, s'.path))
  }

  ghost predicate AllHold(m: Functions, t: int, model: seq<seq<Equation>>, n: nat, path: Path)
    requires n <= |model|
  {
    forall b, i :: 0 <= b < n && 0 <= i < |model[b]| ==> HoldsOn(m, t, model[b][i], path)
  }

  /** One more block. */
  lemma ModelStep(m: Functions, t: int, tables: TermTables, nodes: seq<Expr>, blocks: seq<Block>,
                  model: seq<seq<Equation>>, slot: map<Expr, nat>, b: nat, s: State, s1: State)
    requires Chosen(tables, nodes, blocks, model, slot) && b < |model|
    requires |tables.vTemporaryTerms[b]| == |model[b]| && HaveSlots(ListsOf(nodes, tables.vTemporaryTerms[b]), slot)
    requires RecursiveOrder(model[b], ListsOf(nodes, tables.vTemporaryTerms[b]), TermsBefore(tables, b))
    requires AfterBlocks(m, t, tables, model, slot, b, s, s1)
    ensures var lists := ListsOf(nodes, tables.vTemporaryTerms[b]);
            var r := ExecAll(m, t, EquationsCode(model[b], lists, |model[b]|, tables.temporaryTerms, slot), s1);
            && (r.Some? <==> BlockRuns(m, t, model[b], lists, |model[b]|, tables.temporaryTerms,
                                       ModelPath(m, t, model, b, s.path)))
            && (r.Some? ==> AfterBlocks(m, t, tables, model, slot, b + 1, s, r.value))
  {
    BlockOfModelCorrect(m, t, tables, nodes, blocks, model, slot, b, s1);
    hide ExecAll, EquationsCode, BlockRuns, HoldsOn, DoneAt, TermsBefore, SlotsHold, Chosen, HaveSlots;
    var lists := ListsOf(nodes, tables.vTemporaryTerms[b]);
    var r := ExecAll(m, t, EquationsCode(model[b], lists, |model[b]|, tables.temporaryTerms, slot), s1);
    if r.Some? && Triangular(model) {
      HoldAgain(m, t, model, b, s1.path, r.value);
    }
  }

  /** Running the equations of the first n blocks one after another, from any state: it reaches the end exactly when all that
      they compute has a value and is executable, and every block finds in the slots what the blocks before it have left. */
  lemma {:induction false} ModelCorrect(m: Functions, t: int, tables: TermTables, nodes: seq<Expr>, blocks: seq<Block>,
                                        model: seq<seq<Equation>>, slot: map<Expr, nat>, n: nat, s: State)
    requires Chosen(tables, nodes, blocks, model, slot) && n <= |model|
    requires AllRecursive(tables, nodes, blocks, model, slot)
    ensures var r := ExecAll(m, t, ModelCode(tables, nodes, blocks, model, slot, n), s);
            && (r.Some? <==> ModelRuns(m, t, tables, nodes, blocks, model, slot, n, s.path))
            && (r.Some? ==> AfterBlocks(m, t, tables, model, slot, n, s, r.value))
    decreases n
  {
    hide ExecAll, EquationsCode, BlockRuns, RecursiveOrder, HoldsOn, DoneAt, AfterBlocks, HaveSlots, Triangular;
    if n == 0 {
      ExecNothing(m, t, s);
      NothingRun(m, t, tables, model, slot, s);
    } else {
      var b := n - 1;
      var lists, code := ListsOf(nodes, tables.vTemporaryTerms[b]), ModelCode(tables, nodes, blocks, model, slot, b);
      ModelCorrect(m, t, tables, nodes, blocks, model, slot, b, s);
      OneBlock(tables, nodes, blocks, model, slot, b);
      ExecAppend(m, t, code, EquationsCode(model[b], lists, |model[b]|, tables.temporaryTerms, slot), s);
      hide Chosen, ModelCode;
      if ExecAll(m, t, code, s).Some? {
        ModelStep(m, t, tables, nodes, blocks, model, slot, b, s, ExecAll(m, t, code, s).value);
      }
    }
  }

  lemma NothingRun(m: Functions, t: int, tables: TermTables, model: seq<seq<Equation>>, slot: map<Expr, nat>, s: State)
    requires tables.Valid({}) && tables.temporaryTerms <= slot.Keys
    ensures AfterBlocks(m, t, tables, model, slot, 0, s, s)
  {
  }

  lemma HoldAgain(m: Functions, t: int, model: seq<seq<Equation>>, n: nat, path: Path, s: State)
    requires Triangular(model) && n < |model| && s.path == PathAfter(m, t, model[n], |model[n]|, path)
    requires AllHold(m, t, model, n, path)
    requires Done(m, t, model[n], |model[n]|, s)
    requires forall i :: 0 <= i < |model[n]| && model[n][i].Evaluate? ==> model[n][i].sym.kind == Endogenous
    ensures AllHold(m, t, model, n + 1, s.path)
  {
    forall b, i | 0 <= b <= n && 0 <= i < |model[b]| ensures HoldsOn(m, t, model[b][i], s.path) {
      if b < n {
        if model[b][i].Evaluate? {
          BlockLeaves(m, t, model[n], |model[n]|, path, model[b][i]);
        }
      } else {
        assert DoneAt(m, t, model[n][i], s);
      }
    }
  }

  // ----- emission

  /** Writes the temporary terms of an equation; each is compiled with the ones before it as known terms. */
  method WriteTerms(file: CodeFile, list: seq<Expr>, slot: map<Expr, nat>)
    requires Elements(list) <= slot.Keys
    modifies file
    ensures file.code == old(file.code) + TermsCode(list, slot)
  {
    hide Code;
    var tt2: set<Expr> := {};
    for j := 0 to |list|
      invariant tt2 == Elements(list[..j]) && tt2 <= slot.Keys
      invariant file.code == old(file.code) + TermsCode(list[..j], slot)
    {
      var e := list[j];
      assert e in Elements(list);
      ghost var before := file.code;
      file.Write(FNUMEXPR(TemporaryTerm, slot[e]));
      Compile(file, e, tt2, slot);
      file.Write(FSTPT(slot[e]));
      assert file.code == before + TermCode(e, tt2, slot);
      assert list[..j + 1][..j] == list[..j];
      tt2 := tt2 + {e};
      assert old(file.code) + TermsCode(list[..j], slot) + TermCode(e, Elements(list[..j]), slot)
             == old(file.code) + (TermsCode(list[..j], slot) + TermCode(e, Elements(list[..j]), slot));
    }
    assert list[..|list|] == list;
  }

  method WriteEquation(file: CodeFile, eq: Equation, terms: set<Expr>, slot: map<Expr, nat>)
    requires terms <= slot.Keys
    modifies file
    ensures file.code == old(file.code) + EquationCode(eq, terms, slot)
  {
    hide Code;
    file.Write(FNUMEXPR(ModelEquation, eq.id));
    match eq
    case Evaluate(_, sym, lag, rhs) =>
      Compile(file, rhs, terms, slot);
      file.Write(FSTPV(sym, lag));
    case Solve(_, lhs, rhs, pos) =>
      Compile(file, lhs, terms, slot);
      Compile(file, rhs, terms, slot);
      file.Write(FBINARY(Minus));
      file.Write(FSTPR(pos));
  }

  /** Writes the equations of a block; v[i] are the temporary terms of equation i. */
  method WriteBlockEquations(file: CodeFile, eqs: seq<Equation>, v: seq<set<Expr>>, nodes: seq<Expr>,
                             terms: set<Expr>, slot: map<Expr, nat>)
    requires |v| == |eqs| && terms <= slot.Keys && HaveSlots(ListsOf(nodes, v), slot)
    modifies file
    ensures file.code == old(file.code) + EquationsCode(eqs, ListsOf(nodes, v), |eqs|, terms, slot)
  {
    hide TermsCode, EquationCode, InOrder;
    ghost var lists := ListsOf(nodes, v);
    for i := 0 to |eqs|
      invariant file.code == old(file.code) + EquationsCode(eqs, lists, i, terms, slot)
    {
      ghost var before := EquationsCode(eqs, lists, i, terms, slot);
      assert Elements(lists[i]) <= slot.Keys;
      WriteTerms(file, InOrder(nodes, v[i]), slot);
      WriteEquation(file, eqs[i], terms, slot);
      assert old(file.code) + before + TermsCode(lists[i], slot) + EquationCode(eqs[i], terms, slot)
             == old(file.code) + (before + (TermsCode(lists[i], slot) + EquationCode(eqs[i], terms, slot)));
    }
  }

  /** The node list of the data tree holds all that is visited. */
  ghost predicate TreeHolds(nodes: seq<Expr>, blocks: seq<Block>) {
    forall b, e, x :: 0 <= b < |blocks| && (e in blocks[b].equations || e in blocks[b].derivatives) && x in Operators(e)
      ==> x in nodes
  }

  /** The terms are nodes of the data tree. */
  lemma TermsInTree(tables: TermTables, nodes: seq<Expr>, blocks: seq<Block>)
    requires tables.Valid({}) && tables.Originates(blocks) && TreeHolds(nodes, blocks)
    ensures InNodes(nodes, tables.temporaryTerms)
  {
    forall x | x in tables.temporaryTerms ensures x in nodes {
      assert OccursAt(blocks, x, tables.firstOccurrence[x]);
    }
  }

  /** The counts that decide the choice: how often a node occurs among the blocks and as an argument of their nodes. */
  ghost predicate Tallied(tables: TermTables, blocks: seq<Block>)
    reads tables
  {
    forall x :: IsOperator(x) ==> tables.Surplus(x) == RootUses(blocks, x)
  }

  /** Chooses the temporary terms of a model and numbers them. */
  method ChooseTerms(nodes: seq<Expr>, blocks: seq<Block>, ghost model: seq<seq<Equation>>)
    returns (tables: TermTables, slot: map<Expr, nat>)
    requires forall i, j :: 0 <= i < j < |nodes| ==> nodes[i] != nodes[j]
    requires TreeHolds(nodes, blocks) && |model| == |blocks|
    requires forall b :: 0 <= b < |blocks| ==> |model[b]| > 0 && Visits(model[b], blocks[b]) && PlainBlock(blocks[b])
    ensures fresh(tables) && Chosen(tables, nodes, blocks, model, slot)
    ensures forall e :: e in slot ==> slot[e] < |tables.temporaryTerms|
    ensures tables.Economical() && Tallied(tables, blocks)
  {
    hide TreeHolds, Operators, OccursAt, PlainBlock;
    tables := new TermTables();
    tables.ComputeTemporaryTermsOrdered(blocks);
    TermsInTree(tables, nodes, blocks);
    slot := ComputeTemporaryTermsMapping(nodes, tables.temporaryTerms);
  }

  /** The first n blocks, with what the code of each needs. */
  lemma OneBlock(tables: TermTables, nodes: seq<Expr>, blocks: seq<Block>, model: seq<seq<Equation>>,
                 slot: map<Expr, nat>, b: nat)
    requires Chosen(tables, nodes, blocks, model, slot) && b < |model|
    ensures b < |tables.vTemporaryTerms| && |tables.vTemporaryTerms[b]| == |model[b]|
    ensures tables.temporaryTerms <= slot.Keys && HaveSlots(ListsOf(nodes, tables.vTemporaryTerms[b]), slot)
    ensures ModelCode(tables, nodes, blocks, model, slot, b + 1)
            == ModelCode(tables, nodes, blocks, model, slot, b)
               + EquationsCode(model[b], ListsOf(nodes, tables.vTemporaryTerms[b]), |model[b]|, tables.temporaryTerms, slot)
  {
    hide EquationsCode, HaveSlots;
    ChosenPlan(tables, nodes, blocks, model, slot, b);
  }

  /** Chooses the temporary terms of a model, numbers them, and writes the equations of all blocks: no slot is loaded before
      it is stored. */
  method WriteModel(nodes: seq<Expr>, blocks: seq<Block>, model: seq<seq<Equation>>)
    returns (file: CodeFile, tables: TermTables, slot: map<Expr, nat>)
    requires forall i, j :: 0 <= i < j < |nodes| ==> nodes[i] != nodes[j]
    requires TreeHolds(nodes, blocks) && |model| == |blocks|
    requires forall b :: 0 <= b < |blocks| ==> |model[b]| > 0 && Visits(model[b], blocks[b]) && PlainBlock(blocks[b])
    ensures Chosen(tables, nodes, blocks, model, slot)
    ensures forall e :: e in slot ==> slot[e] < |tables.temporaryTerms|
    ensures tables.Economical() && Tallied(tables, blocks)
    ensures file.code == ModelCode(tables, nodes, blocks, model, slot, |model|)
    ensures forall j :: 0 <= j < |file.code| && file.code[j].FLDT? ==> StoredBefore(file.code, j)
  {
    hide Chosen, EquationsCode, ListsOf, HaveSlots, TreeHolds, Visits, PlainBlock, ModelCode, StoredBefore, Tallied;
    hide TermTables.Economical;
    tables, slot := ChooseTerms(nodes, blocks, model);
    file := new CodeFile();
    NoCode(tables, nodes, blocks, model, slot);
    for b := 0 to |model|
      invariant Chosen(tables, nodes, blocks, model, slot) && forall e :: e in slot ==> slot[e] < |tables.temporaryTerms|
      invariant tables.Economical() && Tallied(tables, blocks)
      invariant file.code == ModelCode(tables, nodes, blocks, model, slot, b)
    {
      OneBlock(tables, nodes, blocks, model, slot, b);
      WriteBlockEquations(file, model[b], tables.vTemporaryTerms[b], nodes, tables.temporaryTerms, slot);
    }
    forall j | 0 <= j < |file.code| && file.code[j].FLDT? ensures StoredBefore(file.code, j) {
      DefinedBeforeUse(tables, nodes, blocks, model, slot, j);
    }
  }

  lemma NoCode(tables: TermTables, nodes: seq<Expr>, blocks: seq<Block>, model: seq<seq<Equation>>, slot: map<Expr, nat>)
    requires Chosen(tables, nodes, blocks, model, slot)
    ensures ModelCode(tables, nodes, blocks, model, slot, 0) == []
  {
  }
}
