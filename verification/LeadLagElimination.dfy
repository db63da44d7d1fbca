/** The passes over a whole model: meaning and shape of the transformed equations. */
module LeadLagElimination {
  import opened Results
  import opened Expressions
  import opened Constructors
  import opened TimeShifts
  import opened AuxiliarySystems
  import opened AffineLeads
  import opened LeadLagPasses

  /** The paths agree on every symbol but the auxiliary ones from `base` on. */
  ghost predicate Extends(p: Path, q: Path, base: nat) {
    forall s: Symbol, t: int :: s.kind != Endogenous || s.id < base ==> p(s, t) == q(s, t)
  }

  ghost predicate SameAuxiliaries(q1: Path, q2: Path, base: nat, next: nat) {
    forall id: nat, t: int :: base <= id < next ==> q1(Aux(id), t) == q2(Aux(id), t)
  }

  /** q solves out, defines the dropped operations, and differs from p in auxiliary symbols only. */
  ghost predicate IsSolution(m: Functions, out: seq<Expr>, drops: seq<Expr>, p: Path, q: Path, base: nat) {
    Extends(p, q, base) && Solves(m, out, q) && DefinedAlong(m, drops, q)
  }

  /** p solves eqs exactly when it extends to a solution of out that defines what was dropped, and then
      the extension is unique. */
  ghost predicate EquivalentAt(m: Functions, eqs: seq<Expr>, out: seq<Expr>, drops: seq<Expr>, base: nat, next: nat,
                               p: Path) {
    && (Solves(m, eqs, p) <==> exists q: Path :: IsSolution(m, out, drops, p, q, base))
    && (forall q1: Path, q2: Path :: IsSolution(m, out, drops, p, q1, base) && IsSolution(m, out, drops, p, q2, base) ==>
          SameAuxiliaries(q1, q2, base, next))
  }

  ghost predicate Equivalent(m: Functions, eqs: seq<Expr>, out: seq<Expr>, drops: seq<Expr>, base: nat, next: nat) {
    forall p: Path :: EquivalentAt(m, eqs, out, drops, base, next, p)
  }

  ghost predicate ExtendsDefined(m: Functions, out: seq<Expr>, p: Path, q: Path, base: nat) {
    Extends(p, q, base) && DefinedAlong(m, out, q)
  }

  /** Every solution of out that extends p defines what was dropped, and p extends to a path that defines out in any case. */
  ghost predicate HarmlessAt(m: Functions, out: seq<Expr>, drops: seq<Expr>, base: nat, p: Path) {
    && (forall q: Path :: Extends(p, q, base) && Solves(m, out, q) ==> DefinedAlong(m, drops, q))
    && (exists q: Path :: ExtendsDefined(m, out, p, q, base))
  }

  /** The transformation of eqs into out preserves meaning: along all paths when what it dropped is defined, and that is so
      along all paths that define eqs. */
  ghost predicate Preserves(m: Functions, eqs: seq<Expr>, out: seq<Expr>, drops: seq<Expr>, base: nat, next: nat) {
    && Equivalent(m, eqs, out, drops, base, next)
    && (forall p: Path :: DefinedAlong(m, eqs, p) ==> HarmlessAt(m, out, drops, base, p))
  }

  predicate AreEquations(eqs: seq<Expr>, n: nat) {
    forall i :: 0 <= i < |eqs| ==> IsEquation(eqs[i]) && Below(eqs[i], n)
  }

  /** Side by side, the substituted equation has the values of the original one. */
  ghost predicate Substituted(m: Functions, drops: seq<Expr>, neweqs: seq<Expr>, eq: Expr, r: Expr) {
    && IsEquation(eq) && IsEquation(r)
    && Same(m, drops, neweqs, eq.left, r.left, 0)
    && Same(m, drops, neweqs, eq.right, r.right, 0)
  }

  lemma SubstitutedHolds(m: Functions, drops: seq<Expr>, neweqs: seq<Expr>, eq: Expr, r: Expr, q: Path, t: int)
    requires Substituted(m, drops, neweqs, eq, r) && Good(m, drops, neweqs, q)
    ensures Holds(m, eq, q, t) <==> Holds(m, r, q, t)
    ensures Defined(m, eq, q, t) <==> Defined(m, r, q, t)
  {
    SameAt(m, drops, neweqs, eq.left, r.left, 0, q, t);
    SameAt(m, drops, neweqs, eq.right, r.right, 0, q, t);
  }

  ghost predicate AllSubstituted(m: Functions, drops: seq<Expr>, neweqs: seq<Expr>, eqs: seq<Expr>, subs: seq<Expr>)
    requires |eqs| >= |subs|
  {
    forall i :: 0 <= i < |subs| ==> Substituted(m, drops, neweqs, eqs[i], subs[i])
  }

  /** A good path solves the original equations exactly when it solves the transformed ones. */
  lemma GoodSolves(w: Pass, tb: Table, subs: seq<Expr>, q: Path)
    requires |subs| == |w.roots| && AllSubstituted(w.c.m, tb.drops, tb.neweqs, w.roots, subs)
    requires Good(w.c.m, tb.drops, tb.neweqs, q)
    ensures Solves(w.c.m, w.roots, q) <==> Solves(w.c.m, subs + tb.neweqs, q)
  {
    var out := subs + tb.neweqs;
    if Solves(w.c.m, w.roots, q) {
      forall i, t | 0 <= i < |out| ensures Holds(w.c.m, out[i], q, t) {
        if i < |subs| {
          SolvesAt(w.c.m, w.roots, q, i, t);
          SubstitutedHolds(w.c.m, tb.drops, tb.neweqs, w.roots[i], subs[i], q, t);
        } else {
          SolvesAt(w.c.m, tb.neweqs, q, i - |subs|, t);
        }
      }
    }
    if Solves(w.c.m, out, q) {
      forall i, t | 0 <= i < |w.roots| ensures Holds(w.c.m, w.roots[i], q, t) {
        SolvesAt(w.c.m, out, q, i, t);
        SubstitutedHolds(w.c.m, tb.drops, tb.neweqs, w.roots[i], subs[i], q, t);
      }
    }
  }

  lemma SolvesNew(m: Functions, subs: seq<Expr>, neweqs: seq<Expr>, q: Path)
    requires Solves(m, subs + neweqs, q)
    ensures Solves(m, neweqs, q)
  {
    forall i, t | 0 <= i < |neweqs| ensures Holds(m, neweqs[i], q, t) {
      SolvesAt(m, subs + neweqs, q, |subs| + i, t);
    }
  }

  /** Where the roots are defined and the transformed equations hold, nothing undefined was dropped. */
  lemma DropsDefined(w: Pass, tb: Table, subs: seq<Expr>, p: Path, q: Path)
    requires TableOk(w, tb) && DefinedAlong(w.c.m, w.roots, p)
    requires Extends(p, q, w.base) && Solves(w.c.m, subs + tb.neweqs, q)
    ensures DefinedAlong(w.c.m, tb.drops, q)
  {
    SolvesNew(w.c.m, subs, tb.neweqs, q);
    forall i, t | 0 <= i < |w.roots| ensures Defined(w.c.m, w.roots[i], q, t) {
      assert Defined(w.c.m, w.roots[i], p, t);
      DefinedBelow(w.c.m, w.roots[i], w.base, p, q, t);
    }
  }

  lemma SolvesBelow(w: Pass, p: Path, q: Path)
    requires Extends(p, q, w.base) && forall i :: 0 <= i < |w.roots| ==> Below(w.roots[i], w.base)
    ensures Solves(w.c.m, w.roots, p) <==> Solves(w.c.m, w.roots, q)
  {
    forall i, t | 0 <= i < |w.roots| ensures Holds(w.c.m, w.roots[i], p, t) <==> Holds(w.c.m, w.roots[i], q, t) {
      DefinedBelow(w.c.m, w.roots[i], w.base, p, q, t);
    }
  }

  /** The value of an auxiliary symbol is forced by the values of the original symbols. */
  lemma AuxiliaryForced(w: Pass, tb: Table, p: Path, q: Path, id: nat, t: int)
    requires TableOk(w, tb) && Extends(p, q, w.base) && w.base <= id < tb.next
    requires Good(w.c.m, tb.drops, tb.neweqs, q)
    ensures Value(w.c.m, tb.aux[Aux(id)], p, t - w.step) == Some(q(Aux(id), t))
  {
    assert SymbolOk(w, tb, Aux(id));
    var key := tb.aux[Aux(id)];
    assert EntryOk(w, tb, key);
    SameAt(w.c.m, tb.drops, tb.neweqs, key, Var(Aux(id), w.step), 0, q, t - w.step);
    assert DateOf(Aux(id), w.step, t - w.step) == t;
    ValueBelow(w.c.m, key, w.base, p, q, t - w.step);
  }

  /** A good path that defines the roots defines the transformed equations. */
  lemma GoodDefined(w: Pass, tb: Table, subs: seq<Expr>, q: Path)
    requires |subs| == |w.roots| && AllSubstituted(w.c.m, tb.drops, tb.neweqs, w.roots, subs)
    requires Admitted(w, tb, q)
    ensures DefinedAlong(w.c.m, subs + tb.neweqs, q)
  {
    var out := subs + tb.neweqs;
    forall i, t | 0 <= i < |out| ensures Defined(w.c.m, out[i], q, t) {
      if i < |subs| {
        SubstitutedHolds(w.c.m, tb.drops, tb.neweqs, w.roots[i], subs[i], q, t);
      } else {
        SolvesAt(w.c.m, tb.neweqs, q, i - |subs|, t);
      }
    }
  }

  lemma SolvesDefined(m: Functions, eqs: seq<Expr>, p: Path)
    requires Solves(m, eqs, p)
    ensures DefinedAlong(m, eqs, p)
  {
    forall i, t | 0 <= i < |eqs| ensures Defined(m, eqs[i], p, t) {
      SolvesAt(m, eqs, p, i, t);
    }
  }

  /** One pass preserves meaning. */
  lemma PassPreserves(w: Pass, tb: Table, subs: seq<Expr>)
    requires TableOk(w, tb) && |subs| == |w.roots| && AllSubstituted(w.c.m, tb.drops, tb.neweqs, w.roots, subs)
    ensures Preserves(w.c.m, w.roots, subs + tb.neweqs, tb.drops, w.base, tb.next)
  {
    forall p: Path ensures EquivalentAt(w.c.m, w.roots, subs + tb.neweqs, tb.drops, w.base, tb.next, p) {
      PassEquivalent(w, tb, subs, p);
    }
    forall p: Path | DefinedAlong(w.c.m, w.roots, p)
      ensures HarmlessAt(w.c.m, subs + tb.neweqs, tb.drops, w.base, p)
    {
      PassHarmless(w, tb, subs, p);
    }
  }

  lemma PassHarmless(w: Pass, tb: Table, subs: seq<Expr>, p: Path)
    requires TableOk(w, tb) && |subs| == |w.roots| && AllSubstituted(w.c.m, tb.drops, tb.neweqs, w.roots, subs)
    requires DefinedAlong(w.c.m, w.roots, p)
    ensures HarmlessAt(w.c.m, subs + tb.neweqs, tb.drops, w.base, p)
  {
    var out := subs + tb.neweqs;
    forall q: Path | Extends(p, q, w.base) && Solves(w.c.m, out, q) ensures DefinedAlong(w.c.m, tb.drops, q) {
      DropsDefined(w, tb, subs, p, q);
    }
    var q0 := Extend(w.c.m, tb.aux, w.step, p);
    ExtendGood(w, tb, p);
    ExtendExtends(w, tb, p);
    GoodDefined(w, tb, subs, q0);
    assert ExtendsDefined(w.c.m, out, p, q0, w.base);
  }

  lemma ExtendExtends(w: Pass, tb: Table, p: Path)
    requires TableOk(w, tb)
    ensures Extends(p, Extend(w.c.m, tb.aux, w.step, p), w.base)
  {
    assert forall s :: s in tb.aux ==> SymbolOk(w, tb, s);
  }

  lemma PassEquivalent(w: Pass, tb: Table, subs: seq<Expr>, p: Path)
    requires TableOk(w, tb) && |subs| == |w.roots| && AllSubstituted(w.c.m, tb.drops, tb.neweqs, w.roots, subs)
    ensures EquivalentAt(w.c.m, w.roots, subs + tb.neweqs, tb.drops, w.base, tb.next, p)
  {
    var m, out := w.c.m, subs + tb.neweqs;
    if Solves(m, w.roots, p) {
      var q0 := Extend(m, tb.aux, w.step, p);
      SolvesDefined(m, w.roots, p);
      ExtendGood(w, tb, p);
      ExtendExtends(w, tb, p);
      SolvesBelow(w, p, q0);
      GoodSolves(w, tb, subs, q0);
      assert IsSolution(m, out, tb.drops, p, q0, w.base);
    }
    forall q: Path | IsSolution(m, out, tb.drops, p, q, w.base) ensures Solves(m, w.roots, p) {
      SolvesNew(m, subs, tb.neweqs, q);
      GoodSolves(w, tb, subs, q);
      SolvesBelow(w, p, q);
    }
    forall q1: Path, q2: Path
      | IsSolution(m, out, tb.drops, p, q1, w.base) && IsSolution(m, out, tb.drops, p, q2, w.base)
      ensures SameAuxiliaries(q1, q2, w.base, tb.next)
    {
      SolvesNew(m, subs, tb.neweqs, q1);
      SolvesNew(m, subs, tb.neweqs, q2);
      forall id: nat, t: int | w.base <= id < tb.next ensures q1(Aux(id), t) == q2(Aux(id), t) {
        AuxiliaryForced(w, tb, p, q1, id, t);
        AuxiliaryForced(w, tb, p, q2, id, t);
      }
    }
  }

  lemma SubstitutedMonotone(m: Functions, drops: seq<Expr>, neweqs: seq<Expr>, drops': seq<Expr>, neweqs': seq<Expr>,
                            eqs: seq<Expr>, subs: seq<Expr>)
    requires drops <= drops' && neweqs <= neweqs' && |eqs| >= |subs| && AllSubstituted(m, drops, neweqs, eqs, subs)
    ensures AllSubstituted(m, drops', neweqs', eqs, subs)
  {
    forall i | 0 <= i < |subs| ensures Substituted(m, drops', neweqs', eqs[i], subs[i]) {
      SameMonotone(m, drops, neweqs, drops', neweqs', eqs[i].left, subs[i].left, 0);
      SameMonotone(m, drops, neweqs, drops', neweqs', eqs[i].right, subs[i].right, 0);
    }
  }

  /** Each equation keeps its place and, side by side, its values; the definitions of the auxiliary variables follow. */
  ghost predicate InPlace(m: Functions, eqs: seq<Expr>, out: seq<Expr>, drops: seq<Expr>) {
    |eqs| <= |out| && AllSubstituted(m, drops, out[|eqs|..], eqs, out[..|eqs|])
  }

  lemma PartsInPlace(m: Functions, eqs: seq<Expr>, subs: seq<Expr>, neweqs: seq<Expr>, drops: seq<Expr>)
    requires |subs| == |eqs| && AllSubstituted(m, drops, neweqs, eqs, subs)
    ensures InPlace(m, eqs, subs + neweqs, drops)
  {
    assert (subs + neweqs)[..|eqs|] == subs && (subs + neweqs)[|eqs|..] == neweqs;
  }

  lemma SubstitutedNext(m: Functions, drops: seq<Expr>, neweqs: seq<Expr>, drops': seq<Expr>, neweqs': seq<Expr>,
                        eqs: seq<Expr>, subs: seq<Expr>, e: Expr)
    requires drops <= drops' && neweqs <= neweqs'
    requires |subs| < |eqs| && AllSubstituted(m, drops, neweqs, eqs, subs)
    requires Substituted(m, drops', neweqs', eqs[|subs|], e)
    ensures AllSubstituted(m, drops', neweqs', eqs, subs + [e])
  {
    SubstitutedMonotone(m, drops, neweqs, drops', neweqs', eqs, subs);
  }

  /** Both sides of an equation of the model are defined along the paths considered. */
  lemma SidesAccepted(m: Functions, eqs: seq<Expr>, i: nat)
    requires i < |eqs| && IsEquation(eqs[i])
    ensures Covers(m, eqs, eqs[i].left) && Covers(m, eqs, eqs[i].right)
  {
    forall p: Path, t: int | DefinedAlong(m, eqs, p)
      ensures HasValue(m, eqs[i].left, p, t) && HasValue(m, eqs[i].right, p, t)
    {
      assert Defined(m, eqs[i], p, t);
    }
  }

  lemma BelowAll(es: seq<Expr>, n: nat, n': nat)
    requires AreEquations(es, n) && n <= n'
    ensures AreEquations(es, n')
  {
    forall i | 0 <= i < |es| ensures Below(es[i], n') {
      BelowMonotone(es[i], n, n');
    }
  }

  lemma EquationsNext(subs: seq<Expr>, n: nat, n': nat, e: Expr)
    requires AreEquations(subs, n) && n <= n' && IsEquation(e) && Below(e, n')
    ensures AreEquations(subs + [e], n')
  {
    BelowAll(subs, n, n');
  }

  predicate AllDropped(drops: seq<Expr>) {
    forall i :: 0 <= i < |drops| ==> IsDropped(drops[i])
  }

  /** The equations from the n-th on only delay a variable. */
  predicate DelaysFrom(es: seq<Expr>, n: nat) {
    forall i :: n <= i < |es| ==> IsDelay(es[i])
  }

  /** The symbols from `first` on: the auxiliary ones. */
  function Auxiliaries(first: nat): Marks {
    Marks(first, false)
  }

  lemma SidesTame(deterministic: bool, eqs: seq<Expr>, i: nat, u: Marks)
    requires i < |eqs| && IsEquation(eqs[i]) && (deterministic || AllAffine(eqs, u))
    ensures deterministic || (Affine(eqs[i].left, u) && Affine(eqs[i].right, u))
  {
    if !deterministic {
      AffineArguments(Equal, eqs[i].left, eqs[i].right, u);
    }
  }

  /** One lead pass over a model. `drops` are the operations that constructors dropped on the way. In a stochastic model
      auxiliary variables stand affinely, with the marked ones of earlier passes; in a deterministic one they only delay
      variables. */
  method EliminateLeads(c: Tree, k: Kind, deterministic: bool, eqs: seq<Expr>, first: nat, ghost u: Marks)
    returns (r: Outcome<(seq<Expr>, nat)>, ghost drops: seq<Expr>)
    requires Laws(c.m) && (k == Endogenous || k == Exogenous) && AreEquations(eqs, first)
    requires forall i :: 0 <= i < |eqs| ==> LeadsReady(k, eqs[i])
    requires deterministic || AllAffine(eqs, u)
    ensures match r
            case Ok((out, next)) =>
              && first <= next && AreEquations(out, next) && AllReduced(k, out)
              && Preserves(c.m, eqs, out, drops, first, next) && InPlace(c.m, eqs, out, drops)
              && |out| == |eqs| + next - first
              && (if deterministic then DelaysFrom(out, |eqs|) else AllAffine(out, u))
            case Exit => Undefined(c.m, eqs)
    ensures AllDropped(drops)
  {
    assert AllAffine([], u) && AllSubstituted(c.m, [], [], eqs, []);
    hide Affine, AllAffine, Preserves, AllSubstituted, InPlace;
    var pass := new LeadLagPass(c, k, deterministic, eqs, first, 1, u);
    var subs := [];
    for i := 0 to |eqs|
      invariant fresh(pass) && pass.Valid() && pass.ReducedSoFar()
      invariant pass.c == c && pass.k == k && pass.w == Pass(c, eqs, first, 1)
      invariant pass.deterministic == deterministic && pass.u == u && (deterministic || AllAffine(subs, u))
      invariant |subs| == i && AllSubstituted(c.m, pass.drops, pass.neweqs, eqs, subs)
      invariant AreEquations(subs, pass.nextSymbol) && AllReduced(k, subs)
    {
      var left, right := eqs[i].left, eqs[i].right;
      SidesAccepted(c.m, eqs, i);
      SidesTame(deterministic, eqs, i, u);
      ghost var before, dropped, symbols := pass.neweqs, pass.drops, pass.nextSymbol;
      var both := pass.SubstituteBoth(left, right);
      if both.Exit? {
        return Exit, [];
      }
      SubstitutedNext(c.m, dropped, before, pass.drops, pass.neweqs, eqs, subs, Bin(Equal, both.value.0, both.value.1));
      EquationsNext(subs, symbols, pass.nextSymbol, Bin(Equal, both.value.0, both.value.1));
      AffineNext(deterministic, subs, both.value.0, both.value.1, u);
      ReducedNext(k, subs, both.value.0, both.value.1);
      subs := subs + [Bin(Equal, both.value.0, both.value.1)];
    }
    PassPreserves(pass.w, pass.Built(), subs);
    PartsInPlace(c.m, eqs, subs, pass.neweqs, pass.drops);
    AffineParts(deterministic, subs, pass.neweqs, u);
    return Ok((subs + pass.neweqs, pass.nextSymbol)), pass.drops;
  }

  lemma ReducedNext(k: Kind, subs: seq<Expr>, a: Expr, b: Expr)
    requires AllReduced(k, subs) && LeadsReduced(k, a) && LeadsReduced(k, b)
    ensures AllReduced(k, subs + [Bin(Equal, a, b)])
  {
  }

  lemma AffineNext(deterministic: bool, subs: seq<Expr>, a: Expr, b: Expr, u: Marks)
    requires deterministic || (AllAffine(subs, u) && Affine(a, u) && Affine(b, u))
    ensures deterministic || AllAffine(subs + [Bin(Equal, a, b)], u)
  {
    if !deterministic {
      assert Affine(Bin(Equal, a, b), u);
    }
  }

  lemma AffineParts(deterministic: bool, subs: seq<Expr>, neweqs: seq<Expr>, u: Marks)
    requires if deterministic then AllDelays(neweqs) else AllAffine(subs, u) && AllAffine(neweqs, u)
    ensures if deterministic then DelaysFrom(subs + neweqs, |subs|) else AllAffine(subs + neweqs, u)
  {
  }

  /** The substituted equation has no larger leads, is affine where the original one is, and a delay if that is one. */
  predicate KeepsShape(eq: Expr, e: Expr, u: Marks) {
    && LeadsBounded(e, MaxLead(Endogenous, eq), MaxLead(Exogenous, eq))
    && (Affine(eq, u) ==> Affine(e, u)) && (IsDelay(eq) ==> IsDelay(e))
  }

  /** Each substituted equation has reduced lags and keeps the shape of its original. */
  predicate LagShapes(k: Kind, eqs: seq<Expr>, subs: seq<Expr>, u: Marks) {
    && |subs| <= |eqs|
    && forall j :: 0 <= j < |subs| ==> LagsReduced(k, subs[j]) && KeepsShape(eqs[j], subs[j], u)
  }

  lemma LagShapesNext(k: Kind, eqs: seq<Expr>, subs: seq<Expr>, e: Expr, u: Marks)
    requires LagShapes(k, eqs, subs, u) && |subs| < |eqs| && LagsReduced(k, e) && KeepsShape(eqs[|subs|], e, u)
    ensures LagShapes(k, eqs, subs + [e], u)
  {
    hide KeepsShape, LagsReduced;
  }

  lemma NoLagsYet(m: Functions, k: Kind, eqs: seq<Expr>, u: Marks)
    ensures AllSubstituted(m, [], [], eqs, []) && LagShapes(k, eqs, [], u)
  {
  }

  lemma SidesKeepShape(eq: Expr, a: Expr, b: Expr, u: Marks)
    requires IsEquation(eq) && Keeps(eq.left, a, u) && Keeps(eq.right, b, u)
    requires LeadsBounded(Bin(Equal, a, b), MaxLead(Endogenous, eq), MaxLead(Exogenous, eq))
    ensures KeepsShape(eq, Bin(Equal, a, b), u)
  {
    if Affine(eq, u) {
      AffineArguments(Equal, eq.left, eq.right, u);
      assert Affine(Bin(Equal, a, b), u);
    }
  }

  lemma LagStep(m: Functions, drops: seq<Expr>, neweqs: seq<Expr>, drops': seq<Expr>, neweqs': seq<Expr>,
                eqs: seq<Expr>, subs: seq<Expr>, k: Kind, e: Expr, u: Marks)
    requires drops <= drops' && neweqs <= neweqs'
    requires |subs| < |eqs| && AllSubstituted(m, drops, neweqs, eqs, subs) && LagShapes(k, eqs, subs, u)
    requires Substituted(m, drops', neweqs', eqs[|subs|], e) && LagsReduced(k, e) && KeepsShape(eqs[|subs|], e, u)
    ensures AllSubstituted(m, drops', neweqs', eqs, subs + [e]) && LagShapes(k, eqs, subs + [e], u)
  {
    SubstitutedNext(m, drops, neweqs, drops', neweqs', eqs, subs, e);
    LagShapesNext(k, eqs, subs, e, u);
  }

  lemma LagShapesKept(k: Kind, eqs: seq<Expr>, subs: seq<Expr>, neweqs: seq<Expr>, u: Marks)
    requires LagShapes(k, eqs, subs, u) && |subs| == |eqs| && AllLagsReduced(k, neweqs)
    ensures forall i :: 0 <= i < |subs + neweqs| ==> LagsReduced(k, (subs + neweqs)[i])
    ensures AllReduced(Exogenous, eqs) ==> AllReduced(Exogenous, subs + neweqs)
    ensures AllReduced(Endogenous, eqs) ==> AllReduced(Endogenous, subs + neweqs)
  {
    hide Affine, IsDelay;
  }

  /** Delays are affine. */
  lemma AffineKept(k: Kind, eqs: seq<Expr>, subs: seq<Expr>, neweqs: seq<Expr>, u: Marks)
    requires LagShapes(k, eqs, subs, u) && |subs| == |eqs| && AllDelays(neweqs)
    ensures AllAffine(eqs, u) ==> AllAffine(subs + neweqs, u)
    ensures forall n: nat :: n <= |eqs| && DelaysFrom(eqs, n) ==> DelaysFrom(subs + neweqs, n)
  {
    forall i | 0 <= i < |neweqs| ensures Affine(neweqs[i], u) {
      assert IsDelay(neweqs[i]);
      assert Affine(neweqs[i].left, u) && Affine(neweqs[i].right, u);
    }
    hide Affine, IsDelay, LagsReduced, LeadsBounded;
  }

  /** One lag pass over a model without leads to eliminate. Its auxiliary variables only delay variables, and marked leads
      stay affine. */
  method EliminateLags(c: Tree, k: Kind, eqs: seq<Expr>, first: nat, ghost u: Marks)
    returns (r: Outcome<(seq<Expr>, nat)>, ghost drops: seq<Expr>)
    requires Laws(c.m) && (k == Endogenous || k == Exogenous) && AreEquations(eqs, first)
    requires forall i :: 0 <= i < |eqs| ==> LagsReady(k, eqs[i])
    requires u.leads
    ensures match r
            case Ok((out, next)) =>
              && |out| == |eqs| + next - first && InPlace(c.m, eqs, out, drops)
              && (AllAffine(eqs, u) ==> AllAffine(out, u))
              && (forall n: nat :: n <= |eqs| && DelaysFrom(eqs, n) ==> DelaysFrom(out, n))
              && first <= next && AreEquations(out, next) && Preserves(c.m, eqs, out, drops, first, next)
              && (forall i :: 0 <= i < |out| ==> LagsReduced(k, out[i]))
              && (AllReduced(Exogenous, eqs) ==> AllReduced(Exogenous, out))
              && (AllReduced(Endogenous, eqs) ==> AllReduced(Endogenous, out))
            case Exit => Undefined(c.m, eqs)
    ensures AllDropped(drops)
  {
    hide AllSubstituted, LagShapes, Preserves, AllAffine, Affine, DelaysFrom, Keeps, InPlace;
    NoLagsYet(c.m, k, eqs, u);
    var pass := new LeadLagPass(c, k, false, eqs, first, -1, u);
    var subs := [];
    for i := 0 to |eqs|
      invariant fresh(pass) && pass.Valid() && pass.LagsReducedSoFar()
      invariant pass.c == c && pass.k == k && pass.w == Pass(c, eqs, first, -1) && pass.u == u
      invariant |subs| == i && AllSubstituted(c.m, pass.drops, pass.neweqs, eqs, subs)
      invariant AreEquations(subs, pass.nextSymbol)
      invariant LagShapes(k, eqs, subs, u)
    {
      var left, right := eqs[i].left, eqs[i].right;
      SidesAccepted(c.m, eqs, i);
      ghost var before, dropped, symbols := pass.neweqs, pass.drops, pass.nextSymbol;
      var both := pass.SubstituteLags(left, right);
      if both.Exit? {
        return Exit, [];
      }
      SidesKeepShape(eqs[i], both.value.0, both.value.1, u);
      LagStep(c.m, dropped, before, pass.drops, pass.neweqs, eqs, subs, k, Bin(Equal, both.value.0, both.value.1), u);
      EquationsNext(subs, symbols, pass.nextSymbol, Bin(Equal, both.value.0, both.value.1));
      subs := subs + [Bin(Equal, both.value.0, both.value.1)];
    }
    PassPreserves(pass.w, pass.Built(), subs);
    PartsInPlace(c.m, eqs, subs, pass.neweqs, pass.drops);
    LagShapesKept(k, eqs, subs, pass.neweqs, u);
    AffineKept(k, eqs, subs, pass.neweqs, u);
    return Ok((subs + pass.neweqs, pass.nextSymbol)), pass.drops;
  }

  /** The kinds and directions eliminated, in the order of the passes. */
  ghost predicate StochasticShape(e: Expr) {
    && MaxLead(Endogenous, e) <= 1 && MaxLag(Endogenous, e) <= 1
    && MaxLead(Exogenous, e) == 0 && MaxLag(Exogenous, e) == 0
  }

  /** The stages of a transformation: stage i is the equations `stages[i]` with symbols below `bounds[i]`, and pass i, to the
      next stage, dropped the operations `drops[i]`. */
  datatype Chain = Chain(stages: seq<seq<Expr>>, bounds: seq<nat>, drops: seq<seq<Expr>>) {
    function Tail(): Chain
      requires |stages| > 0 && |bounds| > 0 && |drops| > 0
    {
      Chain(stages[1..], bounds[1..], drops[1..])
    }

    function Next(out: seq<Expr>, next: nat, dropped: seq<Expr>): Chain {
      Chain(stages + [out], bounds + [next], drops + [dropped])
    }

    /** The stage so far: its equations and the next free symbol. */
    predicate EndsWith(out: seq<Expr>, next: nat)
      requires |stages| == |bounds| == |drops| + 1
    {
      out == stages[|drops|] && next == bounds[|drops|]
    }
  }

  /** Each stage comes from the previous one by a pass that preserves meaning. */
  ghost predicate Chained(m: Functions, h: Chain) {
    && |h.stages| == |h.bounds| == |h.drops| + 1
    && (forall i :: 0 <= i < |h.stages| ==> AreEquations(h.stages[i], h.bounds[i]))
    && (forall i :: 0 <= i < |h.drops| ==> Linked(m, h, i))
  }

  ghost predicate Linked(m: Functions, h: Chain, i: nat)
    requires i < |h.drops| && |h.stages| == |h.bounds| == |h.drops| + 1
  {
    && h.bounds[i] <= h.bounds[i + 1] && AllDropped(h.drops[i])
    && InPlace(m, h.stages[i], h.stages[i + 1], h.drops[i])
    && Preserves(m, h.stages[i], h.stages[i + 1], h.drops[i], h.bounds[i], h.bounds[i + 1])
  }

  lemma ChainNext(m: Functions, h: Chain, out: seq<Expr>, next: nat, dropped: seq<Expr>)
    requires Chained(m, h) && h.bounds[|h.drops|] <= next && AreEquations(out, next)
    requires Preserves(m, h.stages[|h.drops|], out, dropped, h.bounds[|h.drops|], next) && AllDropped(dropped)
    requires InPlace(m, h.stages[|h.drops|], out, dropped)
    ensures Chained(m, h.Next(out, next, dropped))
  {
    hide Preserves, InPlace, AreEquations, AllDropped;
    forall i | 0 <= i < |h.drops + [dropped]| ensures Linked(m, h.Next(out, next, dropped), i) {
      assert i < |h.drops| ==> Linked(m, h, i);
    }
  }

  lemma ChainTail(m: Functions, h: Chain)
    requires Chained(m, h) && |h.drops| > 0
    ensures Chained(m, h.Tail())
    ensures h.bounds[0] <= h.bounds[1] && Preserves(m, h.stages[0], h.stages[1], h.drops[0], h.bounds[0], h.bounds[1])
  {
    hide Preserves, InPlace, AreEquations, AllDropped;
    assert Linked(m, h, 0);
    forall i | 0 <= i < |h.drops[1..]| ensures Linked(m, h.Tail(), i) {
      assert Linked(m, h, i + 1);
    }
  }

  /** All that the passes dropped. */
  function Flat(drops: seq<seq<Expr>>): seq<Expr> {
    if drops == [] then [] else drops[0] + Flat(drops[1..])
  }

  ghost predicate SolvesAll(m: Functions, stages: seq<seq<Expr>>, q: Path) {
    forall j :: 0 <= j < |stages| ==> Solves(m, stages[j], q)
  }

  lemma SolvesTail(m: Functions, stages: seq<seq<Expr>>, q: Path)
    requires |stages| > 0
    ensures SolvesAll(m, stages, q) <==> Solves(m, stages[0], q) && SolvesAll(m, stages[1..], q)
  {
    if SolvesAll(m, stages, q) {
      forall j | 0 <= j < |stages[1..]| ensures Solves(m, stages[1..][j], q) {
        assert stages[1..][j] == stages[j + 1];
      }
    }
    if Solves(m, stages[0], q) && SolvesAll(m, stages[1..], q) {
      forall j | 0 <= j < |stages| ensures Solves(m, stages[j], q) {
        assert j > 0 ==> stages[j] == stages[1..][j - 1];
      }
    }
  }

  lemma SolvesExtended(m: Functions, eqs: seq<Expr>, n: nat, p: Path, q: Path)
    requires AreEquations(eqs, n) && Extends(p, q, n)
    ensures Solves(m, eqs, p) <==> Solves(m, eqs, q)
  {
    forall i, t | 0 <= i < |eqs| ensures Holds(m, eqs[i], p, t) <==> Holds(m, eqs[i], q, t) {
      DefinedBelow(m, eqs[i], n, p, q, t);
    }
  }

  /** A solution of the final equations solves all stages, the model among them, if and only if it defines all that the
      passes dropped; so every one does if they dropped nothing. */
  lemma {:induction false} ChainBackward(m: Functions, h: Chain, q: Path)
    requires Chained(m, h) && Solves(m, h.stages[|h.drops|], q)
    ensures SolvesAll(m, h.stages, q) <==> DefinedAlong(m, Flat(h.drops), q)
    ensures Flat(h.drops) == [] ==> SolvesAll(m, h.stages, q)
    decreases |h.drops|
  {
    if |h.drops| > 0 {
      ChainTail(m, h);
      ChainBackward(m, h.Tail(), q);
      SolvesTail(m, h.stages, q);
      DefinedParts(m, h.drops[0], Flat(h.drops[1..]), q);
      if SolvesAll(m, h.stages[1..], q) {
        assert Solves(m, h.stages[1..][0], q);
        BackwardStep(m, h.stages[0], h.stages[1], h.drops[0], h.bounds[0], h.bounds[1], q);
      }
    }
  }

  lemma BackwardStep(m: Functions, eqs: seq<Expr>, out: seq<Expr>, drops: seq<Expr>, base: nat, next: nat, q: Path)
    requires Preserves(m, eqs, out, drops, base, next) && Solves(m, out, q)
    ensures Solves(m, eqs, q) <==> DefinedAlong(m, drops, q)
  {
    assert EquivalentAt(m, eqs, out, drops, base, next, q);
    if DefinedAlong(m, drops, q) {
      assert IsSolution(m, out, drops, q, q, base);
    }
    if Solves(m, eqs, q) {
      SolvesDefined(m, eqs, q);
      assert HarmlessAt(m, out, drops, base, q);
    }
  }

  /** Every solution of the model extends, through all passes, to a solution of the equations of all stages. */
  lemma {:induction false} ChainForward(m: Functions, h: Chain, p: Path) returns (q: Path)
    requires Chained(m, h) && Solves(m, h.stages[0], p)
    ensures Extends(p, q, h.bounds[0]) && SolvesAll(m, h.stages, q)
    decreases |h.drops|
  {
    if |h.drops| == 0 {
      q := p;
    } else {
      ChainTail(m, h);
      assert EquivalentAt(m, h.stages[0], h.stages[1], h.drops[0], h.bounds[0], h.bounds[1], p);
      var q1: Path :| IsSolution(m, h.stages[1], h.drops[0], p, q1, h.bounds[0]);
      q := ChainForward(m, h.Tail(), q1);
      SolvesExtended(m, h.stages[0], h.bounds[0], p, q);
      SolvesTail(m, h.stages, q);
    }
  }

  /** Every path that defines the model extends to one that defines the final equations. */
  lemma {:induction false} ChainDefined(m: Functions, h: Chain, p: Path) returns (q: Path)
    requires Chained(m, h) && DefinedAlong(m, h.stages[0], p)
    ensures DefinedAlong(m, h.stages[|h.drops|], q)
    decreases |h.drops|
  {
    if |h.drops| == 0 {
      q := p;
    } else {
      ChainTail(m, h);
      assert HarmlessAt(m, h.stages[1], h.drops[0], h.bounds[0], p);
      var q1: Path :| ExtendsDefined(m, h.stages[1], p, q1, h.bounds[0]);
      q := ChainDefined(m, h.Tail(), q1);
    }
  }

  /** All auxiliary symbols, of all passes, are determined by the other symbols. */
  lemma {:induction false} ChainUnique(m: Functions, h: Chain, q1: Path, q2: Path)
    requires Chained(m, h) && SolvesAll(m, h.stages, q1) && SolvesAll(m, h.stages, q2)
    requires Extends(q1, q2, h.bounds[0])
    ensures Extends(q1, q2, h.bounds[|h.drops|])
    decreases |h.drops|
  {
    if |h.drops| > 0 {
      ChainTail(m, h);
      SolvesTail(m, h.stages, q1);
      SolvesTail(m, h.stages, q2);
      assert h.stages[1..][0] == h.stages[1];
      BackwardStep(m, h.stages[0], h.stages[1], h.drops[0], h.bounds[0], h.bounds[1], q1);
      BackwardStep(m, h.stages[0], h.stages[1], h.drops[0], h.bounds[0], h.bounds[1], q2);
      UniqueStep(m, h.stages[0], h.stages[1], h.drops[0], h.bounds[0], h.bounds[1], q1, q2);
      ChainUnique(m, h.Tail(), q1, q2);
    }
  }

  lemma UniqueStep(m: Functions, eqs: seq<Expr>, out: seq<Expr>, drops: seq<Expr>, base: nat, next: nat,
                   q1: Path, q2: Path)
    requires Equivalent(m, eqs, out, drops, base, next) && Extends(q1, q2, base)
    requires Solves(m, out, q1) && DefinedAlong(m, drops, q1) && Solves(m, out, q2) && DefinedAlong(m, drops, q2)
    ensures Extends(q1, q2, next)
  {
    assert EquivalentAt(m, eqs, out, drops, base, next, q1);
    assert IsSolution(m, out, drops, q1, q1, base) && IsSolution(m, out, drops, q1, q2, base);
    forall s: Symbol, t: int | s.kind != Endogenous || s.id < next ensures q1(s, t) == q2(s, t) {
      assert s.kind == Endogenous ==> s == Aux(s.id);
    }
  }

  /** From the model to the final equations, along every path: it solves the model if and only if it extends to a solution of
      the final equations that defines what was dropped, and the extension is unique. */
  lemma ChainEquivalent(m: Functions, h: Chain)
    requires Chained(m, h)
    ensures Equivalent(m, h.stages[0], h.stages[|h.drops|], Flat(h.drops), h.bounds[0], h.bounds[|h.drops|])
  {
    hide Preserves;
    var eqs, out, base, all := h.stages[0], h.stages[|h.drops|], h.bounds[0], Flat(h.drops);
    forall p: Path ensures EquivalentAt(m, eqs, out, all, base, h.bounds[|h.drops|], p) {
      if Solves(m, eqs, p) {
        var q := ChainForward(m, h, p);
        ChainBackward(m, h, q);
        assert IsSolution(m, out, all, p, q, base);
      }
      forall q: Path | IsSolution(m, out, all, p, q, base) ensures SolvesAll(m, h.stages, q) && Solves(m, eqs, p) {
        ChainBackward(m, h, q);
        SolvesExtended(m, eqs, base, p, q);
      }
      forall q1: Path, q2: Path | IsSolution(m, out, all, p, q1, base) && IsSolution(m, out, all, p, q2, base)
        ensures SameAuxiliaries(q1, q2, base, h.bounds[|h.drops|])
      {
        assert Extends(q1, q2, base);
        ChainUnique(m, h, q1, q2);
      }
    }
  }

  lemma ChainUndefined(m: Functions, h: Chain)
    requires Chained(m, h) && Undefined(m, h.stages[|h.drops|])
    ensures Undefined(m, h.stages[0])
  {
    forall p: Path ensures !DefinedAlong(m, h.stages[0], p) {
      if DefinedAlong(m, h.stages[0], p) {
        var q := ChainDefined(m, h, p);
      }
    }
  }

  /** What the passes dropped was dropped by a constructor. */
  lemma {:induction false} FlatDropped(m: Functions, h: Chain)
    requires Chained(m, h)
    ensures AllDropped(Flat(h.drops))
    decreases |h.drops|
  {
    if |h.drops| > 0 {
      assert Linked(m, h, 0);
      ChainTail(m, h);
      FlatDropped(m, h.Tail());
    }
  }

  /** The first two passes of a stochastic model: endogenous leads, then exogenous leads. */
  method EliminateAllLeads(c: Tree, eqs: seq<Expr>, first: nat) returns (r: Outcome<(seq<Expr>, nat)>, ghost h: Chain)
    requires Laws(c.m) && AreEquations(eqs, first)
    ensures Chained(c.m, h) && h.stages[0] == eqs && h.bounds[0] == first
    ensures match r
            case Ok((out, next)) => h.EndsWith(out, next)
            case Exit => Undefined(c.m, h.stages[|h.drops|])
    ensures r.Ok? ==> AreEquations(r.value.0, r.value.1) && AllReduced(Exogenous, r.value.0)
    ensures r.Ok? ==> |r.value.0| == |eqs| + r.value.1 - first && AllAffine(r.value.0, Auxiliaries(first))
  {
    hide Preserves, InPlace, AreEquations, AllReduced, AllDropped, AllAffine;
    ghost var dropped;
    h := Chain([eqs], [first], []);
    NoAuxiliaries(eqs, first);
    r, dropped := EliminateLeads(c, Endogenous, false, eqs, first, Auxiliaries(first));
    if r.Exit? {
      return;
    }
    var (out, next) := r.value;
    ReducedReady(out);
    ChainNext(c.m, h, out, next, dropped);
    h := h.Next(out, next, dropped);
    r, dropped := EliminateLeads(c, Exogenous, false, out, next, Auxiliaries(first));
    if r.Ok? {
      ChainNext(c.m, h, r.value.0, r.value.1, dropped);
      h := h.Next(r.value.0, r.value.1, dropped);
    }
  }

  /** In the model itself nothing is marked. */
  lemma NoAuxiliaries(eqs: seq<Expr>, first: nat)
    requires AreEquations(eqs, first)
    ensures AllAffine(eqs, Auxiliaries(first))
  {
    forall i | 0 <= i < |eqs| ensures Affine(eqs[i], Auxiliaries(first)) {
      BelowFree(eqs[i], Auxiliaries(first));
    }
  }

  lemma AllAffineAtLeads(es: seq<Expr>, first: nat)
    requires AllAffine(es, Auxiliaries(first))
    ensures AllAffine(es, Marks(first, true))
  {
    forall i | 0 <= i < |es| ensures Affine(es[i], Marks(first, true)) {
      AffineAtLeads(es[i], first);
    }
  }

  lemma ReducedReady(out: seq<Expr>)
    requires AllReduced(Endogenous, out)
    ensures forall i :: 0 <= i < |out| ==> LeadsReady(Exogenous, out[i])
  {
  }

  /** The last two passes of a stochastic model: endogenous lags, then exogenous lags. */
  method EliminateAllLags(c: Tree, eqs: seq<Expr>, first: nat, ghost before: Chain, ghost u: Marks)
    returns (r: Outcome<(seq<Expr>, nat)>, ghost h: Chain)
    requires Laws(c.m) && AreEquations(eqs, first) && AllReduced(Exogenous, eqs)
    requires Chained(c.m, before) && before.EndsWith(eqs, first) && AllAffine(eqs, u) && u.leads
    ensures Chained(c.m, h) && h.stages[0] == before.stages[0] && h.bounds[0] == before.bounds[0]
    ensures match r
            case Ok((out, next)) => h.EndsWith(out, next)
            case Exit => Undefined(c.m, h.stages[|h.drops|])
    ensures r.Ok? ==> AreEquations(r.value.0, r.value.1)
    ensures r.Ok? ==> |r.value.0| == |eqs| + r.value.1 - first && AllAffine(r.value.0, u)
    ensures r.Ok? ==> forall i :: 0 <= i < |r.value.0| ==> StochasticShape(r.value.0[i])
  {
    hide Preserves, InPlace, AreEquations, AllDropped, AllAffine, DelaysFrom;
    ghost var dropped;
    h := before;
    r, dropped := EliminateLags(c, Endogenous, eqs, first, u);
    if r.Exit? {
      return;
    }
    var (out, next) := r.value;
    ChainNext(c.m, h, out, next, dropped);
    h := h.Next(out, next, dropped);
    r, dropped := EliminateLags(c, Exogenous, out, next, u);
    if r.Ok? {
      ChainNext(c.m, h, r.value.0, r.value.1, dropped);
      h := h.Next(r.value.0, r.value.1, dropped);
    }
  }

  /** The passes of a stochastic model: endogenous leads, exogenous leads, endogenous lags, exogenous lags. One equation for
      each auxiliary variable is added, and the leads of auxiliary variables stand affinely. The program ends only on a model
      that no path defines. */
  method EliminateStochastic(c: Tree, eqs: seq<Expr>, first: nat) returns (r: Outcome<(seq<Expr>, nat)>, ghost h: Chain)
    requires Laws(c.m) && AreEquations(eqs, first)
    ensures Chained(c.m, h) && h.stages[0] == eqs && h.bounds[0] == first
    ensures r.Ok? ==> h.EndsWith(r.value.0, r.value.1) && AreEquations(r.value.0, r.value.1)
    ensures r.Ok? ==> Equivalent(c.m, eqs, r.value.0, Flat(h.drops), first, r.value.1) && AllDropped(Flat(h.drops))
    ensures r.Ok? ==> forall i :: 0 <= i < |r.value.0| ==> StochasticShape(r.value.0[i])
    ensures r.Ok? ==> |r.value.0| == |eqs| + r.value.1 - first && AllAffine(r.value.0, Marks(first, true))
    ensures r.Exit? ==> Undefined(c.m, eqs)
  {
    hide Preserves, InPlace, AreEquations, Equivalent, Undefined, AllDropped, Flat, AllAffine;
    r, h := EliminateAllLeads(c, eqs, first);
    if r.Ok? {
      AllAffineAtLeads(r.value.0, first);
      r, h := EliminateAllLags(c, r.value.0, r.value.1, h, Marks(first, true));
    }
    Conclude(c.m, h);
  }

  lemma Conclude(m: Functions, h: Chain)
    requires Chained(m, h)
    ensures Equivalent(m, h.stages[0], h.stages[|h.drops|], Flat(h.drops), h.bounds[0], h.bounds[|h.drops|])
    ensures AllDropped(Flat(h.drops))
    ensures Undefined(m, h.stages[|h.drops|]) ==> Undefined(m, h.stages[0])
  {
    ChainEquivalent(m, h);
    FlatDropped(m, h);
    if Undefined(m, h.stages[|h.drops|]) {
      ChainUndefined(m, h);
    }
  }

  /** The passes of a deterministic model: endogenous leads, then endogenous lags. The equations added only delay
      variables. */
  method EliminateDeterministic(c: Tree, eqs: seq<Expr>, first: nat) returns (r: Outcome<(seq<Expr>, nat)>, ghost h: Chain)
    requires Laws(c.m) && AreEquations(eqs, first)
    ensures Chained(c.m, h) && h.stages[0] == eqs && h.bounds[0] == first
    ensures r.Ok? ==> h.EndsWith(r.value.0, r.value.1) && AreEquations(r.value.0, r.value.1)
    ensures r.Ok? ==> Equivalent(c.m, eqs, r.value.0, Flat(h.drops), first, r.value.1) && AllDropped(Flat(h.drops))
    ensures r.Ok? ==> forall i :: 0 <= i < |r.value.0| ==>
                        MaxLead(Endogenous, r.value.0[i]) <= 1 && MaxLag(Endogenous, r.value.0[i]) <= 1
    ensures r.Ok? ==> |r.value.0| == |eqs| + r.value.1 - first && DelaysFrom(r.value.0, |eqs|)
    ensures r.Exit? ==> Undefined(c.m, eqs)
  {
    hide Preserves, InPlace, AreEquations, Equivalent, Undefined, AllDropped, Flat, DelaysFrom, AllAffine;
    ghost var dropped;
    h := Chain([eqs], [first], []);
    r, dropped := EliminateLeads(c, Endogenous, true, eqs, first, Marks(first, true));
    if r.Ok? {
      var (out, next) := r.value;
      ChainNext(c.m, h, out, next, dropped);
      h := h.Next(out, next, dropped);
      r, dropped := EliminateLags(c, Endogenous, out, next, Marks(first, true));
      if r.Ok? {
        ChainNext(c.m, h, r.value.0, r.value.1, dropped);
        h := h.Next(r.value.0, r.value.1, dropped);
      }
    }
    Conclude(c.m, h);
  }
}
