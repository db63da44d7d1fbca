/** What normalization does outside the fragment where it is right, and the exact conditions under which it is still
    right there. */
module NormalizationLimits {
  import opened Results
  import opened Expressions
  import opened Constructors
  import opened Derivatives
  import opened DerivativeValues
  import opened Normalization

  /** Both equations hold, or neither. */
  predicate Agree(m: Functions, eq: Expr, r: Outcome<Normal>, p: Path, t: int) {
    Holds(m, eq, p, t) <==> r.Ok? && r.value.expr.Some? && Holds(m, r.value.expr.value, p, t)
  }

  /** The side of an equation that does not hold the variable. */
  predicate OtherSide(m: Functions, other: Expr, y: Symbol, p: Path, t: int, v: real) {
    Free(other, y) && Written(other) && Value(m, other, p, t) == Some(v)
  }

  predicate RootAt(m: Functions, v: real, u: real) {
    m.unary(Sqrt, v) == Some(u) <==> u >= 0.0 && v == u * u
  }

  /** sqrt(v) is the number u >= 0 with u^2 = v. */
  ghost predicate SquareRootLaw(m: Functions) {
    forall v, u :: RootAt(m, v, u)
  }

  lemma EquationHolds(m: Functions, with: Expr, other: Expr, left: bool, p: Path, t: int, v: real)
    requires Value(m, other, p, t) == Some(v)
    ensures Holds(m, EquationOf(with, other, left), p, t) <==> Hits(m, with, p, t, v)
  {
  }

  /** What a part around e turns into, in numbers: u is what applying the recorded operations to the other side gives. */
  lemma AgreeWhen(c: Tree, with: Expr, e: Expr, other: Expr, left: bool, y: Symbol, ops: seq<Undo>, more: seq<Undo>,
                  p: Path, t: int, v: real, rhs: Expr, u: Option<real>)
    requires Laws(c.m) && y.kind == Endogenous && Undoes(c.m, e, y, ops, p, t) && GoodList(c.m, ops, p, t)
    requires NormalizeEquation(c, with, y, []) == Ok(Normal(1, None, ops + more))
    requires RebuiltAs(c, other, y, rhs) && Applied(c, rhs, more, p, t, u) && Value(c.m, other, p, t) == Some(v)
    ensures var eq := EquationOf(with, other, left);
            Agree(c.m, eq, NormalizeEquation(c, eq, y, []), p, t)
            <==> (Hits(c.m, with, p, t, v) <==> u.Some? && Hits(c.m, e, p, t, u.value))
  {
    hide Laws, NormalizeEquation, Undoes, GoodList, Holds, Applied, RebuiltAs;
    ClosedMeaning(c, with, e, other, left, y, ops, more, p, t, rhs, u);
    EquationHolds(c.m, with, other, left, p, t, v);
  }

  /** The same for operations with regular operands: u is what undoing computes from v. */
  lemma AgreeGood(c: Tree, with: Expr, e: Expr, other: Expr, left: bool, y: Symbol, ops: seq<Undo>, more: seq<Undo>,
                  p: Path, t: int, v: real)
    requires Laws(c.m) && y.kind == Endogenous && Undoes(c.m, e, y, ops, p, t) && GoodList(c.m, ops, p, t)
    requires NormalizeEquation(c, with, y, []) == Ok(Normal(1, None, ops + more))
    requires GoodList(c.m, more, p, t) && OtherSide(c.m, other, y, p, t, v)
    ensures var eq, u := EquationOf(with, other, left), UndoAll(c.m, more, Some(v), p, t);
            Agree(c.m, eq, NormalizeEquation(c, eq, y, []), p, t)
            <==> (Hits(c.m, with, p, t, v) <==> u.Some? && Hits(c.m, e, p, t, u.value))
  {
    hide Laws, Undoes, GoodList, Holds, NormalizeEquation;
    FreeRebuilt(c, other, y, [], p, t);
    var rhs := NormalizeEquation(c, other, y, []).value.expr.value;
    ApplyExact(c, rhs, more, p, t);
    AgreeWhen(c, with, e, other, left, y, ops, more, p, t, v, rhs, UndoAll(c.m, more, Some(v), p, t));
  }

  /** sqrt(e) = v is turned into e = 2^v. The two hold together exactly where e has both values, the square of v >= 0 and
      2^v, or neither. */
  lemma SquareRootLost(c: Tree, e: Expr, other: Expr, left: bool, y: Symbol, p: Path, t: int, v: real)
    requires Laws(c.m) && InverseLaws(c.m) && SquareRootLaw(c.m) && y.kind == Endogenous
    requires Invertible(e, y) && Regular(c.m, e, y, p, t) && OtherSide(c.m, other, y, p, t, v)
    ensures var eq := EquationOf(Un(Sqrt, e), other, left);
            var a, w := Value(c.m, e, p, t), c.m.power(2.0, v);
            var square, power := v >= 0.0 && a == Some(v * v), w.Some? && a == w;
            Agree(c.m, eq, NormalizeEquation(c, eq, y, []), p, t) <==> square == power
  {
    hide Laws, InverseLaws, Regular, Invertible, NormalizeEquation, Undoes, GoodList, Agree, OtherSide;
    Collected(c, e, y, p, t);
    var ops := NormalizeEquation(c, e, y, []).value.ops;
    var last := Undo(Binary(Power), None, Some(Two));
    SquareRootPushed(c, e, y, ops);
    GoodOne(c.m, last, p, t);
    AgreeGood(c, Un(Sqrt, e), e, other, left, y, ops, [last], p, t, v);
    UndoOne(c.m, last, v, p, t);
    if Value(c.m, e, p, t).Some? {
      assert RootAt(c.m, Value(c.m, e, p, t).value, v);
    }
  }

  /** Solved for e, of value a: for v >= 0 exactly where a is neither v^2 nor 2^v, or the two are equal; for v < 0, where
      sqrt(e) = v has no solution, exactly where a is not 2^v. */
  lemma SquareRootSolved(c: Tree, e: Expr, other: Expr, left: bool, y: Symbol, p: Path, t: int, v: real, a: real, w: real)
    requires Laws(c.m) && InverseLaws(c.m) && SquareRootLaw(c.m) && y.kind == Endogenous
    requires Invertible(e, y) && Regular(c.m, e, y, p, t) && OtherSide(c.m, other, y, p, t, v)
    requires Value(c.m, e, p, t) == Some(a) && c.m.power(2.0, v) == Some(w)
    ensures var eq := EquationOf(Un(Sqrt, e), other, left);
            Agree(c.m, eq, NormalizeEquation(c, eq, y, []), p, t)
            <==> if v >= 0.0 then (a != v * v && a != w) || v * v == w else a != w
  {
    hide Laws, InverseLaws, Regular, Invertible, NormalizeEquation, Agree, OtherSide, SquareRootLaw;
    SquareRootLost(c, e, other, left, y, p, t, v);
  }

  lemma SquareRootPushed(c: Tree, e: Expr, y: Symbol, ops: seq<Undo>)
    requires NormalizeEquation(c, e, y, []) == Ok(Normal(1, None, ops))
    ensures NormalizeEquation(c, Un(Sqrt, e), y, [])
            == Ok(Normal(1, None, ops + [Undo(Binary(Power), None, Some(Two))]))
  {
  }

  predicate RootOfAt(m: Functions, k: real, a: real, b: real)
    requires k != 0.0
  {
    m.power(a, 1.0 / k) == Some(b) <==> b >= 0.0 && m.power(b, k) == Some(a)
  }

  /** v^(1/k) is the number u >= 0 with u^k = v; so it is for the integers k from 2 on. */
  ghost predicate RootLaw(m: Functions, k: real)
    requires k != 0.0
  {
    forall a, b :: RootOfAt(m, k, a, b)
  }

  /** e^f = v, with an f of value k, is turned into e = v^(1/f). The two hold together exactly where e has both properties,
      e^k = v and e = v^(1/k), or neither. (Of 0^f = 0 the result holds also for k < 0, where 0^k is undefined.) */
  lemma BaseLost(c: Tree, e: Expr, f: Expr, other: Expr, left: bool, y: Symbol, p: Path, t: int, v: real, k: real)
    requires Laws(c.m) && InverseLaws(c.m) && y.kind == Endogenous
    requires Invertible(e, y) && Regular(c.m, e, y, p, t) && OtherSide(c.m, other, y, p, t, v)
    requires OtherSide(c.m, f, y, p, t, k) && k != 0.0 && (k > 0.0 || v != 0.0)
    ensures var eq := EquationOf(Bin(Power, e, f), other, left);
            var a := Value(c.m, e, p, t);
            var solution, kept := a.Some? && c.m.power(a.value, k) == Some(v), a.Some? && c.m.power(v, 1.0 / k) == a;
            Agree(c.m, eq, NormalizeEquation(c, eq, y, []), p, t) <==> solution == kept
  {
    hide Laws, InverseLaws, Regular, Invertible, NormalizeEquation, Undoes, GoodList, Agree, BinaryValue, Free, Written;
    Collected(c, e, y, p, t);
    FreeRebuilt(c, f, y, [], p, t);
    FreeRebuilt(c, other, y, [], p, t);
    var ops := NormalizeEquation(c, e, y, []).value.ops;
    var power, rhs := NormalizeEquation(c, f, y, []).value.expr.value, NormalizeEquation(c, other, y, []).value.expr.value;
    InverseExponent(c, power, p, t, k);
    var inverse := AddDivide(c, One, power).value;
    var last, u := Undo(Binary(Power), Some(inverse), None), c.m.power(v, 1.0 / k);
    BasePushed(c, e, f, y, ops, power);
    RootApplied(c, rhs, inverse, p, t, v, 1.0 / k);
    AgreeWhen(c, Bin(Power, e, f), e, other, left, y, ops, [last], p, t, v, rhs, u);
    PowerNode(c.m, e, f, p, t, k, v);
    hide Value, Applied;
  }

  lemma InverseExponent(c: Tree, power: Expr, p: Path, t: int, k: real)
    requires Value(c.m, power, p, t) == Some(k) && k != 0.0
    ensures AddDivide(c, One, power).Ok? && Value(c.m, AddDivide(c, One, power).value, p, t) == Some(1.0 / k)
  {
    AddOperatorValue(c, Divide, One, power, p, t);
    assert Value(c.m, Bin(Divide, One, power), p, t) == Some(1.0 / k);
  }

  /** The power by the inverse of the exponent, as it is built. */
  lemma RootApplied(c: Tree, rhs: Expr, inverse: Expr, p: Path, t: int, v: real, q: real)
    requires Laws(c.m) && Value(c.m, rhs, p, t) == Some(v) && Value(c.m, inverse, p, t) == Some(q)
    requires q != 0.0 && (q > 0.0 || v != 0.0)
    ensures Applied(c, rhs, [Undo(Binary(Power), Some(inverse), None)], p, t, c.m.power(v, q))
  {
    ApplyOne(c, rhs, Undo(Binary(Power), Some(inverse), None));
    AddOperatorValue(c, Power, rhs, inverse, p, t);
    assert Value(c.m, Bin(Power, rhs, inverse), p, t) == c.m.power(v, q);
    assert v == 1.0 ==> c.m.power(1.0, q) == Some(1.0);
    assert v == 0.0 ==> c.m.power(0.0, q) == Some(0.0);
  }

  /** Where v^(1/k) is the root u >= 0 of u^k = v: exactly where e is not negative or is no root of v; for an even k every
      negative root is lost. */
  lemma NegativeRootsLost(c: Tree, e: Expr, f: Expr, other: Expr, left: bool, y: Symbol, p: Path, t: int, v: real, k: real)
    requires Laws(c.m) && InverseLaws(c.m) && y.kind == Endogenous && k > 0.0 && RootLaw(c.m, k)
    requires Invertible(e, y) && Regular(c.m, e, y, p, t) && OtherSide(c.m, other, y, p, t, v)
    requires OtherSide(c.m, f, y, p, t, k)
    ensures var eq := EquationOf(Bin(Power, e, f), other, left);
            var a := Value(c.m, e, p, t);
            Agree(c.m, eq, NormalizeEquation(c, eq, y, []), p, t)
            <==> a.None? || a.value >= 0.0 || c.m.power(a.value, k) != Some(v)
  {
    hide Laws, InverseLaws, Regular, Invertible, NormalizeEquation, Agree, OtherSide, Value;
    BaseLost(c, e, f, other, left, y, p, t, v, k);
    if Value(c.m, e, p, t).Some? {
      assert RootOfAt(c.m, k, v, Value(c.m, e, p, t).value);
    }
  }

  lemma PowerNode(m: Functions, e: Expr, f: Expr, p: Path, t: int, k: real, v: real)
    requires Value(m, f, p, t) == Some(k)
    ensures var a := Value(m, e, p, t);
            Hits(m, Bin(Power, e, f), p, t, v) <==> a.Some? && m.power(a.value, k) == Some(v)
  {
    NodeValue(m, Power, e, f, p, t);
  }

  lemma SideHits(m: Functions, op: BinaryOp, inLeft: bool, e: Expr, z: Expr, p: Path, t: int, v: real, w: real)
    requires Value(m, z, p, t) == Some(w)
    ensures var a := Value(m, e, p, t);
            Hits(m, SideNode(op, inLeft, e, z), p, t, v) <==> a.Some? && SideValue(m, op, inLeft, a.value, w) == Some(v)
  {
    hide BinaryValue;
    NodeValue(m, op, e, z, p, t);
    NodeValue(m, op, z, e, p, t);
  }

  lemma FunctionHits(m: Functions, op: UnaryOp, e: Expr, p: Path, t: int, v: real)
    ensures var a := Value(m, e, p, t);
            Hits(m, Un(op, e), p, t, v) <==> a.Some? && UnaryValue(m, op, a.value) == Some(v)
  {
    hide UnaryValue;
  }

  lemma BasePushed(c: Tree, e: Expr, f: Expr, y: Symbol, ops: seq<Undo>, power: Expr)
    requires NormalizeEquation(c, e, y, []) == Ok(Normal(1, None, ops)) && RebuiltAs(c, f, y, power)
    requires AddDivide(c, One, power).Ok?
    ensures NormalizeEquation(c, Bin(Power, e, f), y, [])
            == Ok(Normal(1, None, ops + [Undo(Binary(Power), Some(AddDivide(c, One, power).value), None)]))
  {
    hide AddDivide;
  }

  /** The operators for which nothing is recorded although the variable is present. */
  predicate Unrecorded(op: BinaryOp) {
    op in {Max, Min, Less, Greater, LessEqual, GreaterEqual, EqualEqual, Different}
  }

  /** max, min and the comparisons of e with z, equal to v, are turned into e = v. The two hold together exactly where
      the operator returns e, or v is neither what it returns nor e. */
  lemma NothingUndone(c: Tree, op: BinaryOp, e: Expr, z: Expr, inLeft: bool, other: Expr, left: bool, y: Symbol,
                      p: Path, t: int, v: real, w: real)
    requires Laws(c.m) && InverseLaws(c.m) && y.kind == Endogenous && Unrecorded(op)
    requires Invertible(e, y) && Regular(c.m, e, y, p, t) && OtherSide(c.m, other, y, p, t, v)
    requires OtherSide(c.m, z, y, p, t, w)
    ensures var eq := EquationOf(SideNode(op, inLeft, e, z), other, left);
            var a := Value(c.m, e, p, t);
            Agree(c.m, eq, NormalizeEquation(c, eq, y, []), p, t)
            <==> a.None? || SideValue(c.m, op, inLeft, a.value, w) == a
                 || (SideValue(c.m, op, inLeft, a.value, w) != Some(v) && a != Some(v))
  {
    hide Laws, InverseLaws, Regular, Invertible, NormalizeEquation, Undoes, GoodList, Agree, BinaryValue;
    Collected(c, e, y, p, t);
    FreeRebuilt(c, z, y, [], p, t);
    var ops, with := NormalizeEquation(c, e, y, []).value.ops, SideNode(op, inLeft, e, z);
    NothingPushed(c, op, e, z, inLeft, y, ops);
    NothingBehind(ops);
    assert GoodList(c.m, [], p, t) by {
      GoodNone(c.m, p, t);
    }
    AgreeGood(c, with, e, other, left, y, ops, [], p, t, v);
    assert UndoAll(c.m, [], Some(v), p, t) == Some(v);
    SideHits(c.m, op, inLeft, e, z, p, t, v, w);
    var a := Value(c.m, e, p, t);
    hide Value, UndoAll, SideValue, SideNode;
    if a.Some? {
      AlwaysDefined(c.m, op, inLeft, a.value, w);
    }
  }

  /** For max: exactly where z is not above e, or v is neither of them. */
  lemma MaximumLost(c: Tree, e: Expr, z: Expr, other: Expr, left: bool, y: Symbol, p: Path, t: int, v: real, w: real,
                    a: real)
    requires Laws(c.m) && InverseLaws(c.m) && y.kind == Endogenous && Value(c.m, e, p, t) == Some(a)
    requires Invertible(e, y) && Regular(c.m, e, y, p, t) && OtherSide(c.m, other, y, p, t, v)
    requires OtherSide(c.m, z, y, p, t, w)
    ensures var eq := EquationOf(Bin(Max, e, z), other, left);
            Agree(c.m, eq, NormalizeEquation(c, eq, y, []), p, t) <==> w <= a || (v != a && v != w)
  {
    hide Laws, InverseLaws, Regular, Invertible, NormalizeEquation, Agree;
    NothingUndone(c, Max, e, z, true, other, left, y, p, t, v, w);
  }

  lemma AlwaysDefined(m: Functions, op: BinaryOp, inLeft: bool, a: real, w: real)
    requires Unrecorded(op)
    ensures SideValue(m, op, inLeft, a, w).Some?
  {
  }

  lemma NothingPushed(c: Tree, op: BinaryOp, e: Expr, z: Expr, inLeft: bool, y: Symbol, ops: seq<Undo>)
    requires Unrecorded(op) && NormalizeEquation(c, e, y, []) == Ok(Normal(1, None, ops))
    requires NormalizeEquation(c, z, y, []).Ok? && NormalizeEquation(c, z, y, []).value.flag == 0
    ensures NormalizeEquation(c, SideNode(op, inLeft, e, z), y, []) == Ok(Normal(1, None, ops + []))
  {
  }

  lemma NothingBehind(ops: seq<Undo>)
    ensures ops + [] == ops && [] + ops == ops
  {
  }

  /** A function of an expression e that cannot be normalized forgets why: of e only the part `inner` is remembered that had
      been collected before, and f(e) = v is turned into f(inner) = v. The two hold together exactly where e is inner, or
      neither f(e) nor f(inner) is v. */
  lemma SecondAppearanceForgotten(c: Tree, op: UnaryOp, e: Expr, inner: Expr, other: Expr, left: bool, y: Symbol,
                                  ops: seq<Undo>, p: Path, t: int, v: real)
    requires Laws(c.m) && InverseLaws(c.m) && y.kind == Endogenous && OtherSide(c.m, other, y, p, t, v)
    requires (op == Uminus || op == Exp || op == Log || op == Log10)
    requires NormalizeEquation(c, e, y, []) == Ok(Normal(2, None, ops))
    requires Undoes(c.m, inner, y, ops, p, t) && GoodList(c.m, ops, p, t)
    ensures var eq := EquationOf(Un(op, e), other, left);
            Agree(c.m, eq, NormalizeEquation(c, eq, y, []), p, t)
            <==> Value(c.m, e, p, t) == Value(c.m, inner, p, t)
                 || (!Hits(c.m, Un(op, e), p, t, v) && !Hits(c.m, Un(op, inner), p, t, v))
  {
    hide Laws, InverseLaws, NormalizeEquation, Undoes, GoodList, UnaryValue;
    var last, with := InverseOf(op).value, Un(op, e);
    ForgottenPushed(c, op, e, y, ops);
    InverseGood(c.m, op, y, p, t);
    GoodOne(c.m, last, p, t);
    AgreeGood(c, with, inner, other, left, y, ops, [last], p, t, v);
    FunctionHits(c.m, op, e, p, t, v);
    FunctionHits(c.m, op, inner, p, t, v);
    var a, b, u := Value(c.m, e, p, t), Value(c.m, inner, p, t), UndoAll(c.m, [last], Some(v), p, t);
    hide Value, UndoAll, InverseOf;
    if a.Some? {
      InverseFunction(c.m, op, a.value, v, p, t);
    }
    if b.Some? {
      InverseFunction(c.m, op, b.value, v, p, t);
    }
    assert u.Some? && Hits(c.m, inner, p, t, u.value) <==> u.Some? && b == u;
  }

  lemma GoodOne(m: Functions, last: Undo, p: Path, t: int)
    requires GoodUndo(m, last, p, t)
    ensures GoodList(m, [last], p, t)
  {
  }

  lemma GoodNone(m: Functions, p: Path, t: int)
    ensures GoodList(m, [], p, t)
  {
  }

  lemma ForgottenPushed(c: Tree, op: UnaryOp, e: Expr, y: Symbol, ops: seq<Undo>)
    requires (op == Uminus || op == Exp || op == Log || op == Log10)
    requires NormalizeEquation(c, e, y, []) == Ok(Normal(2, None, ops))
    ensures NormalizeEquation(c, Un(op, e), y, []) == Ok(Normal(1, None, ops + [InverseOf(op).value]))
  {
  }

  /** Below abs, sign and erf: what is remembered is the argument. */
  lemma ArgumentRemembered(c: Tree, op: UnaryOp, inner: Expr, y: Symbol, p: Path, t: int)
    requires Laws(c.m) && InverseLaws(c.m) && y.kind == Endogenous && (op == Abs || op == Sign || op == Erf)
    requires Invertible(inner, y) && Regular(c.m, inner, y, p, t)
    ensures var r := NormalizeEquation(c, Un(op, inner), y, []);
            && r.Ok? && r == Ok(Normal(2, None, r.value.ops))
            && Undoes(c.m, inner, y, r.value.ops, p, t) && GoodList(c.m, r.value.ops, p, t)
  {
    hide Laws, InverseLaws, Undoes, GoodList, Regular, Invertible;
    Collected(c, inner, y, p, t);
  }

  /** With the variable in both arguments of an operator: what is remembered is the variable itself. */
  lemma BothArguments(c: Tree, op: BinaryOp, l: Expr, r: Expr, y: Symbol, p: Path, t: int)
    requires NormalizeEquation(c, l, y, []).Ok? && NormalizeEquation(c, l, y, []).value.flag != 0
    requires NormalizeEquation(c, r, y, []).Ok? && NormalizeEquation(c, r, y, []).value.flag != 0
    requires y.kind == Endogenous
    ensures NormalizeEquation(c, Bin(op, l, r), y, []) == Ok(Normal(2, None, []))
    ensures Undoes(c.m, Var(y, 0), y, [], p, t) && GoodList(c.m, [], p, t)
  {
    CollectedVariable(c, y, p, t);
  }

  /** Below a trigonometric or hyperbolic function the inverse is recorded, but applying it ends the program. */
  lemma NotInvertedEnds(c: Tree, op: UnaryOp, e: Expr, other: Expr, left: bool, y: Symbol)
    requires op in {Cos, Sin, Tan, Acos, Asin, Atan, Cosh, Sinh, Tanh, Acosh, Asinh, Atanh}
    requires NormalizeEquation(c, e, y, []).Ok? && NormalizeEquation(c, e, y, []).value.flag != 0
    requires NormalizeEquation(c, other, y, []).Ok? && NormalizeEquation(c, other, y, []).value.flag == 0
    ensures NormalizeEquation(c, EquationOf(Un(op, e), other, left), y, []) == Exit
  {
    var rhs := NormalizeEquation(c, other, y, []).value.expr.value;
    NotApplied(c, rhs, op);
    var ops := NormalizeEquation(c, e, y, []).value.ops + [InverseOf(op).value];
    assert NormalizeEquation(c, Un(op, e), y, []) == Ok(Normal(1, None, ops));
    hide InverseOf, ComputeRHS;
    assert ApplyAll(c, rhs, ops) == Exit;
    NeverClosed(c, Un(op, e), other, left, y, ops);
  }

  lemma NeverClosed(c: Tree, with: Expr, other: Expr, left: bool, y: Symbol, ops: seq<Undo>)
    requires NormalizeEquation(c, with, y, []) == Ok(Normal(1, None, ops))
    requires NormalizeEquation(c, other, y, []).Ok? && NormalizeEquation(c, other, y, []).value.flag == 0
    requires ApplyAll(c, NormalizeEquation(c, other, y, []).value.expr.value, ops) == Exit
    ensures NormalizeEquation(c, EquationOf(with, other, left), y, []) == Exit
  {
    hide ApplyAll;
  }

  lemma NotApplied(c: Tree, a: Expr, op: UnaryOp)
    requires op in {Cos, Sin, Tan, Acos, Asin, Atan, Cosh, Sinh, Tanh, Acosh, Asinh, Atanh}
    ensures InverseOf(op).Some? && ComputeRHS(c, a, InverseOf(op).value) == Exit
  {
    hide AddFunction;
  }

  // ----- a variable in an exponent

  lemma ApplyOne(c: Tree, a: Expr, undo: Undo)
    ensures ApplyAll(c, a, [undo]) == ComputeRHS(c, a, undo)
  {
    assert [undo][..0] == [];
    hide ComputeRHS;
  }

  /** z^e = v, with a z of value b, is turned into e = log(log(z) / v): the logarithm and the quotient are undone in the wrong
      order. The two hold together exactly where e has both properties, b^e = v and exp(e) = log(b) / v, or neither.
      (Where log(b) and v are both 0 it depends on the nodes whether the quotient is built.) */
  lemma ExponentLost(c: Tree, z: Expr, e: Expr, other: Expr, left: bool, y: Symbol, p: Path, t: int, v: real, b: real)
    requires Laws(c.m) && InverseLaws(c.m) && y.kind == Endogenous
    requires Invertible(e, y) && Regular(c.m, e, y, p, t) && OtherSide(c.m, other, y, p, t, v)
    requires OtherSide(c.m, z, y, p, t, b) && (v != 0.0 || c.m.unary(Log, b) != Some(0.0))
    ensures var eq := EquationOf(Bin(Power, z, e), other, left);
            var a, l := Value(c.m, e, p, t), c.m.unary(Log, b);
            var solution := a.Some? && c.m.power(b, a.value) == Some(v);
            var kept := a.Some? && l.Some? && v != 0.0 && c.m.unary(Exp, a.value) == Some(l.value / v);
            Agree(c.m, eq, NormalizeEquation(c, eq, y, []), p, t) <==> solution == kept
  {
    hide Laws, InverseLaws, Regular, Invertible, NormalizeEquation, Undoes, GoodList, BinaryValue, Free, Written, AddFunction;
    Collected(c, e, y, p, t);
    FreeRebuilt(c, z, y, [], p, t);
    FreeRebuilt(c, other, y, [], p, t);
    var ops := NormalizeEquation(c, e, y, []).value.ops;
    var base, rhs := NormalizeEquation(c, z, y, []).value.expr.value, NormalizeEquation(c, other, y, []).value.expr.value;
    var with, log := Bin(Power, z, e), AddFunction(c, Log, base);
    LogarithmNode(c, base, p, t, b);
    ExponentPushed(c, z, e, y, ops, base);
    BaseNode(c.m, z, e, p, t, b, v);
    EquationHolds(c.m, with, other, left, p, t, v);
    if log.Exit? {
      NotClosed(c, with, other, left, y);
    } else {
      var u := Quotient(c.m, c.m.unary(Log, b), v);
      LogarithmApplied(c, rhs, log.value, p, t, v, c.m.unary(Log, b));
      AgreeWhen(c, with, e, other, left, y, ops, LogarithmUndone(log.value), p, t, v, rhs, LogarithmOf(c.m, u));
      if Value(c.m, e, p, t).Some? && u.Some? {
        InverseAt(c.m, Value(c.m, e, p, t).value, u.value);
      }
    }
  }

  function Quotient(m: Functions, l: Option<real>, v: real): Option<real> {
    if l.Some? && v != 0.0 then Some(l.value / v) else None
  }

  function LogarithmOf(m: Functions, u: Option<real>): Option<real> {
    if u.Some? then m.unary(Log, u.value) else None
  }

  /** What is recorded for an exponent. */
  function LogarithmUndone(log: Expr): seq<Undo> {
    [UndoOnly(Unary(Log)), Undo(Binary(Divide), None, Some(log))]
  }

  lemma InverseAt(m: Functions, a: real, u: real)
    requires InverseLaws(m)
    ensures m.unary(Exp, a) == Some(u) <==> m.unary(Log, u) == Some(a)
  {
    assert Inverse(m, Exp, Log, a, u);
  }

  lemma LogarithmNode(c: Tree, base: Expr, p: Path, t: int, b: real)
    requires Laws(c.m) && Value(c.m, base, p, t) == Some(b)
    ensures match AddFunction(c, Log, base)
            case Ok(r) => Value(c.m, r, p, t) == c.m.unary(Log, b)
            case Exit => c.m.unary(Log, b) == None
  {
    AddFunctionValue(c, Log, base, p, t);
  }

  lemma BaseNode(m: Functions, z: Expr, e: Expr, p: Path, t: int, b: real, v: real)
    requires Value(m, z, p, t) == Some(b)
    ensures var a := Value(m, e, p, t);
            Hits(m, Bin(Power, z, e), p, t, v) <==> a.Some? && m.power(b, a.value) == Some(v)
  {
    NodeValue(m, Power, z, e, p, t);
  }

  lemma ExponentPushed(c: Tree, z: Expr, e: Expr, y: Symbol, ops: seq<Undo>, base: Expr)
    requires NormalizeEquation(c, e, y, []) == Ok(Normal(1, None, ops)) && RebuiltAs(c, z, y, base)
    ensures NormalizeEquation(c, Bin(Power, z, e), y, [])
            == match AddFunction(c, Log, base)
               case Ok(log) => Ok(Normal(1, None, ops + LogarithmUndone(log)))
               case Exit => Exit
  {
    hide AddFunction;
  }

  lemma NotClosed(c: Tree, with: Expr, other: Expr, left: bool, y: Symbol)
    requires NormalizeEquation(c, with, y, []) == Exit
    ensures NormalizeEquation(c, EquationOf(with, other, left), y, []) == Exit
  {
  }

  /** The logarithm of the quotient, as it is built. */
  lemma LogarithmApplied(c: Tree, rhs: Expr, log: Expr, p: Path, t: int, v: real, l: Option<real>)
    requires Laws(c.m) && Value(c.m, rhs, p, t) == Some(v) && Value(c.m, log, p, t) == l && (v != 0.0 || l != Some(0.0))
    ensures Applied(c, rhs, LogarithmUndone(log), p, t, LogarithmOf(c.m, Quotient(c.m, l, v)))
  {
    hide AddFunction;
    var ops, u := LogarithmUndone(log), Quotient(c.m, l, v);
    QuotientBuilt(c, rhs, log, p, t, v, l);
    hide AddDivide;
    assert ops == [ops[0]] + [ops[1]];
    ApplyAppend(c, rhs, [ops[0]], [ops[1]]);
    ApplyOne(c, rhs, ops[1]);
    var q := AddDivide(c, log, rhs);
    assert ComputeRHS(c, rhs, ops[1]) == q;
    if q.Ok? {
      ApplyOne(c, q.value, ops[0]);
      AddFunctionValue(c, Log, q.value, p, t);
    }
  }

  lemma QuotientBuilt(c: Tree, rhs: Expr, log: Expr, p: Path, t: int, v: real, l: Option<real>)
    requires Value(c.m, rhs, p, t) == Some(v) && Value(c.m, log, p, t) == l && (v != 0.0 || l != Some(0.0))
    ensures match AddDivide(c, log, rhs)
            case Ok(r) => Value(c.m, r, p, t) == Quotient(c.m, l, v)
            case Exit => Quotient(c.m, l, v) == None
  {
    AddOperatorValue(c, Divide, log, rhs, p, t);
    assert Value(c.m, Bin(Divide, log, rhs), p, t) == Quotient(c.m, l, v);
  }

  predicate LogarithmLaw(m: Functions, b: real, a: real, v: real, l: real, k: real) {
    m.power(b, a) == Some(v) <==> l * a == k
  }

  /** Solved for e, of value a: with l = log(b) other than 0 and k = log(v), exactly where a is neither k / l nor
      log(l / v), or the two are equal. */
  lemma ExponentSolved(c: Tree, z: Expr, e: Expr, other: Expr, left: bool, y: Symbol, p: Path, t: int, v: real, b: real,
                       a: real, l: real, k: real)
    requires Laws(c.m) && InverseLaws(c.m) && y.kind == Endogenous
    requires Invertible(e, y) && Regular(c.m, e, y, p, t) && OtherSide(c.m, other, y, p, t, v)
    requires OtherSide(c.m, z, y, p, t, b) && Value(c.m, e, p, t) == Some(a)
    requires c.m.unary(Log, b) == Some(l) && l != 0.0 && v > 0.0 && LogarithmLaw(c.m, b, a, v, l, k)
    ensures var eq, n := EquationOf(Bin(Power, z, e), other, left), c.m.unary(Log, l / v);
            Agree(c.m, eq, NormalizeEquation(c, eq, y, []), p, t)
            <==> (a != k / l && n != Some(a)) || n == Some(k / l)
  {
    hide Laws, InverseLaws, Regular, Invertible, NormalizeEquation, Agree, OtherSide, Value;
    ExponentLost(c, z, e, other, left, y, p, t, v, b);
    InverseAt(c.m, a, l / v);
    SolvedQuotient(a, k, l);
  }

  lemma SolvedQuotient(a: real, k: real, l: real)
    requires l != 0.0
    ensures l * a == k <==> a == k / l
  {
  }

  /** The solution z = v = 1, with any e, is lost. */
  lemma ExponentLostAtOne(c: Tree, z: Expr, e: Expr, other: Expr, left: bool, y: Symbol, p: Path, t: int)
    requires Laws(c.m) && InverseLaws(c.m) && y.kind == Endogenous
    requires Invertible(e, y) && Regular(c.m, e, y, p, t) && Value(c.m, e, p, t).Some?
    requires OtherSide(c.m, other, y, p, t, 1.0) && OtherSide(c.m, z, y, p, t, 1.0)
    ensures var eq := EquationOf(Bin(Power, z, e), other, left);
            Holds(c.m, eq, p, t) && !Agree(c.m, eq, NormalizeEquation(c, eq, y, []), p, t)
  {
    hide NormalizeEquation, Regular, Invertible, Value, Free, Written;
    var a := Value(c.m, e, p, t).value;
    ExponentLost(c, z, e, other, left, y, p, t, 1.0, 1.0);
    BaseNode(c.m, z, e, p, t, 1.0, 1.0);
    EquationHolds(c.m, Bin(Power, z, e), other, left, p, t, 1.0);
    assert ValueAt(c.m, Log, 1.0, 0.0) && c.m.power(1.0, a) == Some(1.0);
    InverseAt(c.m, a, 0.0);
  }
}
