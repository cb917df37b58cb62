/** Conditional expressions: the searched form `ibis.case()`, the simple
    form `key.case()`, the list form `key.cases(pairs, default)` and
    `ibis.ifelse`.

    An expression is a tree of operation nodes. Its dtype is derived by
    TypeOf, which is also the validation gate: a node whose operands do not
    meet its signature has no dtype, only an error. Its shape is derived by
    ShapeOf. The builder accumulates (condition, result) clauses and an
    optional default; End finalises it into a SearchedCase or SimpleCase node
    and fails exactly when that node is ill-typed. */
module CaseExpressions {
  import opened Common
  import opened DataTypes

  /** A Python value handed to ibis as a literal. */
  datatype PyValue = PyBool(b: bool) | PyInt(i: int) | PyStr(s: string) | PyNone

  datatype Expr =
    | Literal(value: PyValue, dtype: DType)
    | Field(name: string, dtype: DType)                // a column of a table
    | Cast(arg: Expr, to: DType)
    | Equals(left: Expr, right: Expr)
    | IsNull(arg: Expr)
    | Lower(arg: Expr)
    | Multiply(left: Expr, right: Expr)
    | IfElse(cond: Expr, ifTrue: Expr, ifFalse: Expr)
    | SearchedCase(cases: seq<Expr>, results: seq<Expr>, default: Expr)
    | SimpleCase(base: Expr, cases: seq<Expr>, results: seq<Expr>, default: Expr)

  /** `ibis.null()` */
  const NullLiteral: Expr := Literal(PyNone, Null)

  /** Typing of a searched case from the dtypes of its parts: at least one
      branch, one result per condition, boolean conditions only (never
      coerced), and results plus default promotable to one dtype. */
  function SearchedCaseType(conds: seq<DType>, results: seq<DType>, default: DType): (r: Result<DType, Error>)
  {
    if |conds| == 0 || |conds| != |results| then Err(SignatureValidationError)
    else if exists i :: 0 <= i < |conds| && conds[i] != Boolean then Err(SignatureValidationError)
    else HighestPrecedence(results + [default])
  }

  /** Typing of a simple case: as for the searched form, except that each
      match value must be comparable with the key instead of boolean. */
  function SimpleCaseType(base: DType, cases: seq<DType>, results: seq<DType>, default: DType): (r: Result<DType, Error>)
  {
    if |cases| == 0 || |cases| != |results| then Err(SignatureValidationError)
    else if exists i :: 0 <= i < |cases| && !Comparable(base, cases[i]) then Err(TypeMismatch)
    else HighestPrecedence(results + [default])
  }

  /** The dtype of a node, or the error its construction raises. Errors of
      operands propagate. */
  function TypeOf(e: Expr): Result<DType, Error>
    decreases e
  {
    match e
    case Literal(_, t) => Ok(t)
    case Field(_, t) => Ok(t)
    case Cast(a, t) =>
      (match TypeOf(a)
       case Err(x) => Err(x)
       case Ok(_) => Ok(t))
    case Equals(l, r) =>
      (match (TypeOf(l), TypeOf(r))
       case (Err(x), _) => Err(x)
       case (_, Err(x)) => Err(x)
       case (Ok(lt), Ok(rt)) => if Comparable(lt, rt) then Ok(Boolean) else Err(TypeMismatch))
    case IsNull(a) =>
      (match TypeOf(a)
       case Err(x) => Err(x)
       case Ok(_) => Ok(Boolean))
    case Lower(a) =>
      (match TypeOf(a)
       case Err(x) => Err(x)
       case Ok(t) => if t == String then Ok(String) else Err(SignatureValidationError))
    case Multiply(l, r) =>
      (match (TypeOf(l), TypeOf(r))
       case (Err(x), _) => Err(x)
       case (_, Err(x)) => Err(x)
       case (Ok(lt), Ok(rt)) =>
         if (lt.Int? || lt.Float?) && (rt.Int? || rt.Float?) then Join(lt, rt)
         else Err(SignatureValidationError))
    case IfElse(c, t, f) =>
      (match (TypeOf(c), TypeOf(t), TypeOf(f))
       case (Err(x), _, _) => Err(x)
       case (_, Err(x), _) => Err(x)
       case (_, _, Err(x)) => Err(x)
       case (Ok(ct), Ok(tt), Ok(ft)) =>
         if ct != Boolean then Err(SignatureValidationError) else Join(tt, ft))
    case SearchedCase(cs, rs, d) =>
      (match (TypesOf(cs), TypesOf(rs), TypeOf(d))
       case (Err(x), _, _) => Err(x)
       case (_, Err(x), _) => Err(x)
       case (_, _, Err(x)) => Err(x)
       case (Ok(cts), Ok(rts), Ok(dt)) => SearchedCaseType(cts, rts, dt))
    case SimpleCase(b, cs, rs, d) =>
      (match (TypeOf(b), TypesOf(cs), TypesOf(rs), TypeOf(d))
       case (Err(x), _, _, _) => Err(x)
       case (_, Err(x), _, _) => Err(x)
       case (_, _, Err(x), _) => Err(x)
       case (_, _, _, Err(x)) => Err(x)
       case (Ok(bt), Ok(cts), Ok(rts), Ok(dt)) => SimpleCaseType(bt, cts, rts, dt))
  }

  /** The dtypes of a list of nodes, or the first error among them. */
  function TypesOf(es: seq<Expr>): (r: Result<seq<DType>, Error>)
    ensures r.Ok? <==> forall i :: 0 <= i < |es| ==> TypeOf(es[i]).Ok?
    ensures r.Ok? ==> |r.value| == |es| && forall i :: 0 <= i < |es| ==> TypeOf(es[i]) == Ok(r.value[i])
    decreases es
  {
    if es == [] then Ok([])
    else match (TypeOf(es[0]), TypesOf(es[1..]))
      case (Err(x), _) => Err(x)
      case (_, Err(x)) => Err(x)
      case (Ok(t), Ok(ts)) => Ok([t] + ts)
  }

  /** TypesOf is the pointwise dtype of a list whose elements are all typed. */
  lemma TypesOfPointwise(es: seq<Expr>, ts: seq<DType>)
    requires |es| == |ts| && forall i :: 0 <= i < |es| ==> TypeOf(es[i]) == Ok(ts[i])
    ensures TypesOf(es) == Ok(ts)
  {
    assert TypesOf(es).Ok?;
    assert TypesOf(es).value == ts;
  }

  /** The shape of a node: a literal is scalar, a table field columnar, and
      any other node is columnar exactly when one of its operands is.
      No value expression is tabular. */
  function ShapeOf(e: Expr): (r: Shape)
    ensures r != Tabular
    decreases e
  {
    match e
    case Literal(_, _) => Scalar
    case Field(_, _) => Columnar
    case Cast(a, _) => ShapeOf(a)
    case Equals(l, r) => MaxShape(ShapeOf(l), ShapeOf(r))
    case IsNull(a) => ShapeOf(a)
    case Lower(a) => ShapeOf(a)
    case Multiply(l, r) => MaxShape(ShapeOf(l), ShapeOf(r))
    case IfElse(c, t, f) => MaxShape(ShapeOf(c), MaxShape(ShapeOf(t), ShapeOf(f)))
    case SearchedCase(cs, rs, d) => MaxShape(ShapesOf(cs), MaxShape(ShapesOf(rs), ShapeOf(d)))
    case SimpleCase(b, cs, rs, d) =>
      MaxShape(ShapeOf(b), MaxShape(ShapesOf(cs), MaxShape(ShapesOf(rs), ShapeOf(d))))
  }

  /** The highest shape of a list of nodes; scalar for the empty list. */
  function ShapesOf(es: seq<Expr>): (r: Shape)
    ensures r != Tabular
    ensures r == Columnar <==> exists i :: 0 <= i < |es| && ShapeOf(es[i]) == Columnar
    decreases es
  {
    if es == [] then Scalar
    else
      var rest := ShapesOf(es[1..]);
      assert forall i :: 1 <= i < |es| ==> es[i] == es[1..][i - 1];
      MaxShape(ShapeOf(es[0]), rest)
  }

  // ---------------------------------------------------------------------
  // The builder

  /** A case builder: the key of the simple form (None for the searched
      form), the clauses in the order they were added, and the default. */
  datatype CaseBuilder = CaseBuilder(base: Option<Expr>, clauses: seq<(Expr, Expr)>, default: Option<Expr>)

  /** `ibis.case()` */
  function SearchedCaseBuilder(): CaseBuilder {
    CaseBuilder(None, [], None)
  }

  /** `key.case()` */
  function SimpleCaseBuilder(key: Expr): CaseBuilder {
    CaseBuilder(Some(key), [], None)
  }

  /** `.when(cond, result)`: appends a clause. */
  function When(b: CaseBuilder, cond: Expr, result: Expr): (r: CaseBuilder)
    ensures r.base == b.base && r.default == b.default
    ensures |r.clauses| == |b.clauses| + 1 && r.clauses[..|b.clauses|] == b.clauses
    ensures r.clauses[|b.clauses|] == (cond, result)
  {
    b.(clauses := b.clauses + [(cond, result)])
  }

  /** `.else_(default)`: sets (or replaces) the default. */
  function Else(b: CaseBuilder, default: Expr): (r: CaseBuilder)
    ensures r.base == b.base && r.clauses == b.clauses && r.default == Some(default)
  {
    b.(default := Some(default))
  }

  function Conditions(clauses: seq<(Expr, Expr)>): (r: seq<Expr>)
    ensures |r| == |clauses| && forall i :: 0 <= i < |clauses| ==> r[i] == clauses[i].0
  {
    seq(|clauses|, i requires 0 <= i < |clauses| => clauses[i].0)
  }

  function Results(clauses: seq<(Expr, Expr)>): (r: seq<Expr>)
    ensures |r| == |clauses| && forall i :: 0 <= i < |clauses| ==> r[i] == clauses[i].1
  {
    seq(|clauses|, i requires 0 <= i < |clauses| => clauses[i].1)
  }

  /** The dtype a synthesised default is cast to: the promotion of the
      result dtypes. When that fails the node is rejected anyway, and the
      placeholder null dtype is never observed. */
  function ResultsType(clauses: seq<(Expr, Expr)>): DType
  {
    match TypesOf(Results(clauses))
    case Ok(ts) =>
      if |ts| > 0 && HighestPrecedence(ts).Ok? then HighestPrecedence(ts).value else Null
    case Err(_) => Null
  }

  /** The default of the node: the one given to `else_`, or else a null
      literal cast to the promoted result dtype. */
  function DefaultOf(b: CaseBuilder): Expr {
    match b.default
    case Some(d) => d
    case None => Cast(NullLiteral, ResultsType(b.clauses))
  }

  /** The node `.end()` constructs from a builder. */
  function NodeOf(b: CaseBuilder): Expr {
    match b.base
    case None => SearchedCase(Conditions(b.clauses), Results(b.clauses), DefaultOf(b))
    case Some(k) => SimpleCase(k, Conditions(b.clauses), Results(b.clauses), DefaultOf(b))
  }

  /** `.end()`: finalises the builder. Zero clauses is a signature error
      whether or not a default or key was given; otherwise the node is
      returned exactly when it is well-typed. */
  function End(b: CaseBuilder): (r: Result<Expr, Error>)
    ensures |b.clauses| == 0 ==> r == Err(SignatureValidationError)
    ensures r.Ok? ==> TypeOf(r.value).Ok?
    ensures r.Ok? ==> (b.base.None? <==> r.value.SearchedCase?) && (b.base.Some? <==> r.value.SimpleCase?)
    ensures r.Ok? && b.base.Some? ==> r.value.base == b.base.value
    ensures r.Ok? ==> r.value.cases == Conditions(b.clauses) && r.value.results == Results(b.clauses)
    ensures r.Ok? && b.default.Some? ==> r.value.default == b.default.value
    ensures r.Ok? && b.default.None? ==> r.value.default.Cast? && r.value.default.arg == NullLiteral
  {
    if |b.clauses| == 0 then Err(SignatureValidationError)
    else
      var node := NodeOf(b);
      match TypeOf(node)
      case Err(x) => Err(x)
      case Ok(_) => Ok(node)
  }

  /** Appends the clauses of `pairs` in order. */
  function WhenAll(b: CaseBuilder, pairs: seq<(Expr, Expr)>): CaseBuilder
    decreases |pairs|
  {
    if pairs == [] then b else WhenAll(When(b, pairs[0].0, pairs[0].1), pairs[1..])
  }

  /** `key.cases(pairs, default)` */
  function Cases(key: Expr, pairs: seq<(Expr, Expr)>, default: Option<Expr>): Result<Expr, Error> {
    var b := WhenAll(SimpleCaseBuilder(key), pairs);
    End(match default case Some(d) => Else(b, d) case None => b)
  }

  // ---------------------------------------------------------------------
  // ifelse

  /** What `ibis.ifelse` receives as its condition: a plain Python value or
      an ibis expression. */
  datatype Condition = PlainValue(v: PyValue) | ValueExpr(e: Expr)

  /** `cond.ifelse(t, f)`, available on boolean expressions only. */
  function IfElseMethod(cond: Expr, t: Expr, f: Expr): Expr {
    IfElse(cond, t, f)
  }

  /** `ibis.ifelse(cond, t, f)`: unlike the case builder, a condition that
      is not boolean is cast to boolean; a plain value becomes a boolean
      literal. */
  function IfElseFunction(cond: Condition, t: Expr, f: Expr): Expr {
    var c := match cond
      case PlainValue(v) => Literal(v, Boolean)
      case ValueExpr(e) => if TypeOf(e) == Ok(Boolean) then e else Cast(e, Boolean);
    IfElseMethod(c, t, f)
  }

  // ---------------------------------------------------------------------
  // Properties

  /** Every operand of the node a builder finalises to. */
  ghost predicate OperandsTyped(b: CaseBuilder) {
    && (b.base.Some? ==> TypeOf(b.base.value).Ok?)
    && (forall i :: 0 <= i < |b.clauses| ==> TypeOf(b.clauses[i].0).Ok? && TypeOf(b.clauses[i].1).Ok?)
    && (b.default.Some? ==> TypeOf(b.default.value).Ok?)
  }

  /** Some ingredient of the case is columnar: the key, a condition or
      match value, a result, or the given default. */
  ghost predicate AnyColumnar(b: CaseBuilder) {
    || (b.base.Some? && ShapeOf(b.base.value) == Columnar)
    || (exists i :: 0 <= i < |b.clauses| && ShapeOf(b.clauses[i].0) == Columnar)
    || (exists i :: 0 <= i < |b.clauses| && ShapeOf(b.clauses[i].1) == Columnar)
    || (b.default.Some? && ShapeOf(b.default.value) == Columnar)
  }

  /** The dtypes a case's result dtype is promoted from: one per result and
      the given default; a synthesised default contributes nothing new. */
  function BranchTypes(b: CaseBuilder): seq<DType>
    requires OperandsTyped(b)
  {
    var rs := TypesOf(Results(b.clauses)).value;
    match b.default
    case Some(d) => rs + [TypeOf(d).value]
    case None => rs
  }

  lemma PromoteNullLast(ts: seq<DType>)
    requires |ts| > 0
    ensures HighestPrecedence(ts + [Null]) == HighestPrecedence(ts)
  {
    HighestPrecedenceIsLeastUpperBound(ts);
    HighestPrecedenceIsLeastUpperBound(ts + [Null]);
    forall d ensures IsUpperBound(ts, d) <==> IsUpperBound(ts + [Null], d) {
      if IsUpperBound(ts, d) {
        forall i | 0 <= i < |ts + [Null]| ensures Castable((ts + [Null])[i], d) {
          if i < |ts| { assert (ts + [Null])[i] == ts[i]; }
        }
      }
      if IsUpperBound(ts + [Null], d) {
        forall i | 0 <= i < |ts| ensures Castable(ts[i], d) {
          assert (ts + [Null])[i] == ts[i];
        }
      }
    }
    var r, q := HighestPrecedence(ts), HighestPrecedence(ts + [Null]);
    if r.Ok? {
      assert IsUpperBound(ts + [Null], r.value);
      CastableAntisymmetric(r.value, q.value);
    }
  }

  /** A synthesised default, a null cast to the promoted result dtype,
      leaves the promotion unchanged. */
  lemma SynthesizedDefaultType(b: CaseBuilder)
    requires OperandsTyped(b) && |b.clauses| > 0 && b.default.None?
    ensures var rts := TypesOf(Results(b.clauses)).value;
      && TypeOf(DefaultOf(b)) == Ok(ResultsType(b.clauses))
      && HighestPrecedence(rts + [ResultsType(b.clauses)]) == HighestPrecedence(rts)
  {
    var rts := TypesOf(Results(b.clauses)).value;
    var u := ResultsType(b.clauses);
    var hp := HighestPrecedence(rts);
    PromoteNullLast(rts);
    HighestPrecedenceIsLeastUpperBound(rts + [u]);
    HighestPrecedenceIsLeastUpperBound(rts);
    if hp.Ok? {
      assert u == hp.value;
      // Adding the least upper bound itself changes nothing.
      assert IsUpperBound(rts + [u], u) by {
        forall i | 0 <= i < |rts + [u]| ensures Castable((rts + [u])[i], u) {
          if i < |rts| { assert (rts + [u])[i] == rts[i]; }
        }
      }
      var q := HighestPrecedence(rts + [u]);
      assert q.Ok?;
      assert IsUpperBound(rts, q.value) by {
        forall i | 0 <= i < |rts| ensures Castable(rts[i], q.value) {
          assert (rts + [u])[i] == rts[i];
        }
      }
      CastableAntisymmetric(u, q.value);
    } else {
      assert u == Null;
    }
  }

  /** The default of the node End builds is typed, and promoting it with
      the result dtypes gives the promotion of the branch dtypes. */
  lemma NodeDefaultType(b: CaseBuilder)
    requires OperandsTyped(b) && |b.clauses| > 0
    ensures TypeOf(NodeOf(b).default).Ok?
    ensures HighestPrecedence(TypesOf(Results(b.clauses)).value + [TypeOf(NodeOf(b).default).value])
         == HighestPrecedence(BranchTypes(b))
  {
    assert TypesOf(Results(b.clauses)).Ok?;
    if b.default.None? {
      SynthesizedDefaultType(b);
    }
  }

  lemma SearchedNodeType(cs: seq<Expr>, rs: seq<Expr>, d: Expr)
    requires TypesOf(cs).Ok? && TypesOf(rs).Ok? && TypeOf(d).Ok?
    ensures TypeOf(SearchedCase(cs, rs, d)) == SearchedCaseType(TypesOf(cs).value, TypesOf(rs).value, TypeOf(d).value)
  {
  }

  lemma SimpleNodeType(k: Expr, cs: seq<Expr>, rs: seq<Expr>, d: Expr)
    requires TypeOf(k).Ok? && TypesOf(cs).Ok? && TypesOf(rs).Ok? && TypeOf(d).Ok?
    ensures TypeOf(SimpleCase(k, cs, rs, d))
         == SimpleCaseType(TypeOf(k).value, TypesOf(cs).value, TypesOf(rs).value, TypeOf(d).value)
  {
  }

  /** The dtype of the node End builds, when the operands are typed and the
      clause list is non-empty: the promotion of the branch dtypes. */
  lemma NodeType(b: CaseBuilder)
    requires OperandsTyped(b) && |b.clauses| > 0
    ensures TypeOf(NodeOf(b).default).Ok?
    ensures var node := NodeOf(b);
      var cts := TypesOf(Conditions(b.clauses)).value;
      var rts := TypesOf(Results(b.clauses)).value;
      var dt := TypeOf(node.default).value;
      && (b.base.None? ==> TypeOf(node) == SearchedCaseType(cts, rts, dt))
      && (b.base.Some? ==> TypeOf(node) == SimpleCaseType(TypeOf(b.base.value).value, cts, rts, dt))
      && HighestPrecedence(rts + [dt]) == HighestPrecedence(BranchTypes(b))
  {
    var cs, rs := Conditions(b.clauses), Results(b.clauses);
    assert TypesOf(cs).Ok? && TypesOf(rs).Ok?;
    NodeDefaultType(b);
    var d := NodeOf(b).default;
    match b.base
    case None =>
      assert NodeOf(b) == SearchedCase(cs, rs, d);
      SearchedNodeType(cs, rs, d);
    case Some(k) =>
      assert NodeOf(b) == SimpleCase(k, cs, rs, d);
      SimpleNodeType(k, cs, rs, d);
  }

  /** `end()` succeeds exactly when there is at least one clause, every
      operand is well-typed, every searched condition is boolean or every
      match value is comparable with the key, and the branch dtypes have a
      common supertype. The node's dtype is then their least upper bound,
      and does not depend on the key's dtype. */
  lemma EndSucceedsIff(b: CaseBuilder)
    requires OperandsTyped(b)
    ensures End(b).Ok? <==>
      && |b.clauses| > 0
      && (b.base.None? ==> forall i :: 0 <= i < |b.clauses| ==> TypeOf(b.clauses[i].0) == Ok(Boolean))
      && (b.base.Some? ==> forall i :: 0 <= i < |b.clauses| ==>
            Comparable(TypeOf(b.base.value).value, TypeOf(b.clauses[i].0).value))
      && HasUpperBound(BranchTypes(b))
    ensures End(b).Ok? ==> |BranchTypes(b)| > 0 && TypeOf(End(b).value) == HighestPrecedence(BranchTypes(b))
    ensures End(b).Ok? ==> IsLeastUpperBound(BranchTypes(b), TypeOf(End(b).value).value)
  {
    if |b.clauses| > 0 {
      NodeType(b);
      var cts := TypesOf(Conditions(b.clauses)).value;
      var rts := TypesOf(Results(b.clauses)).value;
      var dt := TypeOf(NodeOf(b).default).value;
      HighestPrecedenceIsLeastUpperBound(rts + [dt]);
      HighestPrecedenceIsLeastUpperBound(BranchTypes(b));
      assert forall i :: 0 <= i < |b.clauses| ==> TypeOf(b.clauses[i].0) == Ok(cts[i]);
    }
  }

  /** A searched case with a condition that is not boolean is rejected with
      a signature error; no coercion happens. */
  lemma SearchedCaseRejectsNonBoolean(b: CaseBuilder, i: int)
    requires OperandsTyped(b) && b.base.None?
    requires 0 <= i < |b.clauses| && TypeOf(b.clauses[i].0) != Ok(Boolean)
    ensures End(b) == Err(SignatureValidationError)
  {
    NodeType(b);
    var cts := TypesOf(Conditions(b.clauses)).value;
    assert cts[i] != Boolean;
  }

  /** A simple case with a match value not comparable with the key is
      rejected with a type error. */
  lemma SimpleCaseRejectsIncomparable(b: CaseBuilder, i: int)
    requires OperandsTyped(b) && b.base.Some?
    requires 0 <= i < |b.clauses|
    requires !Comparable(TypeOf(b.base.value).value, TypeOf(b.clauses[i].0).value)
    ensures End(b) == Err(TypeMismatch)
  {
    NodeType(b);
    var cts := TypesOf(Conditions(b.clauses)).value;
    assert !Comparable(TypeOf(b.base.value).value, cts[i]);
  }

  /** Branch dtypes with no common supertype are a type error, once the
      conditions or match values have passed their checks. */
  lemma EndRejectsUnpromotable(b: CaseBuilder)
    requires OperandsTyped(b) && |b.clauses| > 0 && !HasUpperBound(BranchTypes(b))
    requires b.base.None? ==> forall i :: 0 <= i < |b.clauses| ==> TypeOf(b.clauses[i].0) == Ok(Boolean)
    requires b.base.Some? ==> forall i :: 0 <= i < |b.clauses| ==>
      Comparable(TypeOf(b.base.value).value, TypeOf(b.clauses[i].0).value)
    ensures End(b) == Err(TypeMismatch)
  {
    NodeType(b);
    var cts := TypesOf(Conditions(b.clauses)).value;
    var rts := TypesOf(Results(b.clauses)).value;
    var dt := TypeOf(NodeOf(b).default).value;
    assert forall i :: 0 <= i < |b.clauses| ==> TypeOf(b.clauses[i].0) == Ok(cts[i]);
    HighestPrecedenceIsLeastUpperBound(BranchTypes(b));
  }

  lemma ConditionsShape(clauses: seq<(Expr, Expr)>)
    ensures ShapesOf(Conditions(clauses)) == Columnar <==>
      exists i :: 0 <= i < |clauses| && ShapeOf(clauses[i].0) == Columnar
  {
    var cs := Conditions(clauses);
    if exists i :: 0 <= i < |clauses| && ShapeOf(clauses[i].0) == Columnar {
      var i :| 0 <= i < |clauses| && ShapeOf(clauses[i].0) == Columnar;
      assert ShapeOf(cs[i]) == Columnar;
    }
  }

  lemma ResultsShape(clauses: seq<(Expr, Expr)>)
    ensures ShapesOf(Results(clauses)) == Columnar <==>
      exists i :: 0 <= i < |clauses| && ShapeOf(clauses[i].1) == Columnar
  {
    var rs := Results(clauses);
    if exists i :: 0 <= i < |clauses| && ShapeOf(clauses[i].1) == Columnar {
      var i :| 0 <= i < |clauses| && ShapeOf(clauses[i].1) == Columnar;
      assert ShapeOf(rs[i]) == Columnar;
    }
  }

  /** A synthesised default is scalar; a given one keeps its shape. */
  lemma DefaultShape(b: CaseBuilder)
    ensures ShapeOf(DefaultOf(b)) == Columnar <==> b.default.Some? && ShapeOf(b.default.value) == Columnar
  {
    if b.default.None? {
      assert ShapeOf(DefaultOf(b)) == ShapeOf(NullLiteral) == Scalar;
    }
  }

  lemma SearchedNodeShape(cs: seq<Expr>, rs: seq<Expr>, d: Expr)
    ensures ShapeOf(SearchedCase(cs, rs, d)) == Columnar <==>
      ShapesOf(cs) == Columnar || ShapesOf(rs) == Columnar || ShapeOf(d) == Columnar
  {
    assert ShapeOf(SearchedCase(cs, rs, d)) == MaxShape(ShapesOf(cs), MaxShape(ShapesOf(rs), ShapeOf(d)));
  }

  lemma SimpleNodeShape(k: Expr, cs: seq<Expr>, rs: seq<Expr>, d: Expr)
    ensures ShapeOf(SimpleCase(k, cs, rs, d)) == Columnar <==>
      ShapeOf(k) == Columnar || ShapesOf(cs) == Columnar || ShapesOf(rs) == Columnar || ShapeOf(d) == Columnar
  {
    assert ShapeOf(SimpleCase(k, cs, rs, d))
        == MaxShape(ShapeOf(k), MaxShape(ShapesOf(cs), MaxShape(ShapesOf(rs), ShapeOf(d))));
  }

  /** The shape of the node a builder finalises to. */
  lemma NodeShape(b: CaseBuilder)
    ensures ShapeOf(NodeOf(b)) == Columnar <==> AnyColumnar(b)
  {
    ConditionsShape(b.clauses);
    ResultsShape(b.clauses);
    DefaultShape(b);
    var cs, rs, d := Conditions(b.clauses), Results(b.clauses), DefaultOf(b);
    match b.base
    case None =>
      assert NodeOf(b) == SearchedCase(cs, rs, d);
      SearchedNodeShape(cs, rs, d);
    case Some(k) =>
      assert NodeOf(b) == SimpleCase(k, cs, rs, d);
      SimpleNodeShape(k, cs, rs, d);
  }

  lemma EndIsNode(b: CaseBuilder)
    requires End(b).Ok?
    ensures End(b).value == NodeOf(b)
  {
  }

  /** A builder `end` accepts has typed operands. */
  lemma EndOkOperandsTyped(b: CaseBuilder)
    requires End(b).Ok?
    ensures OperandsTyped(b)
  {
    var cs, rs := Conditions(b.clauses), Results(b.clauses);
    match b.base
    case None =>
      assert NodeOf(b) == SearchedCase(cs, rs, DefaultOf(b));
    case Some(k) =>
      assert NodeOf(b) == SimpleCase(k, cs, rs, DefaultOf(b));
  }

  /** Without `else_`, the default of the built case is a null cast to the
      case's own dtype. */
  lemma EndSynthesizedDefault(b: CaseBuilder)
    requires End(b).Ok? && b.default.None?
    ensures End(b).value.default == Cast(NullLiteral, TypeOf(End(b).value).value)
  {
    EndOkOperandsTyped(b);
    EndSucceedsIff(b);
    EndIsNode(b);
    assert TypesOf(Results(b.clauses)).Ok?;
  }

  /** Shape rule: the case is columnar exactly when some ingredient is,
      and scalar otherwise. */
  lemma EndShape(b: CaseBuilder)
    requires End(b).Ok?
    ensures ShapeOf(End(b).value) == Columnar <==> AnyColumnar(b)
    ensures ShapeOf(End(b).value) == Scalar <==> !AnyColumnar(b)
  {
    EndIsNode(b);
    NodeShape(b);
  }

  /** The result dtype of a clause that also occurs in `b'` is among the
      result dtypes of `b'`. */
  lemma ResultTypeOccurs(c: (Expr, Expr), b': CaseBuilder)
    requires OperandsTyped(b') && c in multiset(b'.clauses) && TypeOf(c.1).Ok?
    ensures TypeOf(c.1).value in TypesOf(Results(b'.clauses)).value
  {
    var rts' := TypesOf(Results(b'.clauses)).value;
    var j :| 0 <= j < |b'.clauses| && b'.clauses[j] == c;
    assert rts'[j] == TypeOf(c.1).value;
  }

  /** Clause lists that are permutations of each other have result dtypes
      with the same elements. */
  lemma ResultTypesSameElements(b: CaseBuilder, b': CaseBuilder)
    requires OperandsTyped(b) && OperandsTyped(b')
    requires multiset(b.clauses) == multiset(b'.clauses)
    ensures forall t :: t in TypesOf(Results(b.clauses)).value ==> t in TypesOf(Results(b'.clauses)).value
  {
    var rts := TypesOf(Results(b.clauses)).value;
    forall t | t in rts ensures t in TypesOf(Results(b'.clauses)).value {
      var i :| 0 <= i < |rts| && rts[i] == t;
      assert b.clauses[i] in multiset(b'.clauses);
      ResultTypeOccurs(b.clauses[i], b');
    }
  }

  /** Reordering the clauses of a searched case, keeping each condition
      with its result, does not change its dtype. */
  lemma EndTypeOrderIndependent(b: CaseBuilder, b': CaseBuilder)
    requires OperandsTyped(b) && OperandsTyped(b')
    requires b.base.None? && b'.base.None? && b.default == b'.default
    requires multiset(b.clauses) == multiset(b'.clauses)
    ensures End(b).Ok? <==> End(b').Ok?
    ensures End(b).Ok? ==> TypeOf(End(b).value) == TypeOf(End(b').value)
  {
    ResultTypesSameElements(b, b');
    ResultTypesSameElements(b', b);
    var ts, ts' := BranchTypes(b), BranchTypes(b');
    assert forall t :: t in ts <==> t in ts';
    assert |ts| > 0 <==> |ts'| > 0 by {
      assert |b.clauses| == |multiset(b.clauses)| == |b'.clauses|;
    }
    if |ts| > 0 {
      HighestPrecedenceOrderIndependent(ts, ts');
      HighestPrecedenceIsLeastUpperBound(ts);
      HighestPrecedenceIsLeastUpperBound(ts');
    }
    assert forall i :: 0 <= i < |b.clauses| ==> b.clauses[i] in multiset(b'.clauses);
    assert forall j :: 0 <= j < |b'.clauses| ==> b'.clauses[j] in multiset(b.clauses);
    EndSucceedsIff(b);
    EndSucceedsIff(b');
  }

  /** The list form appends the pairs in order, so clause order is kept. */
  lemma {:induction false} WhenAllClauses(b: CaseBuilder, pairs: seq<(Expr, Expr)>)
    ensures WhenAll(b, pairs).base == b.base && WhenAll(b, pairs).default == b.default
    ensures WhenAll(b, pairs).clauses == b.clauses + pairs
    decreases |pairs|
  {
    if pairs != [] {
      var b1 := When(b, pairs[0].0, pairs[0].1);
      WhenAllClauses(b1, pairs[1..]);
      assert b1.clauses + pairs[1..] == b.clauses + pairs;
    }
  }

  /** `key.cases(pairs, default)` equals the chained builder. */
  lemma CasesIsChainedBuilder(key: Expr, pairs: seq<(Expr, Expr)>, default: Option<Expr>)
    ensures Cases(key, pairs, default) == End(CaseBuilder(Some(key), pairs, default))
  {
    WhenAllClauses(SimpleCaseBuilder(key), pairs);
    assert [] + pairs == pairs;
  }

  /** `ibis.ifelse` never rejects its condition for being non-boolean: with
      well-typed operands it succeeds exactly when the two branches promote,
      and its dtype is their promotion. */
  lemma IfElseFunctionType(cond: Condition, t: Expr, f: Expr)
    requires cond.ValueExpr? ==> TypeOf(cond.e).Ok?
    requires TypeOf(t).Ok? && TypeOf(f).Ok?
    ensures TypeOf(IfElseFunction(cond, t, f)) == Join(TypeOf(t).value, TypeOf(f).value)
  {
  }

  /** `ibis.ifelse(c, t, f)` is `cast(c, bool).ifelse(t, f)` for a
      non-boolean expression, `c.ifelse(t, f)` for a boolean one, and
      `literal(c, bool).ifelse(t, f)` for a plain value. */
  lemma IfElseFunctionCondition(cond: Condition, t: Expr, f: Expr)
    ensures cond.PlainValue? ==> IfElseFunction(cond, t, f) == IfElseMethod(Literal(cond.v, Boolean), t, f)
    ensures cond.ValueExpr? && TypeOf(cond.e) == Ok(Boolean) ==> IfElseFunction(cond, t, f) == IfElseMethod(cond.e, t, f)
    ensures cond.ValueExpr? && TypeOf(cond.e) != Ok(Boolean) ==>
      IfElseFunction(cond, t, f) == IfElseMethod(Cast(cond.e, Boolean), t, f)
  {
  }

  /** The method form, by contrast, has the same signature check as a
      searched case: a non-boolean condition is a signature error. */
  lemma IfElseMethodRejectsNonBoolean(c: Expr, t: Expr, f: Expr)
    requires TypeOf(c).Ok? && TypeOf(c) != Ok(Boolean) && TypeOf(t).Ok? && TypeOf(f).Ok?
    ensures TypeOf(IfElseMethod(c, t, f)) == Err(SignatureValidationError)
  {
  }
}
