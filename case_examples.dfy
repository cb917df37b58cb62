/** The assertions of the case-expression test suite, stated over the model.

    Each assertion is stated for every column of the dtype the suite's
    `alltypes` table gives it (a int8, b int16, c int32, d int64, e float32,
    f float64, g string). Some assertions are also stated for every string
    in place of one of the suite's string literals. Python integer literals get the
    narrowest integer dtype that holds them (5 and 42 are int8, 128 and 1000
    are int16), strings are string, None is null. */
module CaseExamples {
  import opened Common
  import opened DataTypes
  import opened CaseExpressions

  /** A column of a table, of dtype `t`. */
  predicate IsColumn(x: Expr, t: DType) {
    x.Field? && x.dtype == t
  }

  function Str(s: string): Expr { Literal(PyStr(s), String) }
  function Int8(i: int): Expr { Literal(PyInt(i), Int(I8)) }
  function Int16(i: int): Expr { Literal(PyInt(i), Int(I16)) }
  function Bool(b: bool): Expr { Literal(PyBool(b), Boolean) }

  lemma ColumnFacts(x: Expr, t: DType)
    requires IsColumn(x, t)
    ensures TypeOf(x) == Ok(t) && ShapeOf(x) == Columnar
  {
  }

  /** Unfolds the clause list of a builder into its conditions and results
      and their dtypes. */
  lemma Unfold(b: CaseBuilder, cs: seq<Expr>, rs: seq<Expr>, cts: seq<DType>, rts: seq<DType>)
    requires |b.clauses| == |cs| == |rs| == |cts| == |rts|
    requires forall i :: 0 <= i < |b.clauses| ==> b.clauses[i] == (cs[i], rs[i])
    requires forall i :: 0 <= i < |cs| ==> TypeOf(cs[i]) == Ok(cts[i]) && TypeOf(rs[i]) == Ok(rts[i])
    ensures Conditions(b.clauses) == cs && Results(b.clauses) == rs
    ensures TypesOf(cs) == Ok(cts) && TypesOf(rs) == Ok(rts)
    ensures ResultsType(b.clauses) == (if |rts| > 0 && HighestPrecedence(rts).Ok? then HighestPrecedence(rts).value else Null)
  {
    TypesOfPointwise(cs, cts);
    TypesOfPointwise(rs, rts);
  }

  /** The dtype of the given default, if there is one. */
  function DefaultTypes(b: CaseBuilder): (r: seq<DType>)
    requires b.default.Some? ==> TypeOf(b.default.value).Ok?
    ensures b.default.Some? ==> r == [TypeOf(b.default.value).value]
    ensures b.default.None? ==> r == []
  {
    if b.default.Some? then [TypeOf(b.default.value).value] else []
  }

  /** A builder whose checks pass finalises to a node of the promoted dtype. */
  lemma EndOk(b: CaseBuilder, cs: seq<Expr>, rs: seq<Expr>, cts: seq<DType>, rts: seq<DType>, u: DType)
    requires 0 < |b.clauses| == |cs| == |rs| == |cts| == |rts|
    requires forall i :: 0 <= i < |b.clauses| ==> b.clauses[i] == (cs[i], rs[i])
    requires forall i :: 0 <= i < |cs| ==> TypeOf(cs[i]) == Ok(cts[i]) && TypeOf(rs[i]) == Ok(rts[i])
    requires b.base.None? ==> forall i :: 0 <= i < |cts| ==> cts[i] == Boolean
    requires b.base.Some? ==> TypeOf(b.base.value).Ok? && forall i :: 0 <= i < |cts| ==> Comparable(TypeOf(b.base.value).value, cts[i])
    requires b.default.Some? ==> TypeOf(b.default.value).Ok?
    requires HighestPrecedence(rts + DefaultTypes(b)) == Ok(u)
    ensures End(b).Ok? && TypeOf(End(b).value) == Ok(u) && End(b).value == NodeOf(b)
  {
    Unfold(b, cs, rs, cts, rts);
    assert BranchTypes(b) == rts + DefaultTypes(b);
    assert IsUpperBound(BranchTypes(b), u);
    EndSucceedsIff(b);
  }

  lemma HighestPrecedenceTwo(x: DType, y: DType)
    ensures HighestPrecedence([x, y]) == Join(x, y)
  {
    assert HighestPrecedence([x, y]) == Promote(x, [y]) by {
      assert [x, y][0] == x && [x, y][1..] == [y];
    }
    assert [y][0] == y && [y][1..] == [];
    match Join(x, y)
    case Ok(u) =>
      assert Promote(x, [y]) == Promote(u, []);
    case Err(e) =>
      assert Promote(x, [y]) == Err(e);
  }

  /** The shape of the node of a builder whose conditions and results are
      `cs` and `rs`. */
  lemma NodeShapeOf(b: CaseBuilder, cs: seq<Expr>, rs: seq<Expr>)
    requires Conditions(b.clauses) == cs && Results(b.clauses) == rs
    ensures ShapeOf(NodeOf(b)) == Columnar <==>
      || (b.base.Some? && ShapeOf(b.base.value) == Columnar)
      || ShapesOf(cs) == Columnar || ShapesOf(rs) == Columnar
      || (b.default.Some? && ShapeOf(b.default.value) == Columnar)
  {
    DefaultShape(b);
    match b.base
    case None =>
      assert NodeOf(b) == SearchedCase(cs, rs, DefaultOf(b));
    case Some(k) =>
      assert NodeOf(b) == SimpleCase(k, cs, rs, DefaultOf(b));
  }

  /** A one-clause builder whose checks pass: its dtype and its shape. */
  lemma EndOne(b: CaseBuilder, c: Expr, r: Expr, u: DType)
    requires b.clauses == [(c, r)] && TypeOf(c).Ok? && TypeOf(r).Ok?
    requires b.base.None? ==> TypeOf(c) == Ok(Boolean)
    requires b.base.Some? ==> TypeOf(b.base.value).Ok? && Comparable(TypeOf(b.base.value).value, TypeOf(c).value)
    requires b.default.Some? ==> TypeOf(b.default.value).Ok? && Join(TypeOf(r).value, TypeOf(b.default.value).value) == Ok(u)
    requires b.default.None? ==> TypeOf(r) == Ok(u)
    ensures End(b).Ok? && TypeOf(End(b).value) == Ok(u)
    ensures ShapeOf(End(b).value) == Columnar <==>
      || (b.base.Some? && ShapeOf(b.base.value) == Columnar)
      || ShapeOf(c) == Columnar || ShapeOf(r) == Columnar
      || (b.default.Some? && ShapeOf(b.default.value) == Columnar)
    ensures b.default.None? ==> End(b).value.default == Cast(NullLiteral, u)
  {
    var ct, rt := TypeOf(c).value, TypeOf(r).value;
    if b.default.Some? {
      var dt := TypeOf(b.default.value).value;
      assert [rt] + [dt] == [rt, dt];
      HighestPrecedenceTwo(rt, dt);
    } else {
      assert HighestPrecedence([rt]) == Ok(rt);
    }
    EndOk(b, [c], [r], [ct], [rt], u);
    Unfold(b, [c], [r], [ct], [rt]);
    NodeShapeOf(b, [c], [r]);
  }

  // test_case_dshape, searched form

  lemma CaseDshapeLiterals(s: string)
    ensures var r := End(When(When(SearchedCaseBuilder(), Bool(true), Str(s)), Bool(false), Str(s)));
      r.Ok? && ShapeOf(r.value) == Scalar && TypeOf(r.value) == Ok(String)
  {
    var cb := When(When(SearchedCaseBuilder(), Bool(true), Str(s)), Bool(false), Str(s));
    assert HighestPrecedence([String, String]) == Ok(String);
    EndOk(cb, [Bool(true), Bool(false)], [Str(s), Str(s)], [Boolean, Boolean], [String, String], String);
    NodeShape(cb);
  }

  lemma CaseDshapeNullResult(s: string)
    ensures var r := End(Else(When(SearchedCaseBuilder(), Bool(true), NullLiteral), Str(s)));
      r.Ok? && ShapeOf(r.value) == Scalar && TypeOf(r.value) == Ok(String)
  {
    EndOne(Else(When(SearchedCaseBuilder(), Bool(true), NullLiteral), Str(s)), Bool(true), NullLiteral, String);
  }

  lemma CaseDshapeColumnCondition(b: Expr)
    requires IsColumn(b, Int(I16))
    ensures var r := End(Else(When(SearchedCaseBuilder(), Equals(b, Int8(9)), NullLiteral), Str("bar")));
      r.Ok? && ShapeOf(r.value) == Columnar
  {
    EndOne(Else(When(SearchedCaseBuilder(), Equals(b, Int8(9)), NullLiteral), Str("bar")), Equals(b, Int8(9)), NullLiteral, String);
  }

  lemma CaseDshapeColumnResult(a: Expr)
    requires IsColumn(a, Int(I8))
    ensures var r := End(Else(When(SearchedCaseBuilder(), Bool(true), a), Int8(42)));
      r.Ok? && ShapeOf(r.value) == Columnar
  {
    EndOne(Else(When(SearchedCaseBuilder(), Bool(true), a), Int8(42)), Bool(true), a, Int(I8));
  }

  lemma CaseDshapeColumnDefault(a: Expr)
    requires IsColumn(a, Int(I8))
    ensures var r := End(Else(When(SearchedCaseBuilder(), Bool(true), Int8(42)), a));
      r.Ok? && ShapeOf(r.value) == Columnar
  {
    EndOne(Else(When(SearchedCaseBuilder(), Bool(true), Int8(42)), a), Bool(true), Int8(42), Int(I8));
  }

  lemma CaseDshapeColumnResultAndDefault(a: Expr, b: Expr)
    requires IsColumn(a, Int(I8)) && IsColumn(b, Int(I16))
    ensures var r := End(Else(When(SearchedCaseBuilder(), Bool(true), a), b));
      r.Ok? && ShapeOf(r.value) == Columnar
  {
    EndOne(Else(When(SearchedCaseBuilder(), Bool(true), a), b), Bool(true), a, Int(I16));
  }

  // test_case_dshape, simple form with a literal key

  lemma SimpleDshapeScalar(k: int)
    requires -128 <= k < 128
    ensures var r := End(When(SimpleCaseBuilder(Int8(k)), Int8(9), Int8(42)));
      r.Ok? && ShapeOf(r.value) == Scalar
  {
    EndOne(When(SimpleCaseBuilder(Int8(k)), Int8(9), Int8(42)), Int8(9), Int8(42), Int(I8));
  }

  lemma SimpleDshapeScalarElse(k: int)
    requires -128 <= k < 128
    ensures var r := End(Else(When(SimpleCaseBuilder(Int8(k)), Int8(9), Int8(42)), Int8(43)));
      r.Ok? && ShapeOf(r.value) == Scalar
  {
    EndOne(Else(When(SimpleCaseBuilder(Int8(k)), Int8(9), Int8(42)), Int8(43)), Int8(9), Int8(42), Int(I8));
  }

  lemma SimpleDshapeColumnMatch(a: Expr)
    requires IsColumn(a, Int(I8))
    ensures var r := End(When(SimpleCaseBuilder(Int8(5)), a, Int8(42)));
      r.Ok? && ShapeOf(r.value) == Columnar
  {
    EndOne(When(SimpleCaseBuilder(Int8(5)), a, Int8(42)), a, Int8(42), Int(I8));
  }

  lemma SimpleDshapeColumnMatchAndResult(a: Expr, b: Expr)
    requires IsColumn(a, Int(I8)) && IsColumn(b, Int(I16))
    ensures var r := End(When(SimpleCaseBuilder(Int8(5)), a, b));
      r.Ok? && ShapeOf(r.value) == Columnar
  {
    EndOne(When(SimpleCaseBuilder(Int8(5)), a, b), a, b, Int(I16));
  }

  lemma SimpleDshapeColumnResult(a: Expr)
    requires IsColumn(a, Int(I8))
    ensures var r := End(When(SimpleCaseBuilder(Int8(5)), Int8(9), a));
      r.Ok? && ShapeOf(r.value) == Columnar
  {
    EndOne(When(SimpleCaseBuilder(Int8(5)), Int8(9), a), Int8(9), a, Int(I8));
  }

  lemma SimpleDshapeColumnDefault(a: Expr)
    requires IsColumn(a, Int(I8))
    ensures var r := End(Else(When(SimpleCaseBuilder(Int8(5)), Int8(9), Int8(42)), a));
      r.Ok? && ShapeOf(r.value) == Columnar
  {
    EndOne(Else(When(SimpleCaseBuilder(Int8(5)), Int8(9), Int8(42)), a), Int8(9), Int8(42), Int(I8));
  }

  // test_case_dshape, simple form with a column key

  lemma SimpleDshapeColumnKey(a: Expr)
    requires IsColumn(a, Int(I8))
    ensures var r := End(When(SimpleCaseBuilder(a), Int8(9), Int8(42)));
      r.Ok? && ShapeOf(r.value) == Columnar
  {
    EndOne(When(SimpleCaseBuilder(a), Int8(9), Int8(42)), Int8(9), Int8(42), Int(I8));
  }

  lemma SimpleDshapeColumnKeyAndMatch(a: Expr, b: Expr)
    requires IsColumn(a, Int(I8)) && IsColumn(b, Int(I16))
    ensures var r := End(When(SimpleCaseBuilder(a), b, Int8(42)));
      r.Ok? && ShapeOf(r.value) == Columnar
  {
    EndOne(When(SimpleCaseBuilder(a), b, Int8(42)), b, Int8(42), Int(I8));
  }

  lemma SimpleDshapeColumnKeyAndResult(a: Expr, b: Expr)
    requires IsColumn(a, Int(I8)) && IsColumn(b, Int(I16))
    ensures var r := End(When(SimpleCaseBuilder(a), Int8(9), b));
      r.Ok? && ShapeOf(r.value) == Columnar
  {
    EndOne(When(SimpleCaseBuilder(a), Int8(9), b), Int8(9), b, Int(I16));
  }

  lemma SimpleDshapeAllColumns(a: Expr, b: Expr)
    requires IsColumn(a, Int(I8)) && IsColumn(b, Int(I16))
    ensures var r := End(When(SimpleCaseBuilder(a), a, b));
      r.Ok? && ShapeOf(r.value) == Columnar
  {
    EndOne(When(SimpleCaseBuilder(a), a, b), a, b, Int(I16));
  }

  // test_case_dtype

  lemma IntegerStringHaveNoSupertype()
    ensures !HasUpperBound([Int(I8), String])
  {
    var ts := [Int(I8), String];
    forall d ensures !IsUpperBound(ts, d) {
      assert ts[0] == Int(I8) && ts[1] == String;
      assert !(Castable(Int(I8), d) && Castable(String, d));
    }
  }

  /** An integer result cannot be promoted with a string result or default. */
  lemma CaseDtypeMixedResultsRejected(s: string)
    ensures End(When(When(SearchedCaseBuilder(), Bool(true), Int8(5)), Bool(false), Str(s))) == Err(TypeMismatch)
  {
    var cb := When(When(SearchedCaseBuilder(), Bool(true), Int8(5)), Bool(false), Str(s));
    Unfold(cb, [Bool(true), Bool(false)], [Int8(5), Str(s)], [Boolean, Boolean], [Int(I8), String]);
    assert BranchTypes(cb) == [Int(I8), String];
    IntegerStringHaveNoSupertype();
    EndRejectsUnpromotable(cb);
  }

  lemma CaseDtypeMixedDefaultRejected(s: string)
    ensures End(Else(When(SearchedCaseBuilder(), Bool(true), Int8(5)), Str(s))) == Err(TypeMismatch)
  {
    var cb := Else(When(SearchedCaseBuilder(), Bool(true), Int8(5)), Str(s));
    Unfold(cb, [Bool(true)], [Int8(5)], [Boolean], [Int(I8)]);
    assert BranchTypes(cb) == [Int(I8), String];
    IntegerStringHaveNoSupertype();
    EndRejectsUnpromotable(cb);
  }

  // test_simple_case_expr

  /** The list form equals the chained builder. */
  lemma SimpleCaseListForm(a: Expr, b: Expr, c: Expr, g: Expr)
    requires IsColumn(a, Int(I8)) && IsColumn(b, Int(I16)) && IsColumn(c, Int(I32)) && IsColumn(g, String)
    ensures Cases(Lower(g), [(Str("foo"), a), (Str("bar"), c)], Some(b))
         == End(Else(When(When(SimpleCaseBuilder(Lower(g)), Str("foo"), a), Str("bar"), c), b))
  {
    CasesIsChainedBuilder(Lower(g), [(Str("foo"), a), (Str("bar"), c)], Some(b));
    var cb := Else(When(When(SimpleCaseBuilder(Lower(g)), Str("foo"), a), Str("bar"), c), b);
    assert cb == CaseBuilder(Some(Lower(g)), [(Str("foo"), a), (Str("bar"), c)], Some(b));
  }

  /** int8, int32 and int16 results promote to an integer dtype. */
  lemma SimpleCaseIntegerColumn(a: Expr, b: Expr, c: Expr, g: Expr)
    requires IsColumn(a, Int(I8)) && IsColumn(b, Int(I16)) && IsColumn(c, Int(I32)) && IsColumn(g, String)
    ensures var r := End(CaseBuilder(Some(Lower(g)), [(Str("foo"), a), (Str("bar"), c)], Some(b)));
      r.Ok? && TypeOf(r.value) == Ok(Int(I32)) && ShapeOf(r.value) == Columnar
  {
    ColumnFacts(a, Int(I8));
    ColumnFacts(b, Int(I16));
    ColumnFacts(c, Int(I32));
    ColumnFacts(g, String);
    var cb := CaseBuilder(Some(Lower(g)), [(Str("foo"), a), (Str("bar"), c)], Some(b));
    assert TypeOf(Lower(g)) == Ok(String);
    assert HighestPrecedence([Int(I8), Int(I32), Int(I16)]) == Ok(Int(I32));
    EndOk(cb, [Str("foo"), Str("bar")], [a, c], [String, String], [Int(I8), Int(I32)], Int(I32));
    NodeShape(cb);
  }

  // test_multiple_case_expr

  lemma MultipleCasePromotion()
    ensures HighestPrecedence([Float(F64), Int(I16), Float(F32), Int(I64)]) == Ok(Float(F64))
  {
    assert Join(Float(F64), Int(I16)) == Ok(Float(F64));
    assert Join(Float(F64), Float(F32)) == Ok(Float(F64));
    assert Join(Float(F64), Int(I64)) == Ok(Float(F64));
    assert Promote(Float(F64), [Int(I64)]) == Ok(Float(F64));
    assert [Int(I16), Float(F32), Int(I64)][1..] == [Float(F32), Int(I64)];
    assert [Float(F32), Int(I64)][1..] == [Int(I64)];
  }

  /** The columns of the alltypes table that the multiple-case test uses. */
  predicate AllTypes(a: Expr, b: Expr, c: Expr, d: Expr, e: Expr, f: Expr) {
    && IsColumn(a, Int(I8)) && IsColumn(b, Int(I16)) && IsColumn(c, Int(I32))
    && IsColumn(d, Int(I64)) && IsColumn(e, Float(F32)) && IsColumn(f, Float(F64))
  }

  /** The builder of the test, with its clauses spelled out. */
  function MultipleCase(a: Expr, b: Expr, c: Expr, d: Expr, e: Expr, f: Expr): CaseBuilder {
    CaseBuilder(None, [(Equals(a, Int8(5)), f), (Equals(b, Int16(128)), Multiply(b, Int8(2))),
                       (Equals(c, Int16(1000)), e)], Some(d))
  }

  lemma MultipleCaseChained(a: Expr, b: Expr, c: Expr, d: Expr, e: Expr, f: Expr)
    ensures Else(When(When(When(SearchedCaseBuilder(),
                 Equals(a, Int8(5)), f),
                 Equals(b, Int16(128)), Multiply(b, Int8(2))),
                 Equals(c, Int16(1000)), e), d) == MultipleCase(a, b, c, d, e, f)
  {
  }

  lemma MultipleCaseConditionTypes(a: Expr, b: Expr, c: Expr)
    requires IsColumn(a, Int(I8)) && IsColumn(b, Int(I16)) && IsColumn(c, Int(I32))
    ensures TypeOf(Equals(a, Int8(5))) == Ok(Boolean)
    ensures TypeOf(Equals(b, Int16(128))) == Ok(Boolean)
    ensures TypeOf(Equals(c, Int16(1000))) == Ok(Boolean)
  {
  }

  lemma MultipleCaseResultTypes(b: Expr, d: Expr, e: Expr, f: Expr)
    requires IsColumn(b, Int(I16)) && IsColumn(d, Int(I64)) && IsColumn(e, Float(F32)) && IsColumn(f, Float(F64))
    ensures TypeOf(f) == Ok(Float(F64)) && TypeOf(Multiply(b, Int8(2))) == Ok(Int(I16))
    ensures TypeOf(e) == Ok(Float(F32)) && TypeOf(d) == Ok(Int(I64))
  {
  }

  /** The clauses of the multiple-case builder are boolean conditions
      with results of dtypes float64, int16 and float32. */
  lemma MultipleCaseClauses(a: Expr, b: Expr, c: Expr, d: Expr, e: Expr, f: Expr,
                            cs: seq<Expr>, rs: seq<Expr>, rts: seq<DType>)
    requires AllTypes(a, b, c, d, e, f)
    requires cs == [Equals(a, Int8(5)), Equals(b, Int16(128)), Equals(c, Int16(1000))]
    requires rs == [f, Multiply(b, Int8(2)), e] && rts == [Float(F64), Int(I16), Float(F32)]
    ensures forall i :: 0 <= i < 3 ==> MultipleCase(a, b, c, d, e, f).clauses[i] == (cs[i], rs[i])
    ensures forall i :: 0 <= i < 3 ==> TypeOf(cs[i]) == Ok(Boolean) && TypeOf(rs[i]) == Ok(rts[i])
  {
    MultipleCaseConditionTypes(a, b, c);
    MultipleCaseResultTypes(b, d, e, f);
  }

  /** Floating and integer results promote to a floating dtype; the
      searched form keeps the given default as it is. */
  lemma MultipleCaseFloating(a: Expr, b: Expr, c: Expr, d: Expr, e: Expr, f: Expr)
    requires AllTypes(a, b, c, d, e, f)
    ensures var r := End(MultipleCase(a, b, c, d, e, f));
      && r.Ok? && TypeOf(r.value) == Ok(Float(F64))
      && r.value.SearchedCase? && r.value.default == d
  {
    var cs := [Equals(a, Int8(5)), Equals(b, Int16(128)), Equals(c, Int16(1000))];
    var rs := [f, Multiply(b, Int8(2)), e];
    var rts := [Float(F64), Int(I16), Float(F32)];
    MultipleCaseClauses(a, b, c, d, e, f, cs, rs, rts);
    MultipleCasePromotion();
    assert rts + [Int(I64)] == [Float(F64), Int(I16), Float(F32), Int(I64)];
    EndOk(MultipleCase(a, b, c, d, e, f), cs, rs, [Boolean, Boolean, Boolean], rts, Float(F64));
  }

  lemma MultipleCaseColumn(a: Expr, b: Expr, c: Expr, d: Expr, e: Expr, f: Expr)
    requires AllTypes(a, b, c, d, e, f)
    ensures var r := End(MultipleCase(a, b, c, d, e, f));
      r.Ok? && ShapeOf(r.value) == Columnar
  {
    MultipleCaseFloating(a, b, c, d, e, f);
    var cb := MultipleCase(a, b, c, d, e, f);
    EndShape(cb);
    assert ShapeOf(cb.clauses[0].1) == Columnar;
  }

  // test_simple_case_null_else, test_multiple_case_null_else

  /** Without `else_` the default is a null cast to the result dtype. */
  lemma SimpleCaseNullElse(g: Expr)
    requires IsColumn(g, String)
    ensures var r := End(When(SimpleCaseBuilder(g), Str("foo"), Str("bar")));
      && r.Ok? && TypeOf(r.value) == Ok(String) && ShapeOf(r.value) == Columnar
      && r.value.default == Cast(NullLiteral, String)
  {
    EndOne(When(SimpleCaseBuilder(g), Str("foo"), Str("bar")), Str("foo"), Str("bar"), String);
  }

  lemma SearchedCaseNullElse(g: Expr)
    requires IsColumn(g, String)
    ensures var r := End(When(SearchedCaseBuilder(), Equals(g, Str("foo")), Str("bar")));
      && r.Ok? && TypeOf(r.value) == Ok(String) && ShapeOf(r.value) == Columnar
      && r.value.default == Cast(NullLiteral, String)
  {
    EndOne(When(SearchedCaseBuilder(), Equals(g, Str("foo")), Str("bar")), Equals(g, Str("foo")), Str("bar"), String);
  }

  // test_case_mixed_type

  /** The result dtype of a simple case is that of its results, whatever the
      key's dtype: an int32 key with string results is a string. */
  lemma CaseMixedType(three: Expr)
    requires IsColumn(three, Int(I32))
    ensures var r := End(Else(When(When(SimpleCaseBuilder(three),
                 Int8(0), Str("low")), Int8(1), Str("high")), Str("null")));
      r.Ok? && TypeOf(r.value) == Ok(String)
  {
    ColumnFacts(three, Int(I32));
    var cb := Else(When(When(SimpleCaseBuilder(three),
                 Int8(0), Str("low")), Int8(1), Str("high")), Str("null"));
    assert HighestPrecedence([String, String, String]) == Ok(String);
    EndOk(cb, [Int8(0), Int8(1)], [Str("low"), Str("high")], [Int(I8), Int(I8)], [String, String], String);
  }

  // test_err_on_nonbool_expr, test_err_on_noncomparable, test_err_on_empty_cases

  /** A non-boolean condition is not coerced. */
  lemma NonBooleanColumnRejected(a: Expr)
    requires IsColumn(a, Int(I8))
    ensures End(Else(When(SearchedCaseBuilder(), a, Str("bar")), Str("baz"))) == Err(SignatureValidationError)
  {
    ColumnFacts(a, Int(I8));
    var cb := Else(When(SearchedCaseBuilder(), a, Str("bar")), Str("baz"));
    Unfold(cb, [a], [Str("bar")], [Int(I8)], [String]);
    SearchedCaseRejectsNonBoolean(cb, 0);
  }

  lemma NonBooleanLiteralRejected(s: string)
    ensures End(Else(When(SearchedCaseBuilder(), Int8(1), Str(s)), Str("baz"))) == Err(SignatureValidationError)
  {
    var cb := Else(When(SearchedCaseBuilder(), Int8(1), Str(s)), Str("baz"));
    Unfold(cb, [Int8(1)], [Str(s)], [Int(I8)], [String]);
    SearchedCaseRejectsNonBoolean(cb, 0);
  }

  /** An int8 key cannot be matched against a string. */
  lemma NoncomparableRejected(a: Expr)
    requires IsColumn(a, Int(I8))
    ensures End(When(SimpleCaseBuilder(a), Str("foo"), Str("bar"))) == Err(TypeMismatch)
  {
    ColumnFacts(a, Int(I8));
    var cb := When(SimpleCaseBuilder(a), Str("foo"), Str("bar"));
    Unfold(cb, [Str("foo")], [Str("bar")], [String], [String]);
    SimpleCaseRejectsIncomparable(cb, 0);
  }

  lemma EmptyCasesRejected(a: Expr)
    requires IsColumn(a, Int(I8))
    ensures End(SearchedCaseBuilder()) == Err(SignatureValidationError)
    ensures End(Else(SearchedCaseBuilder(), Int8(42))) == Err(SignatureValidationError)
    ensures End(SimpleCaseBuilder(a)) == Err(SignatureValidationError)
    ensures End(Else(SimpleCaseBuilder(a), Int8(42))) == Err(SignatureValidationError)
  {
  }

  // test_ifelse_method, test_ifelse_function_literals, test_ifelse_function_exprs

  lemma IfElseExamples(a: Expr, b: Expr, g: Expr)
    requires IsColumn(a, Int(I8)) && IsColumn(b, Int(I16)) && IsColumn(g, String)
    ensures var r := IfElseMethod(IsNull(g), Str("foo"), Str("bar"));
      TypeOf(r) == Ok(String) && ShapeOf(r) == Columnar
    ensures IfElseFunction(PlainValue(PyBool(true)), Int8(1), Int8(2))
         == IfElseMethod(Literal(PyBool(true), Boolean), Int8(1), Int8(2))
    ensures IfElseFunction(PlainValue(PyInt(1)), Int8(1), Int8(2))
         == IfElseMethod(Literal(PyInt(1), Boolean), Int8(1), Int8(2))
    ensures IfElseFunction(ValueExpr(IsNull(g)), Int8(1), a) == IfElseMethod(IsNull(g), Int8(1), a)
    ensures IfElseFunction(ValueExpr(a), Int8(1), b) == IfElseMethod(Cast(a, Boolean), Int8(1), b)
  {
    ColumnFacts(a, Int(I8));
    ColumnFacts(g, String);
  }
}
