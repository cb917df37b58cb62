# ibis conditional expressions and the RisingWave lowering rules

This project models two small pieces of the ibis dataframe library's
expression compiler and proves properties of them in Dafny.

**Conditional expressions.** The behaviour comes from `ibis/tests/expr/test_case.py`.

- `ibis.case()` starts a searched case, whose conditions are independent boolean predicates.
- `key.case()` starts a simple case, whose match values are compared with one key.
- `.when(cond, result)` appends a clause, `.else_(default)` sets the default, and `.end()` builds the node.
- `key.cases(pairs, default)` is the list form of the simple case.
- `ibis.ifelse(cond, t, f)` and `cond.ifelse(t, f)` are the two-way conditional.

Expressions are a datatype `Expr`. `TypeOf` gives each expression its dtype, or the error
its construction raises, and `ShapeOf` gives its shape (scalar or columnar). `End` returns
the `SearchedCase` or `SimpleCase` node exactly when that node is well-typed. A small dtype
lattice (`DataTypes`) models implicit widening:

- null widens to everything;
- integers widen to wider integers and to floating types;
- float32 widens to float64.

Promotion of the branch dtypes is a left fold of the binary join, proved to be the least
upper bound of the list. Each test assertion is a lemma in `CaseExamples`.

**RisingWave lowering.** The behaviour comes from `ibis/backends/sql/compilers/risingwave.py`,
a dispatch by operation kind to a small SQL syntax tree (`SqlAst`), or to an error:

- the unsupported-operation set;
- `first`/`last`, which need an ordering;
- correlation, of which only the population form is supported;
- truncation through one unit table shared by timestamp, time and date;
- integer-to-interval conversion, which depends on the operand's shape;
- literal rendering by dtype.

Binary literals are `\xHH` escapes and dates are ISO-8601 `YYYY-MM-DD` text.
`RisingWaveLiterals` proves both encodings are bijections onto the strings their decoders
accept. An operation the dialect does not override becomes `Inherit(op)`, a hand-off to the
PostgreSQL rules it extends.

Modules:

- `Common` (common.dfy): Option, Result and the error kinds.
- `DataTypes` (datatypes.dfy): dtypes, shapes and promotion.
- `CaseExpressions` (case_expr.dfy): expressions, the builder, `End`, `Cases` and `ifelse`.
- `CaseExamples` (case_examples.dfy): the test assertions.
- `RisingWaveLiterals` (risingwave_literals.dfy): the literal encodings.
- `RisingWave` (risingwave.dfy): the lowering rules.

## Model

| member | source | states |
|---|---|---|
| DataTypes.Join | ibis/tests/expr/test_case.py:74-82 | the joined dtype is one of the two and both widen to it; otherwise a type error |
| DataTypes.Castable | ibis/tests/expr/test_case.py:74-82 | no contract (implicit widening); its properties are in CastableTransitive, CastableAntisymmetric and JoinLeast |
| DataTypes.Comparable | ibis/tests/expr/test_case.py:225-228 | no contract (either dtype widens to the other); used by SimpleCaseRejectsIncomparable and NoncomparableRejected |
| DataTypes.JoinLeast | ibis/tests/expr/test_case.py:107-156 | any common supertype of two dtypes makes the join succeed, and the join widens to it |
| DataTypes.JoinCommutative | ibis/tests/expr/test_case.py:107-156 | the join does not depend on argument order |
| DataTypes.Promote | ibis/tests/expr/test_case.py:107-156 | a successful fold is an upper bound of every dtype it folded; failure is a type error |
| DataTypes.PromoteLeast | ibis/tests/expr/test_case.py:107-156 | any upper bound of the folded dtypes makes the fold succeed, with a result that widens to it |
| DataTypes.HighestPrecedence | ibis/tests/expr/test_case.py:74-82 | a successful promotion of a list is an upper bound of it; failure is a type error |
| DataTypes.HighestPrecedenceIsLeastUpperBound | ibis/tests/expr/test_case.py:74-82 | promotion succeeds iff the dtypes have a common supertype, and then gives the least one |
| DataTypes.HighestPrecedenceOrderIndependent | ibis/tests/expr/test_case.py:107-156 | two lists with the same elements promote to the same result |
| DataTypes.CastableTransitive | ibis/tests/expr/test_case.py:107-156 | widening composes |
| DataTypes.CastableAntisymmetric | ibis/tests/expr/test_case.py:107-156 | two dtypes that widen to each other are equal |
| DataTypes.MaxShape | ibis/tests/expr/test_case.py:50-71 | the higher shape is one of the two and ranks at least as high as both |
| CaseExpressions.TypesOf | ibis/tests/expr/test_case.py:74-82 | the dtypes of a list exist iff every element is typed, and then match element by element |
| CaseExpressions.TypesOfPointwise | ibis/tests/expr/test_case.py:74-82 | a list typed element by element has exactly those dtypes |
| CaseExpressions.TypeOf | ibis/tests/expr/test_case.py:74-82 | no contract (the dtype of an expression, or the error its construction raises); its properties are in EndSucceedsIff, NodeType, IfElseFunctionType and IfElseMethodRejectsNonBoolean |
| CaseExpressions.SearchedCaseType | ibis/tests/expr/test_case.py:218-222 | no contract (the searched-case signature); its properties are in NodeType, EndSucceedsIff and SearchedCaseRejectsNonBoolean |
| CaseExpressions.SimpleCaseType | ibis/tests/expr/test_case.py:225-228 | no contract (the simple-case signature); its properties are in NodeType, EndSucceedsIff and SimpleCaseRejectsIncomparable |
| CaseExpressions.ShapeOf | ibis/tests/expr/test_case.py:50-71 | no value expression is tabular |
| CaseExpressions.ShapesOf | ibis/tests/expr/test_case.py:50-71 | a list is columnar iff some element is columnar |
| CaseExpressions.SearchedCaseBuilder | ibis/tests/expr/test_case.py:51-58 | no contract (`ibis.case()`: no key, no clauses, no default); properties in EmptyCasesRejected |
| CaseExpressions.SimpleCaseBuilder | ibis/tests/expr/test_case.py:60-71 | no contract (`key.case()`: the key, no clauses, no default); properties in EmptyCasesRejected |
| CaseExpressions.When | ibis/tests/expr/test_case.py:85-104 | appends exactly one clause at the end, keeping the key, the earlier clauses and the default |
| CaseExpressions.Else | ibis/tests/expr/test_case.py:155-158 | sets the default and keeps the key and every clause |
| CaseExpressions.Conditions | ibis/tests/expr/test_case.py:85-104 | the i-th condition is that of the i-th clause, in order |
| CaseExpressions.Results | ibis/tests/expr/test_case.py:85-104 | the i-th result is that of the i-th clause, in order |
| CaseExpressions.ResultsType | ibis/tests/expr/test_case.py:184-191 | no contract (the dtype the synthesised default is cast to); properties in SynthesizedDefaultType and EndSynthesizedDefault |
| CaseExpressions.DefaultOf | ibis/tests/expr/test_case.py:184-191 | no contract (the given default, or a cast null); properties in DefaultShape, SynthesizedDefaultType and End |
| CaseExpressions.NodeOf | ibis/tests/expr/test_case.py:155-158 | no contract (the node `end` builds); properties in End, NodeType and NodeShape |
| CaseExpressions.End | ibis/tests/expr/test_case.py:231-239 | zero clauses is a signature error; a built node is well-typed, of the builder's form, with its key, its clauses in order, and either the given default or a cast null |
| CaseExpressions.WhenAll | ibis/tests/expr/test_case.py:90-92 | no contract (appends pairs one by one); properties in WhenAllClauses |
| CaseExpressions.Cases | ibis/tests/expr/test_case.py:90-92 | no contract (`key.cases(pairs, default)`); properties in CasesIsChainedBuilder and SimpleCaseListForm |
| CaseExpressions.IfElseMethod | ibis/tests/expr/test_case.py:14-17 | no contract (`cond.ifelse(t, f)`); properties in IfElseMethodRejectsNonBoolean and IfElseExamples |
| CaseExpressions.IfElseFunction | ibis/tests/expr/test_case.py:20-39 | no contract (`ibis.ifelse(cond, t, f)`); properties in IfElseFunctionType and IfElseFunctionCondition |
| CaseExpressions.PromoteNullLast | ibis/tests/expr/test_case.py:184-202 | adding a null dtype to a non-empty list does not change its promotion |
| CaseExpressions.SynthesizedDefaultType | ibis/tests/expr/test_case.py:184-191 | the synthesised default has the promoted result dtype and leaves the promotion unchanged |
| CaseExpressions.NodeDefaultType | ibis/tests/expr/test_case.py:184-202 | the node's default is typed, and promoting it with the results gives the promotion of the branch dtypes |
| CaseExpressions.NodeType | ibis/tests/expr/test_case.py:74-82 | the node's dtype follows its form's signature over the conditions, results and default |
| CaseExpressions.EndSucceedsIff | ibis/tests/expr/test_case.py:74-82 | with typed operands, `end` succeeds iff there is a clause, the conditions are boolean (or the match values comparable with the key) and the branch dtypes have a common supertype; the dtype is then their least upper bound, whatever the key's dtype |
| CaseExpressions.SearchedCaseRejectsNonBoolean | ibis/tests/expr/test_case.py:218-222 | a searched case with any non-boolean condition is a signature error, with no coercion |
| CaseExpressions.SimpleCaseRejectsIncomparable | ibis/tests/expr/test_case.py:225-228 | a simple case with a match value not comparable with the key is a type error |
| CaseExpressions.EndRejectsUnpromotable | ibis/tests/expr/test_case.py:79-82 | branch dtypes with no common supertype are a type error once the conditions pass |
| CaseExpressions.ConditionsShape | ibis/tests/expr/test_case.py:50-71 | the conditions are columnar iff some clause's condition is |
| CaseExpressions.ResultsShape | ibis/tests/expr/test_case.py:50-71 | the results are columnar iff some clause's result is |
| CaseExpressions.DefaultShape | ibis/tests/expr/test_case.py:50-71 | the default is columnar iff a columnar default was given; the synthesised one is scalar |
| CaseExpressions.SearchedNodeShape | ibis/tests/expr/test_case.py:51-58 | a searched node is columnar iff its conditions, results or default are |
| CaseExpressions.SimpleNodeShape | ibis/tests/expr/test_case.py:60-71 | a simple node is columnar iff its key, match values, results or default are |
| CaseExpressions.NodeShape | ibis/tests/expr/test_case.py:50-71 | the node is columnar iff some ingredient of the builder is |
| CaseExpressions.EndShape | ibis/tests/expr/test_case.py:50-71 | a built case is columnar iff some key, condition, result or given default is columnar, and scalar iff none is |
| CaseExpressions.EndOkOperandsTyped | ibis/tests/expr/test_case.py:74-82 | a builder `end` accepts has a typed key, typed clauses and a typed default |
| CaseExpressions.EndSynthesizedDefault | ibis/tests/expr/test_case.py:184-191 | without `else_`, the default of any built case is a null cast to the case's own dtype |
| CaseExpressions.ResultTypesSameElements | ibis/tests/expr/test_case.py:107-156 | permuted clause lists have result dtypes with the same elements |
| CaseExpressions.EndTypeOrderIndependent | ibis/tests/expr/test_case.py:107-156 | reordering the clauses of a searched case changes neither whether it builds nor its dtype |
| CaseExpressions.WhenAllClauses | ibis/tests/expr/test_case.py:85-104 | appending a list of pairs appends them in order and keeps the key and default |
| CaseExpressions.CasesIsChainedBuilder | ibis/tests/expr/test_case.py:85-104 | `key.cases(pairs, default)` is `end` of the builder holding those pairs in order and that default |
| CaseExpressions.IfElseFunctionType | ibis/tests/expr/test_case.py:20-39 | `ibis.ifelse` never rejects its condition; its dtype is the join of the two branches |
| CaseExpressions.IfElseFunctionCondition | ibis/tests/expr/test_case.py:20-39 | `ibis.ifelse` is the method form on a boolean literal of a plain value, on a boolean expression itself, and on the cast to boolean of any other expression |
| CaseExpressions.IfElseMethodRejectsNonBoolean | ibis/tests/expr/test_case.py:14-17 | the method form rejects a non-boolean condition with a signature error (a modelling choice: the tests only show that the method exists on boolean expressions) |
| CaseExamples.CaseDshapeLiterals | ibis/tests/expr/test_case.py:51 | two boolean literal conditions with string results build a scalar string case |
| CaseExamples.CaseDshapeNullResult | ibis/tests/expr/test_case.py:52 | a null result with a string default builds a scalar string case |
| CaseExamples.CaseDshapeColumnCondition | ibis/tests/expr/test_case.py:53-55 | a column comparison as condition makes the case columnar |
| CaseExamples.CaseDshapeColumnResult | ibis/tests/expr/test_case.py:56 | a column result makes the case columnar |
| CaseExamples.CaseDshapeColumnDefault | ibis/tests/expr/test_case.py:57 | a column default makes the case columnar |
| CaseExamples.CaseDshapeColumnResultAndDefault | ibis/tests/expr/test_case.py:58 | a column result and a column default make the case columnar |
| CaseExamples.SimpleDshapeScalar | ibis/tests/expr/test_case.py:60 | a literal key with literal match and result is scalar |
| CaseExamples.SimpleDshapeScalarElse | ibis/tests/expr/test_case.py:61 | adding a literal default keeps it scalar |
| CaseExamples.SimpleDshapeColumnMatch | ibis/tests/expr/test_case.py:62 | a column match value makes a literal-key case columnar |
| CaseExamples.SimpleDshapeColumnResult | ibis/tests/expr/test_case.py:63 | a column result makes a literal-key case columnar |
| CaseExamples.SimpleDshapeColumnMatchAndResult | ibis/tests/expr/test_case.py:64 | a column match value and result make it columnar |
| CaseExamples.SimpleDshapeColumnDefault | ibis/tests/expr/test_case.py:65-67 | a column default makes a literal-key case columnar |
| CaseExamples.SimpleDshapeColumnKey | ibis/tests/expr/test_case.py:68 | a column key makes the case columnar |
| CaseExamples.SimpleDshapeColumnKeyAndMatch | ibis/tests/expr/test_case.py:69 | a column key and match value make it columnar |
| CaseExamples.SimpleDshapeColumnKeyAndResult | ibis/tests/expr/test_case.py:70 | a column key and result make it columnar |
| CaseExamples.SimpleDshapeAllColumns | ibis/tests/expr/test_case.py:71 | all-column key, match value and result make it columnar |
| CaseExamples.IntegerStringHaveNoSupertype | ibis/tests/expr/test_case.py:79-82 | no dtype is a supertype of both int8 and string |
| CaseExamples.CaseDtypeMixedResultsRejected | ibis/tests/expr/test_case.py:79-80 | an integer result with a string result is a type error |
| CaseExamples.CaseDtypeMixedDefaultRejected | ibis/tests/expr/test_case.py:81-82 | an integer result with a string default is a type error |
| CaseExamples.SimpleCaseListForm | ibis/tests/expr/test_case.py:85-103 | the list form equals the chained builder |
| CaseExamples.SimpleCaseIntegerColumn | ibis/tests/expr/test_case.py:104 | int8, int32 and int16 branches give an int32 column |
| CaseExamples.MultipleCasePromotion | ibis/tests/expr/test_case.py:107-156 | float64, int16, float32 and int64 promote to float64 |
| CaseExamples.MultipleCaseChained | ibis/tests/expr/test_case.py:108-115 | the chained builder holds the three clauses in order and the default |
| CaseExamples.MultipleCaseFloating | ibis/tests/expr/test_case.py:155-158 | the case builds, is a searched case of dtype float64, and keeps the given default as its default |
| CaseExamples.MultipleCaseColumn | ibis/tests/expr/test_case.py:156 | the case is a column |
| CaseExamples.SimpleCaseNullElse | ibis/tests/expr/test_case.py:184-191 | without `else_`, a string-column key gives a string column whose default is a null cast to string |
| CaseExamples.SearchedCaseNullElse | ibis/tests/expr/test_case.py:194-202 | without `else_`, a searched case on a string column gives a string column whose default is a null cast to string |
| CaseExamples.CaseMixedType | ibis/tests/expr/test_case.py:205-215 | an int32 key with string results gives a string case |
| CaseExamples.NonBooleanColumnRejected | ibis/tests/expr/test_case.py:219-220 | an integer column as condition is a signature error |
| CaseExamples.NonBooleanLiteralRejected | ibis/tests/expr/test_case.py:221-222 | an integer literal as condition is a signature error |
| CaseExamples.NoncomparableRejected | ibis/tests/expr/test_case.py:225-228 | matching an int8 key against a string is a type error |
| CaseExamples.EmptyCasesRejected | ibis/tests/expr/test_case.py:231-239 | both forms, with or without a default, reject zero clauses with a signature error |
| CaseExamples.IfElseExamples | ibis/tests/expr/test_case.py:14-39 | the method form on `g.isnull()` gives a string column; `ibis.ifelse` equals the method form on a boolean literal, on the boolean expression, and on the cast of a non-boolean column |
| RisingWaveLiterals.HexDigit | ibis/backends/sql/compilers/risingwave.py:92 | every nibble becomes a lowercase hex digit |
| RisingWaveLiterals.HexValue | ibis/backends/sql/compilers/risingwave.py:92 | a character is accepted iff it is a lowercase hex digit, and then it is the digit of the value read |
| RisingWaveLiterals.HexValueOfDigit | ibis/backends/sql/compilers/risingwave.py:92 | reading a nibble's digit gives the nibble |
| RisingWaveLiterals.EscapeByte | ibis/backends/sql/compilers/risingwave.py:92 | a byte's escape is a backslash, `x` and two hex digits whose value is the byte |
| RisingWaveLiterals.HexEscape | ibis/backends/sql/compilers/risingwave.py:92 | n bytes escape to 4n characters |
| RisingWaveLiterals.HexEscapeBlocks | ibis/backends/sql/compilers/risingwave.py:92 | byte i is escaped at characters 4i to 4i+3, so bytes keep their order |
| RisingWaveLiterals.HexUnescape | ibis/backends/sql/compilers/risingwave.py:92 | decoded text has four characters per byte |
| RisingWaveLiterals.UnescapeEscape | ibis/backends/sql/compilers/risingwave.py:92 | decoding the escape gives back the bytes |
| RisingWaveLiterals.EscapeOfNibbles | ibis/backends/sql/compilers/risingwave.py:92 | the escape of a byte is the digits of its high and low nibble |
| RisingWaveLiterals.EscapeOfAccepted | ibis/backends/sql/compilers/risingwave.py:92 | an escape the decoder accepts is the escape of the byte it decodes to |
| RisingWaveLiterals.UnescapeHead | ibis/backends/sql/compilers/risingwave.py:92 | decoded text starts with the escape of its first byte, and its rest decodes to the other bytes |
| RisingWaveLiterals.EscapeUnescape | ibis/backends/sql/compilers/risingwave.py:92 | escaping the decoded bytes gives back the text |
| RisingWaveLiterals.HexRoundTrip | ibis/backends/sql/compilers/risingwave.py:92 | the text decodes to the bytes iff it is their escape |
| RisingWaveLiterals.DaysInMonth | ibis/backends/sql/compilers/risingwave.py:94 | a month has 28 to 31 days, and 29 exactly for February of a leap year |
| RisingWaveLiterals.Digits | ibis/backends/sql/compilers/risingwave.py:94 | the zero-padded decimal text has exactly the width asked for, all digits |
| RisingWaveLiterals.ParseDigits | ibis/backends/sql/compilers/risingwave.py:94 | digit text reads to a value below 10 to the power of its length; only all-digit text reads |
| RisingWaveLiterals.ParseDigitsOfDigits | ibis/backends/sql/compilers/risingwave.py:94 | reading the padded text of a number gives the number |
| RisingWaveLiterals.DigitsOfParseDigits | ibis/backends/sql/compilers/risingwave.py:94 | padding a read value to the text's length gives back the text |
| RisingWaveLiterals.IsoFormat | ibis/backends/sql/compilers/risingwave.py:94 | ISO text has ten characters, dashes at positions 4 and 7, and digits elsewhere |
| RisingWaveLiterals.ParseIso | ibis/backends/sql/compilers/risingwave.py:94 | only a date that exists is read |
| RisingWaveLiterals.IsoRoundTrip | ibis/backends/sql/compilers/risingwave.py:94 | reading a date's ISO text gives the date |
| RisingWaveLiterals.IsoParseFormats | ibis/backends/sql/compilers/risingwave.py:94 | the ISO text of a date read from text is that text |
| RisingWaveLiterals.IsoFormatInjective | ibis/backends/sql/compilers/risingwave.py:94 | distinct dates have distinct ISO texts |
| RisingWave.VisitDateNow | ibis/backends/sql/compilers/risingwave.py:35-36 | the current date is `CURRENT_TIMESTAMP` cast to date |
| RisingWave.VisitFirst | ibis/backends/sql/compilers/risingwave.py:38-43 | succeeds iff an ordering is given, and then calls `first_value` with the same argument, filter and ordering; otherwise an unsupported-operation error |
| RisingWave.VisitLast | ibis/backends/sql/compilers/risingwave.py:45-50 | succeeds iff an ordering is given, and then calls `last_value` with the same argument, filter and ordering; otherwise an unsupported-operation error |
| RisingWave.VisitCorrelation | ibis/backends/sql/compilers/risingwave.py:52-59 | succeeds iff the mode is population, and then hands the operation on unchanged; sample mode is unsupported |
| RisingWave.VisitTruncate | ibis/backends/sql/compilers/risingwave.py:61-78 | succeeds iff the unit's code is in the table, and then calls `date_trunc` with the table's name and the argument; otherwise unsupported |
| RisingWave.VisitIntervalFromInteger | ibis/backends/sql/compilers/risingwave.py:82-88 | a scalar becomes an interval of the unit, a column is multiplied by a one-unit interval, and any other shape is a shape error |
| RisingWave.VisitNonNullLiteral | ibis/backends/sql/compilers/risingwave.py:90-97 | binary, date and JSON are rendered (escaped text cast to binary, ISO text cast to date, the JSON text as a string) and every other dtype is handed back |
| RisingWave.Compile | ibis/backends/sql/compilers/risingwave.py:21-33 | every unsupported operation fails with an unsupported-operation error; every operation handed on is handed on unchanged, as is every kind the dialect does not override |
| RisingWave.EmitOf | ibis/backends/sql/compilers/risingwave.py:61-97 | keeps a handler's success or its error |
| RisingWave.CompileFailsIff | ibis/backends/sql/compilers/risingwave.py:21-97 | lowering fails iff the operation is unsupported, `first`/`last` lack an ordering, the correlation is sample, the truncation unit is nanosecond, or the interval operand is tabular; only the last is a shape error |
| RisingWave.FirstLastSymmetric | ibis/backends/sql/compilers/risingwave.py:38-50 | `first` and `last` accept the same operands and differ only in the function name |
| RisingWave.IsUnsupported | ibis/backends/sql/compilers/risingwave.py:21-33 | no contract (the four named kinds and the three geospatial families); properties in Compile and CompileFailsIff |
| RisingWave.TruncateUnitsCovered | ibis/backends/sql/compilers/risingwave.py:62-76 | every unit but the nanosecond is in the table |
| RisingWave.TruncateUnitsKeys | ibis/backends/sql/compilers/risingwave.py:62-73 | every key of the unit table `TruncateUnits` is the code of a unit other than the nanosecond |
| RisingWave.TruncateNameIsUnitName | ibis/backends/sql/compilers/risingwave.py:62-73 | the name the table gives a unit is the unit's lower-case name, plural for milli- and microseconds |
| RisingWave.CalendarUnitNames | ibis/backends/sql/compilers/risingwave.py:63-67 | the same for year, quarter, month, week and day |
| RisingWave.ClockUnitNames | ibis/backends/sql/compilers/risingwave.py:68-72 | the same for hour, minute, second, millisecond and microsecond |
| RisingWave.TruncateNamesDistinct | ibis/backends/sql/compilers/risingwave.py:62-73 | distinct units never truncate to the same name |
| RisingWave.TruncationsShareHandler | ibis/backends/sql/compilers/risingwave.py:80 | timestamp, time and date truncation lower identically, through the one handler |
| RisingWave.IntValue | ibis/backends/sql/compilers/risingwave.py:82-88 | an integer literal denotes its value |
| RisingWave.IntervalFormsAgree | ibis/backends/sql/compilers/risingwave.py:82-88 | the scalar and the columnar forms both denote n units of the requested unit |
| RisingWave.BinaryLiteralDecodes | ibis/backends/sql/compilers/risingwave.py:91-92 | a binary literal is a cast to binary of text four characters per byte, which decodes to the bytes |
| RisingWave.DateLiteralDecodes | ibis/backends/sql/compilers/risingwave.py:93-94 | a date literal is a cast to date of text that parses back to the date |
| RisingWave.LiteralEncodingInjective | ibis/backends/sql/compilers/risingwave.py:91-94 | distinct binary values, and distinct dates, render to distinct SQL |
| RisingWave.LiteralLowering | ibis/backends/sql/compilers/risingwave.py:90-97 | a literal never fails to lower, and the dialect renders it itself iff it is binary, date or JSON |
| RisingWave.LiteralExamples | ibis/backends/sql/compilers/risingwave.py:90-97 | bytes 0x00 0xff escape to `\x00\xff`, 29 February 2024 is `2024-02-29`, a JSON text is kept verbatim, and 29 February 2023 does not exist |

## Left out

- The SQL syntax tree library and its printer are not modelled. Lowering produces a small `SqlAst` datatype, and no SQL text is printed.
- The PostgreSQL compiler that RisingWave extends, including the parent correlation rule, is not modelled. Handing an operation on is the constructor `Inherit(op)`.
- The reflection over all operation classes that fills the unsupported set is not modelled. It is a closed `Op` datatype: the geospatial unary and binary families are constructors carrying the member's name, and the union is one constructor. Every other kind is `OtherOp`.
- The RisingWave type mapper and dialect objects are configuration and are not modelled.
- Error message text is not modelled, only the error kind.
- The compiler singleton at the end of risingwave.py is just an instance and is not modelled.
- Deferred `_` expressions, `resolve`, `repr` strings and the pickle round trip (test_case.py:42-47, 117-153, 161-181, 196) are not modelled. They are API binding and serialisation, not case semantics.
- The ibis operation classes behind `SearchedCase`, `SimpleCase` and the builder are not part of this model. The model follows the tests:
  - `when` and `else_` never fail;
  - every check happens in `end`, which builds the node and validates it through `TypeOf`.

  The tests wrap whole chains, so they cannot observe when a check runs.
- The `alltypes` test table is not part of this model. The examples state each assertion for every column of the dtype the table gives it. Some of them are also stated for every string in place of one of the string literals; the others keep the test's literals.
- Dtype inference of Python literals is not modelled. The examples write literals with the narrowest integer dtype that holds them (ibis's rule).
- DataTypes.Join: the lattice covers only what the tests exercise:
  - null;
  - boolean;
  - signed integer and floating widths;
  - string, binary, date, time, timestamp, interval and JSON as unrelated tags.

  Unsigned, decimal, nested and nullable dtypes are not modelled. On this lattice, two dtypes with a common supertype always widen one to the other, so the join is whichever of the two the other widens to.
- CaseExpressions.TypeOf: `Lower`, `IsNull`, `Equals`, `Multiply` and `Cast` have only the typing the tests need. Explicit casts are never rejected.
- RisingWave.Compile: an operation's operands arrive already lowered, as in the source. The one operand IR property read, the shape for `IntervalFromInteger`, is a field of the operation.
- RisingWave.VisitTruncate: whether a unit is valid for a time or a date operand is checked by the operation classes, which are not part of this model. The table is applied to every unit.
- RisingWave.VisitNonNullLiteral: the JSON value is modelled as its text. `str()` of a non-string JSON value is not modelled.
- RisingWave.LowerChar: `LowerChar` and `Lower` (ASCII lower-casing) are defined by the model, not taken from the source. They serve to state that the unit table gives each unit its own name.
- RisingWave.IntValue: `IntValue` and `IntervalValue` are a small denotational semantics of the emitted SQL. They are defined by the model rather than taken from the source, and serve to state that both interval forms mean the same thing.
