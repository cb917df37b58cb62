/** The RisingWave SQL compiler: the lowering rules by which the RisingWave
    dialect departs from the PostgreSQL compiler it extends.

    A visitor receives the operation with its operands already lowered to
    SQL, so the operands of `Op` are `SqlAst` values; the one visitor that
    inspects an operand's IR node, `IntervalFromInteger`, also receives
    that operand's shape. Every operation the dialect does not override is
    left to the inherited rules, which are not part of this model. */
module RisingWave {
  import opened Common
  import opened DataTypes
  import L = RisingWaveLiterals

  /** The small SQL syntax tree the rules emit. */
  datatype SqlAst =
    | Column(name: string)
    | StringLit(text: string)
    | IntLit(value: int)
    | CastTo(arg: SqlAst, to: DType)
    | CurrentTimestamp
    | Func(fn: string, args: seq<SqlAst>)
    | Aggregate(fn: string, arg: SqlAst, where: Option<SqlAst>, orderBy: seq<SqlAst>)
    | IntervalOf(amount: SqlAst, unit: string)
    | Mul(left: SqlAst, right: SqlAst)

  /** The temporal units; `Short` is the unit's code, `Name` its name. */
  datatype TemporalUnit =
    | Year | Quarter | Month | Week | Day
    | Hour | Minute | Second | Millisecond | Microsecond | Nanosecond

  function Short(u: TemporalUnit): string {
    match u
    case Year => "Y"
    case Quarter => "Q"
    case Month => "M"
    case Week => "W"
    case Day => "D"
    case Hour => "h"
    case Minute => "m"
    case Second => "s"
    case Millisecond => "ms"
    case Microsecond => "us"
    case Nanosecond => "ns"
  }

  function Name(u: TemporalUnit): string {
    match u
    case Year => "YEAR"
    case Quarter => "QUARTER"
    case Month => "MONTH"
    case Week => "WEEK"
    case Day => "DAY"
    case Hour => "HOUR"
    case Minute => "MINUTE"
    case Second => "SECOND"
    case Millisecond => "MILLISECOND"
    case Microsecond => "MICROSECOND"
    case Nanosecond => "NANOSECOND"
  }

  datatype CorrelationMode = Sample | Pop

  /** A literal's Python value, for the dtypes the dialect renders itself;
      every other value is opaque here. */
  datatype LiteralValue =
    | BytesValue(bytes: seq<L.uint8>)
    | DateValue(date: L.CalendarDate)
    | JsonValue(text: string)
    | OtherValue

  /** The operation kinds the dialect treats specially, plus a catch-all
      for every other kind. The geospatial families are identified by
      their member's name. */
  datatype Op =
    | Arbitrary
    | DateFromYMD
    | Mode
    | RandomUUID
    | GeoSpatialUnOp(geoName: string)
    | GeoSpatialBinOp(geoName: string)
    | GeoUnaryUnion
    | DateNow
    | First(arg: SqlAst, where: Option<SqlAst>, orderBy: seq<SqlAst>)
    | Last(arg: SqlAst, where: Option<SqlAst>, orderBy: seq<SqlAst>)
    | Correlation(left: SqlAst, right: SqlAst, how: CorrelationMode, where: Option<SqlAst>)
    | TimestampTruncate(arg: SqlAst, unit: TemporalUnit)
    | TimeTruncate(arg: SqlAst, unit: TemporalUnit)
    | DateTruncate(arg: SqlAst, unit: TemporalUnit)
    | IntervalFromInteger(arg: SqlAst, argShape: Shape, unit: TemporalUnit)
    | NonNullLiteral(value: LiteralValue, dtype: DType)
    | OtherOp(kind: string)

  /** The outcome of a lowering that does not fail: SQL the dialect emits
      itself, or the operation handed on unchanged to the inherited
      PostgreSQL rule (and, for literals, to the generic renderer). */
  datatype Lowering = Emit(sql: SqlAst) | Inherit(op: Op)

  /** The unsupported-operation set: four named kinds and every member of
      the geospatial unary, binary and union families. */
  predicate IsUnsupported(op: Op) {
    || op.Arbitrary? || op.DateFromYMD? || op.Mode? || op.RandomUUID?
    || op.GeoSpatialUnOp? || op.GeoSpatialBinOp? || op.GeoUnaryUnion?
  }

  /** `CURRENT_TIMESTAMP` cast to a date. */
  function VisitDateNow(): (r: SqlAst)
    ensures r.CastTo? && r.arg == CurrentTimestamp && r.to == Date
  {
    CastTo(CurrentTimestamp, Date)
  }

  /** `first_value`, which RisingWave accepts only with an ordering. */
  function VisitFirst(arg: SqlAst, where: Option<SqlAst>, orderBy: seq<SqlAst>): (r: Result<SqlAst, Error>)
    ensures r.Ok? <==> |orderBy| > 0
    ensures r.Err? ==> r.error == UnsupportedOperation
    ensures r.Ok? ==> r.value == Aggregate("first_value", arg, where, orderBy)
  {
    if |orderBy| == 0 then Err(UnsupportedOperation)
    else Ok(Aggregate("first_value", arg, where, orderBy))
  }

  /** `last_value`, which RisingWave accepts only with an ordering. */
  function VisitLast(arg: SqlAst, where: Option<SqlAst>, orderBy: seq<SqlAst>): (r: Result<SqlAst, Error>)
    ensures r.Ok? <==> |orderBy| > 0
    ensures r.Err? ==> r.error == UnsupportedOperation
    ensures r.Ok? ==> r.value == Aggregate("last_value", arg, where, orderBy)
  {
    if |orderBy| == 0 then Err(UnsupportedOperation)
    else Ok(Aggregate("last_value", arg, where, orderBy))
  }

  /** Only the population correlation coefficient exists in RisingWave;
      the dialect hands that one on, operands unchanged. */
  function VisitCorrelation(left: SqlAst, right: SqlAst, how: CorrelationMode, where: Option<SqlAst>): (r: Result<Lowering, Error>)
    ensures r.Ok? <==> how.Pop?
    ensures r.Err? ==> r.error == UnsupportedOperation
    ensures r.Ok? ==> r.value == Inherit(Correlation(left, right, how, where))
  {
    if how.Sample? then Err(UnsupportedOperation)
    else Ok(Inherit(Correlation(left, right, how, where)))
  }

  /** The truncation units RisingWave's `date_trunc` knows, keyed by the
      unit's code, with the name `date_trunc` expects. */
  const TruncateUnits: map<string, string> := map[
    "Y" := "year",
    "Q" := "quarter",
    "M" := "month",
    "W" := "week",
    "D" := "day",
    "h" := "hour",
    "m" := "minute",
    "s" := "second",
    "ms" := "milliseconds",
    "us" := "microseconds"
  ]

  /** The one handler shared by timestamp, time and date truncation:
      `date_trunc('<name>', arg)`, or an error for a unit without a name. */
  function VisitTruncate(arg: SqlAst, unit: TemporalUnit): (r: Result<SqlAst, Error>)
    ensures r.Ok? <==> Short(unit) in TruncateUnits
    ensures r.Err? ==> r.error == UnsupportedOperation
    ensures r.Ok? ==> r.value == Func("date_trunc", [StringLit(TruncateUnits[Short(unit)]), arg])
  {
    if Short(unit) !in TruncateUnits then Err(UnsupportedOperation)
    else Ok(Func("date_trunc", [StringLit(TruncateUnits[Short(unit)]), arg]))
  }

  /** An integer turned into an interval: a scalar becomes an interval
      literal, a column is multiplied by a one-unit interval. */
  function VisitIntervalFromInteger(arg: SqlAst, argShape: Shape, unit: TemporalUnit): (r: Result<SqlAst, Error>)
    ensures r.Ok? <==> argShape != Tabular
    ensures r.Err? ==> r.error == InvalidShape
    ensures argShape == Scalar ==> r == Ok(IntervalOf(arg, Name(unit)))
    ensures argShape == Columnar ==> r == Ok(Mul(arg, IntervalOf(IntLit(1), Name(unit))))
  {
    match argShape
    case Scalar => Ok(IntervalOf(arg, Name(unit)))
    case Columnar => Ok(Mul(arg, IntervalOf(IntLit(1), Name(unit))))
    case Tabular => Err(InvalidShape)
  }

  /** The value of a literal has the Python type of its dtype. */
  predicate Conforms(value: LiteralValue, dtype: DType) {
    && (dtype == Binary ==> value.BytesValue?)
    && (dtype == Date ==> value.DateValue? && L.ValidDate(value.date))
    && (dtype == Json ==> value.JsonValue?)
  }

  /** The literals the dialect renders itself: binary as the cast of its
      escaped text, a date as the cast of its ISO text, JSON as a string
      literal of its text. `None` hands any other dtype back to the
      generic literal rendering. */
  function VisitNonNullLiteral(value: LiteralValue, dtype: DType): (r: Option<SqlAst>)
    requires Conforms(value, dtype)
    ensures r.None? <==> dtype !in {Binary, Date, Json}
    ensures dtype == Binary ==> r == Some(CastTo(StringLit(L.HexEscape(value.bytes)), Binary))
    ensures dtype == Date ==> r == Some(CastTo(StringLit(L.IsoFormat(value.date)), Date))
    ensures dtype == Json ==> r == Some(StringLit(value.text))
  {
    if dtype == Binary then Some(CastTo(StringLit(L.HexEscape(value.bytes)), Binary))
    else if dtype == Date then Some(CastTo(StringLit(L.IsoFormat(value.date)), dtype))
    else if dtype == Json then Some(StringLit(value.text))
    else None
  }

  predicate WellFormed(op: Op) {
    op.NonNullLiteral? ==> Conforms(op.value, op.dtype)
  }

  /** The dialect's dispatch over operation kinds. */
  function Compile(op: Op): (r: Result<Lowering, Error>)
    requires WellFormed(op)
    ensures IsUnsupported(op) ==> r == Err(UnsupportedOperation)
    ensures op.OtherOp? ==> r == Ok(Inherit(op))
    ensures r.Ok? && r.value.Inherit? ==> r.value.op == op
  {
    if IsUnsupported(op) then Err(UnsupportedOperation)
    else match op
      case DateNow => Ok(Emit(VisitDateNow()))
      case First(arg, where, orderBy) => EmitOf(VisitFirst(arg, where, orderBy))
      case Last(arg, where, orderBy) => EmitOf(VisitLast(arg, where, orderBy))
      case Correlation(left, right, how, where) => VisitCorrelation(left, right, how, where)
      case TimestampTruncate(arg, unit) => EmitOf(VisitTruncate(arg, unit))
      case TimeTruncate(arg, unit) => EmitOf(VisitTruncate(arg, unit))
      case DateTruncate(arg, unit) => EmitOf(VisitTruncate(arg, unit))
      case IntervalFromInteger(arg, argShape, unit) => EmitOf(VisitIntervalFromInteger(arg, argShape, unit))
      case NonNullLiteral(value, dtype) =>
        (match VisitNonNullLiteral(value, dtype)
         case Some(sql) => Ok(Emit(sql))
         case None => Ok(Inherit(op)))
      case _ => Ok(Inherit(op))
  }

  function EmitOf(r: Result<SqlAst, Error>): (l: Result<Lowering, Error>)
    ensures l.Ok? <==> r.Ok?
    ensures l.Ok? ==> l.value == Emit(r.value)
    ensures l.Err? ==> l.error == r.error
  {
    match r
    case Ok(sql) => Ok(Emit(sql))
    case Err(e) => Err(e)
  }

  // ---------------------------------------------------------------
  // Properties of the lowering rules
  // ---------------------------------------------------------------

  /** An ordered-aggregate operation without its ordering. */
  predicate MissingOrdering(op: Op) {
    (op.First? || op.Last?) && |op.orderBy| == 0
  }

  predicate IsTruncate(op: Op) {
    op.TimestampTruncate? || op.TimeTruncate? || op.DateTruncate?
  }

  /** Lowering fails exactly for the unsupported set, an unordered
      `first`/`last`, sample correlation, nanosecond truncation and an
      interval from a table-shaped operand; only the last is a shape error. */
  lemma CompileFailsIff(op: Op)
    requires WellFormed(op)
    ensures Compile(op).Err? <==>
      || IsUnsupported(op)
      || MissingOrdering(op)
      || (op.Correlation? && op.how.Sample?)
      || (IsTruncate(op) && op.unit == Nanosecond)
      || (op.IntervalFromInteger? && op.argShape == Tabular)
    ensures Compile(op).Err? ==>
      (Compile(op).error == InvalidShape <==> op.IntervalFromInteger? && op.argShape == Tabular)
    ensures Compile(op).Err? ==> Compile(op).error in {UnsupportedOperation, InvalidShape}
  {
    if IsTruncate(op) {
      TruncateUnitsCovered(op.unit);
    }
  }

  /** `first` and `last` accept and reject the same operands and differ
      only in the aggregate function they call. */
  lemma FirstLastSymmetric(arg: SqlAst, where: Option<SqlAst>, orderBy: seq<SqlAst>)
    ensures VisitFirst(arg, where, orderBy).Ok? <==> VisitLast(arg, where, orderBy).Ok?
    ensures VisitFirst(arg, where, orderBy).Ok? ==>
      VisitLast(arg, where, orderBy).value == VisitFirst(arg, where, orderBy).value.(fn := "last_value")
  {
  }

  /** ASCII upper case to lower case; other characters are kept. */
  function LowerChar(c: char): (r: char)
    ensures 'A' <= c <= 'Z' ==> 'a' <= r <= 'z' && r as int == c as int + 32
    ensures !('A' <= c <= 'Z') ==> r == c
  {
    if 'A' <= c <= 'Z' then (c as int + 32) as char else c
  }

  function Lower(s: string): (r: string)
    ensures |r| == |s|
  {
    seq(|s|, i requires 0 <= i < |s| => LowerChar(s[i]))
  }

  /** The sub-second units are named in the plural by `date_trunc`. */
  function PluralSuffix(u: TemporalUnit): string {
    if u == Millisecond || u == Microsecond then "s" else ""
  }

  /** Every unit but the nanosecond can be truncated to. */
  lemma TruncateUnitsCovered(u: TemporalUnit)
    ensures Short(u) in TruncateUnits <==> u != Nanosecond
  {
  }

  /** The table holds nothing but unit codes: each key is the code of a
      unit other than the nanosecond. */
  lemma TruncateUnitsKeys(k: string)
    requires k in TruncateUnits
    ensures exists u :: u != Nanosecond && Short(u) == k
  {
    if k == "Y" { assert Short(Year) == k; }
    else if k == "Q" { assert Short(Quarter) == k; }
    else if k == "M" { assert Short(Month) == k; }
    else if k == "W" { assert Short(Week) == k; }
    else if k == "D" { assert Short(Day) == k; }
    else if k == "h" { assert Short(Hour) == k; }
    else if k == "m" { assert Short(Minute) == k; }
    else if k == "s" { assert Short(Second) == k; }
    else if k == "ms" { assert Short(Millisecond) == k; }
    else { assert Short(Microsecond) == k; }
  }

  /** The name `date_trunc` receives is the unit's own name in lower case,
      in the plural for the sub-second units. */
  lemma TruncateNameIsUnitName(u: TemporalUnit)
    requires u != Nanosecond
    ensures Short(u) in TruncateUnits
    ensures TruncateUnits[Short(u)] == Lower(Name(u)) + PluralSuffix(u)
  {
    if u.Year? || u.Quarter? || u.Month? || u.Week? || u.Day? {
      CalendarUnitNames(u);
    } else {
      ClockUnitNames(u);
    }
  }

  lemma CalendarUnitNames(u: TemporalUnit)
    requires u.Year? || u.Quarter? || u.Month? || u.Week? || u.Day?
    ensures Short(u) in TruncateUnits
    ensures TruncateUnits[Short(u)] == Lower(Name(u)) + PluralSuffix(u)
  {
    match u
    case Year =>
      assert Lower("YEAR") == "year";
      assert TruncateUnits["Y"] == "year";
    case Quarter =>
      assert Lower("QUARTER") == "quarter";
      assert TruncateUnits["Q"] == "quarter";
    case Month =>
      assert Lower("MONTH") == "month";
      assert TruncateUnits["M"] == "month";
    case Week =>
      assert Lower("WEEK") == "week";
      assert TruncateUnits["W"] == "week";
    case Day =>
      assert Lower("DAY") == "day";
      assert TruncateUnits["D"] == "day";
  }

  lemma ClockUnitNames(u: TemporalUnit)
    requires u.Hour? || u.Minute? || u.Second? || u.Millisecond? || u.Microsecond?
    ensures Short(u) in TruncateUnits
    ensures TruncateUnits[Short(u)] == Lower(Name(u)) + PluralSuffix(u)
  {
    match u
    case Hour =>
      assert Lower("HOUR") == "hour";
      assert TruncateUnits["h"] == "hour";
    case Minute =>
      assert Lower("MINUTE") == "minute";
      assert TruncateUnits["m"] == "minute";
    case Second =>
      assert Lower("SECOND") == "second";
      assert TruncateUnits["s"] == "second";
    case Millisecond =>
      assert Lower("MILLISECOND") + "s" == "milliseconds";
      assert TruncateUnits["ms"] == "milliseconds";
    case Microsecond =>
      assert Lower("MICROSECOND") + "s" == "microseconds";
      assert TruncateUnits["us"] == "microseconds";
  }

  /** Distinct units never truncate to the same name. */
  lemma TruncateNamesDistinct(u: TemporalUnit, v: TemporalUnit)
    requires Short(u) in TruncateUnits && Short(v) in TruncateUnits
    requires TruncateUnits[Short(u)] == TruncateUnits[Short(v)]
    ensures u == v
  {
  }

  /** Timestamp, time and date truncation lower identically. */
  lemma TruncationsShareHandler(arg: SqlAst, u: TemporalUnit)
    ensures Compile(TimestampTruncate(arg, u)) == Compile(TimeTruncate(arg, u))
    ensures Compile(TimeTruncate(arg, u)) == Compile(DateTruncate(arg, u))
    ensures Compile(DateTruncate(arg, u)) == EmitOf(VisitTruncate(arg, u))
  {
  }

  /** The integer an integer-valued SQL term denotes, given the values of
      the columns of the current row. */
  function IntValue(e: SqlAst, row: map<string, int>): (r: Option<int>)
    ensures e.IntLit? ==> r == Some(e.value)
  {
    match e
    case IntLit(v) => Some(v)
    case Column(name) => if name in row then Some(row[name]) else None
    case _ => None
  }

  /** The interval (a count of units) an interval-valued SQL term denotes:
      an interval literal, or an integer times an interval. */
  function IntervalValue(e: SqlAst, row: map<string, int>): (r: Option<(int, string)>)
  {
    match e
    case IntervalOf(amount, unit) =>
      (match IntValue(amount, row)
       case Some(n) => Some((n, unit))
       case None => None)
    case Mul(left, right) =>
      (match (IntValue(left, row), IntervalValue(right, row))
       case (Some(k), Some((n, unit))) => Some((k * n, unit))
       case _ => None)
    case _ => None
  }

  /** The scalar and the columnar lowering denote the same interval: `n`
      units of the requested unit. */
  lemma IntervalFormsAgree(arg: SqlAst, unit: TemporalUnit, row: map<string, int>, n: int)
    requires IntValue(arg, row) == Some(n)
    ensures IntervalValue(VisitIntervalFromInteger(arg, Scalar, unit).value, row) == Some((n, Name(unit)))
    ensures IntervalValue(VisitIntervalFromInteger(arg, Columnar, unit).value, row) == Some((n, Name(unit)))
  {
    assert IntervalValue(IntervalOf(IntLit(1), Name(unit)), row) == Some((1, Name(unit)));
  }

  /** A binary literal is the cast to binary of a text of four characters
      per byte, from which the bytes are recovered. */
  lemma BinaryLiteralDecodes(bytes: seq<L.uint8>)
    ensures var r := VisitNonNullLiteral(BytesValue(bytes), Binary);
      && r.Some? && r.value.CastTo? && r.value.to == Binary && r.value.arg.StringLit?
      && |r.value.arg.text| == 4 * |bytes|
      && L.HexUnescape(r.value.arg.text) == Some(bytes)
  {
    L.UnescapeEscape(bytes);
  }

  /** A date literal is the cast to date of a text that parses back to the
      same date. */
  lemma DateLiteralDecodes(d: L.CalendarDate)
    requires L.ValidDate(d)
    ensures var r := VisitNonNullLiteral(DateValue(d), Date);
      && r.Some? && r.value.CastTo? && r.value.to == Date && r.value.arg.StringLit?
      && L.ParseIso(r.value.arg.text) == Some(d)
  {
    L.IsoRoundTrip(d);
  }

  /** Distinct binary values, and distinct dates, never render as the same
      SQL. */
  lemma LiteralEncodingInjective(v: LiteralValue, w: LiteralValue, dtype: DType)
    requires dtype == Binary || dtype == Date
    requires Conforms(v, dtype) && Conforms(w, dtype)
    requires VisitNonNullLiteral(v, dtype) == VisitNonNullLiteral(w, dtype)
    ensures v == w
  {
    if dtype == Binary {
      BinaryLiteralDecodes(v.bytes);
      BinaryLiteralDecodes(w.bytes);
    } else {
      DateLiteralDecodes(v.date);
      DateLiteralDecodes(w.date);
    }
  }

  /** A literal never fails to lower: the dialect emits binary, date and
      JSON literals itself and hands every other one on unchanged. */
  lemma LiteralLowering(value: LiteralValue, dtype: DType)
    requires Conforms(value, dtype)
    ensures Compile(NonNullLiteral(value, dtype)).Ok?
    ensures Compile(NonNullLiteral(value, dtype)).value.Emit? <==> dtype in {Binary, Date, Json}
  {
  }

  /** The two bytes 0x00 and 0xff, a leap day, and a JSON text. */
  lemma LiteralExamples()
    ensures L.HexEscape([0, 255]) == "\\x00\\xff"
    ensures L.IsoFormat(L.CalendarDate(2024, 2, 29)) == "2024-02-29"
    ensures VisitNonNullLiteral(JsonValue("{\"a\": 1}"), Json) == Some(StringLit("{\"a\": 1}"))
    ensures !L.ValidDate(L.CalendarDate(2023, 2, 29))
  {
    assert L.HexEscape([0, 255]) == L.EscapeByte(0) + L.EscapeByte(255);
  }
}
