/** Value types (dtypes), cardinality tags (shapes) and the promotion rule
    that unifies the result types of a conditional expression.

    Only the part of the lattice the case-expression tests exercise is
    modelled: equal types, null below everything, integer widths, integers
    below floating types and floating widths. Any other pair has no common
    supertype, so promoting it is a type error. */
module DataTypes {
  import opened Common

  datatype IntWidth = I8 | I16 | I32 | I64
  datatype FloatWidth = F32 | F64

  datatype DType =
    | Null
    | Boolean
    | Int(width: IntWidth)
    | Float(precision: FloatWidth)
    | String
    | Binary
    | Date
    | Time
    | Timestamp
    | Interval
    | Json

  function IntBits(w: IntWidth): nat {
    match w
    case I8 => 8
    case I16 => 16
    case I32 => 32
    case I64 => 64
  }

  function FloatBits(w: FloatWidth): nat {
    match w
    case F32 => 32
    case F64 => 64
  }

  /** Implicit widening: a value of dtype `a` may be used where `b` is
      expected without an explicit cast. */
  predicate Castable(a: DType, b: DType) {
    || a == b
    || a == Null
    || (a.Int? && b.Int? && IntBits(a.width) <= IntBits(b.width))
    || (a.Int? && b.Float?)
    || (a.Float? && b.Float? && FloatBits(a.precision) <= FloatBits(b.precision))
  }

  /** Two dtypes are comparable when either widens to the other. */
  predicate Comparable(a: DType, b: DType) {
    Castable(a, b) || Castable(b, a)
  }

  predicate IsUpperBound(ts: seq<DType>, u: DType) {
    forall i :: 0 <= i < |ts| ==> Castable(ts[i], u)
  }

  ghost predicate HasUpperBound(ts: seq<DType>) {
    exists u :: IsUpperBound(ts, u)
  }

  ghost predicate IsLeastUpperBound(ts: seq<DType>, u: DType) {
    && IsUpperBound(ts, u)
    && forall d :: IsUpperBound(ts, d) ==> Castable(u, d)
  }

  /** The higher-precedence dtype of two: the one the other widens to, or
      a type error when neither widens to the other. On this lattice two
      dtypes with a common supertype always widen one to the other. */
  function Join(a: DType, b: DType): (r: Result<DType, Error>)
    ensures r.Ok? ==> Castable(a, r.value) && Castable(b, r.value)
    ensures r.Ok? ==> r.value == a || r.value == b
    ensures r.Err? ==> r.error == TypeMismatch
  {
    if Castable(a, b) then Ok(b)
    else if Castable(b, a) then Ok(a)
    else Err(TypeMismatch)
  }

  /** Left fold of Join over `rest`, starting from `acc`. */
  function Promote(acc: DType, rest: seq<DType>): (r: Result<DType, Error>)
    ensures r.Ok? ==> Castable(acc, r.value) && IsUpperBound(rest, r.value)
    ensures r.Err? ==> r.error == TypeMismatch
    decreases |rest|
  {
    if rest == [] then Ok(acc)
    else match Join(acc, rest[0])
      case Err(e) => Err(e)
      case Ok(u) => Promote(u, rest[1..])
  }

  /** The highest-precedence dtype of a non-empty list of dtypes. */
  function HighestPrecedence(ts: seq<DType>): (r: Result<DType, Error>)
    requires |ts| > 0
    ensures r.Ok? ==> IsUpperBound(ts, r.value)
    ensures r.Err? ==> r.error == TypeMismatch
  {
    Promote(ts[0], ts[1..])
  }

  lemma CastableTransitive(a: DType, b: DType, c: DType)
    requires Castable(a, b) && Castable(b, c)
    ensures Castable(a, c)
  {
  }

  lemma CastableAntisymmetric(a: DType, b: DType)
    requires Castable(a, b) && Castable(b, a)
    ensures a == b
  {
  }

  /** Join is the least upper bound of its arguments under Castable. */
  lemma JoinLeast(a: DType, b: DType, d: DType)
    requires Castable(a, d) && Castable(b, d)
    ensures Join(a, b).Ok? && Castable(Join(a, b).value, d)
  {
  }

  lemma JoinCommutative(a: DType, b: DType)
    ensures Join(a, b) == Join(b, a)
  {
  }

  lemma {:induction false} PromoteLeast(acc: DType, rest: seq<DType>, d: DType)
    requires Castable(acc, d) && IsUpperBound(rest, d)
    ensures Promote(acc, rest).Ok? && Castable(Promote(acc, rest).value, d)
    decreases |rest|
  {
    if rest != [] {
      JoinLeast(acc, rest[0], d);
      var u := Join(acc, rest[0]).value;
      assert IsUpperBound(rest[1..], d) by {
        forall i | 0 <= i < |rest[1..]| ensures Castable(rest[1..][i], d) {
          assert rest[1..][i] == rest[i + 1];
        }
      }
      PromoteLeast(u, rest[1..], d);
    }
  }

  /** Promotion succeeds exactly when the dtypes have a common supertype,
      and then yields the least one. */
  lemma HighestPrecedenceIsLeastUpperBound(ts: seq<DType>)
    requires |ts| > 0
    ensures HighestPrecedence(ts).Ok? <==> HasUpperBound(ts)
    ensures HighestPrecedence(ts).Ok? ==> IsLeastUpperBound(ts, HighestPrecedence(ts).value)
  {
    var r := HighestPrecedence(ts);
    assert ts == [ts[0]] + ts[1..];
    forall d | IsUpperBound(ts, d)
      ensures r.Ok? && Castable(r.value, d)
    {
      assert Castable(ts[0], d);
      assert IsUpperBound(ts[1..], d) by {
        forall i | 0 <= i < |ts[1..]| ensures Castable(ts[1..][i], d) {
          assert ts[1..][i] == ts[i + 1];
        }
      }
      PromoteLeast(ts[0], ts[1..], d);
    }
    if r.Ok? {
      assert IsUpperBound(ts, r.value);
    }
  }

  /** The promoted dtype depends only on which dtypes occur, not on their
      order or multiplicity: reordering the branches of a case expression
      does not change its type. */
  lemma HighestPrecedenceOrderIndependent(ts: seq<DType>, ss: seq<DType>)
    requires |ts| > 0 && |ss| > 0
    requires forall t :: t in ts <==> t in ss
    ensures HighestPrecedence(ts) == HighestPrecedence(ss)
  {
    forall d ensures IsUpperBound(ts, d) <==> IsUpperBound(ss, d) {
      if IsUpperBound(ts, d) {
        forall j | 0 <= j < |ss| ensures Castable(ss[j], d) {
          assert ss[j] in ts;
        }
      }
      if IsUpperBound(ss, d) {
        forall j | 0 <= j < |ts| ensures Castable(ts[j], d) {
          assert ts[j] in ss;
        }
      }
    }
    HighestPrecedenceIsLeastUpperBound(ts);
    HighestPrecedenceIsLeastUpperBound(ss);
    var r, q := HighestPrecedence(ts), HighestPrecedence(ss);
    if r.Ok? {
      assert IsUpperBound(ss, r.value);
      assert q.Ok?;
      CastableAntisymmetric(r.value, q.value);
    }
  }

  datatype Shape = Scalar | Columnar | Tabular

  function ShapeRank(s: Shape): nat {
    match s
    case Scalar => 0
    case Columnar => 1
    case Tabular => 2
  }

  /** The higher-precedence shape of two: scalar < columnar < tabular. */
  function MaxShape(a: Shape, b: Shape): (r: Shape)
    ensures ShapeRank(a) <= ShapeRank(r) && ShapeRank(b) <= ShapeRank(r)
    ensures r == a || r == b
  {
    if ShapeRank(a) >= ShapeRank(b) then a else b
  }
}
