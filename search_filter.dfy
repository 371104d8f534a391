// Metadata filters (pkg/search/filter.go): a filter tree is matched against a
// document's metadata map. Metadata values are Go `interface{}` values; the
// model keeps the dynamic types the matcher distinguishes.
module SearchFilter {
  import opened Wrappers

  /**
   * A metadata value. `IntV` is Go's `int`, `FloatV` a `float64`; `OtherNum`
   * is any other numeric type toFloat64 converts (float32, int32, int64,
   * uint, uint32, uint64), tagged by `width` so that values of different Go
   * types stay distinct; `TimeV` is a time.Time by its instant; `OpaqueV` any
   * other value. Geographic points (a GeoPoint, or a map with "lat" and
   * "lon") are not among the modelled values.
   */
  datatype Value =
    | Nil
    | IntV(i: int)
    | FloatV(r: real)
    | OtherNum(width: nat, n: real)
    | StrV(s: string)
    | BoolV(b: bool)
    | TimeV(instant: int)
    | OpaqueV(tag: nat)

  type Metadata = map<string, Value>

  datatype Operator = Eq | Ne | Gt | Lt | Gte | Lte | In | NotIn | RangeOp | GeoRadius | ExistsOp | And | Or | Not
    | Unknown(name: string)

  datatype Filter =
    | Comparison(field: string, op: Operator, value: Value)
    | Range(field: string, min: Value, max: Value)
    | InList(field: string, values: seq<Value>, negate: bool)
    | Composite(op: Operator, filters: seq<Filter>)
    | Exists(field: string, present: bool)
    | Geo(field: string, lat: real, lon: real, radiusKm: real)

  predicate IsNumeric(v: Value)
  {
    v.IntV? || v.FloatV? || v.OtherNum?
  }

  /** toFloat64: the numeric value of a number, 0 for anything else. */
  function ToFloat(v: Value): (r: real)
    ensures !IsNumeric(v) ==> r == 0.0
  {
    match v
    case IntV(i) => i as real
    case FloatV(r) => r
    case OtherNum(_, n) => n
    case _ => 0.0
  }

  /** Go's float-to-int conversion, which truncates toward zero. */
  function Trunc(r: real): (i: int)
    ensures r >= 0.0 ==> i as real <= r < i as real + 1.0
    ensures r < 0.0 ==> i as real - 1.0 < r <= i as real
  {
    if r >= 0.0 then r.Floor else -((-r).Floor)
  }

  /**
   * equals as written: an `int` on the left is compared with the truncated
   * numeric value of the right operand, and a `float64` with its numeric
   * value, whatever the right operand's type.
   */
  function EqualsAsWritten(a: Value, b: Value): bool
  {
    if a.Nil? && b.Nil? then true
    else if a.Nil? || b.Nil? then false
    else if a == b then true
    else match a
      case IntV(x) => if b.IntV? then x == b.i else x == Trunc(ToFloat(b))
      case FloatV(x) => x == ToFloat(b)
      case _ => false
  }

  /** The int 0 equals any string, and the int 5 equals 5.7, but not the other way round. */
  lemma EqualsAsWrittenMismatch()
    ensures EqualsAsWritten(IntV(0), StrV("abc")) && !EqualsAsWritten(StrV("abc"), IntV(0))
    ensures EqualsAsWritten(IntV(5), FloatV(5.7)) && !EqualsAsWritten(FloatV(5.7), IntV(5))
  {
    assert Trunc(5.7) == 5;
  }

  /**
   * equals as intended: nil equals only nil, two numbers of any types are
   * equal when their numeric values are, and any other values when they are
   * the same value.
   */
  function Equals(a: Value, b: Value): bool
  {
    if a.Nil? || b.Nil? then a.Nil? && b.Nil?
    else if IsNumeric(a) && IsNumeric(b) then ToFloat(a) == ToFloat(b)
    else a == b
  }

  /** Equals is an equivalence: reflexive, symmetric and transitive. */
  lemma EqualsEquivalence(a: Value, b: Value, c: Value)
    ensures Equals(a, a)
    ensures Equals(a, b) == Equals(b, a)
    ensures Equals(a, b) && Equals(b, c) ==> Equals(a, c)
  {
  }

  /** Equals agrees with the source wherever both operands are numbers of a type equals switches on, or neither is a number. */
  lemma EqualsAgrees(a: Value, b: Value)
    requires (a.IntV? && b.IntV?) || (a.FloatV? && IsNumeric(b)) || (!IsNumeric(a) && !IsNumeric(b))
    ensures Equals(a, b) == EqualsAsWritten(a, b)
  {
  }

  /** compare: nil is below everything else; other values are ordered by their numeric values. */
  function Compare(a: Value, b: Value): (c: int)
    ensures c == -1 || c == 0 || c == 1
    ensures a.Nil? && !b.Nil? ==> c == -1
    ensures !a.Nil? && b.Nil? ==> c == 1
  {
    if a.Nil? && b.Nil? then 0
    else if a.Nil? then -1
    else if b.Nil? then 1
    else if ToFloat(a) < ToFloat(b) then -1
    else if ToFloat(a) > ToFloat(b) then 1
    else 0
  }

  /** compare is antisymmetric and agrees with the numeric order on non-nil values. */
  lemma CompareOrder(a: Value, b: Value)
    ensures Compare(a, b) == -Compare(b, a)
    ensures !a.Nil? && !b.Nil? ==>
      (Compare(a, b) < 0 <==> ToFloat(a) < ToFloat(b)) && (Compare(a, b) == 0 <==> ToFloat(a) == ToFloat(b))
  {
  }

  /** Which equality the matcher uses: equals as filter.go writes it, or the corrected one. */
  datatype Equality = AsWritten | Intended

  function ValueEq(eq: Equality, a: Value, b: Value): bool
  {
    if eq.AsWritten? then EqualsAsWritten(a, b) else Equals(a, b)
  }

  /**
   * The Match method of each kind of filter, with value equality `eq`. A
   * comparison or range on a missing field fails, a list filter on one gives
   * its `negate` flag, and Exists tests presence.
   */
  function MatchWith(eq: Equality, f: Filter, md: Metadata): (r: bool)
    ensures (f.Comparison? || f.Range?) && f.field !in md ==> !r
    ensures f.InList? && f.field !in md ==> r == f.negate
    ensures f.Exists? ==> (r <==> (f.field in md) == f.present)
    ensures f.Geo? ==> !r
  {
    match f
    case Comparison(field, op, value) =>
      field in md && MatchComparison(eq, op, md[field], value)
    case Range(field, min, max) =>
      field in md && !(!min.Nil? && Compare(md[field], min) < 0) && !(!max.Nil? && Compare(md[field], max) > 0)
    case InList(field, values, negate) =>
      if field !in md then negate
      else
        var found := exists i :: 0 <= i < |values| && ValueEq(eq, md[field], values[i]);
        if negate then !found else found
    case Composite(op, filters) =>
      if op == And then forall i :: 0 <= i < |filters| ==> MatchWith(eq, filters[i], md)
      else if op == Or then exists i :: 0 <= i < |filters| && MatchWith(eq, filters[i], md)
      else if op == Not then |filters| == 0 || !MatchWith(eq, filters[0], md)
      else false
    case Exists(field, present) =>
      if present then field in md else field !in md
    case Geo(_, _, _, _) =>
      // A geo filter matches only a geographic point, and no modelled value is one.
      false
  }

  /** The matcher of filter.go, with equals as written. */
  function MatchAsWritten(f: Filter, md: Metadata): bool
  {
    MatchWith(AsWritten, f, md)
  }

  /** The corrected matcher, with the intended equality; the rest of the model uses this one. */
  function Match(f: Filter, md: Metadata): bool
  {
    MatchWith(Intended, f, md)
  }

  /**
   * The operator switch of a comparison on a present field: Eq and Ne by
   * equality, the orderings by compare, Exists always, and any other
   * operator never.
   */
  function MatchComparison(eq: Equality, op: Operator, x: Value, value: Value): (r: bool)
    ensures op.Ne? ==> r == !ValueEq(eq, x, value)
    ensures op.Gte? ==> (r <==> Compare(x, value) >= 0)
    ensures op.Lte? ==> (r <==> Compare(x, value) <= 0)
    ensures !(op.Eq? || op.Ne? || op.Gt? || op.Lt? || op.Gte? || op.Lte? || op.ExistsOp?) ==> !r
  {
    match op
    case Eq => ValueEq(eq, x, value)
    case Ne => !ValueEq(eq, x, value)
    case Gt => Compare(x, value) > 0
    case Lt => Compare(x, value) < 0
    case Gte => var c := Compare(x, value); c > 0 || c == 0
    case Lte => var c := Compare(x, value); c < 0 || c == 0
    case ExistsOp => true
    case _ => false
  }

  /**
   * Where the two matchers part: Eq("n", 5.7) and In("n", ["a"]) match an
   * int field n as written (5 and 0 respectively) and not as intended.
   */
  lemma MatchAsWrittenMismatch()
    ensures MatchAsWritten(EqFilter("n", FloatV(5.7)), map["n" := IntV(5)])
    ensures !Match(EqFilter("n", FloatV(5.7)), map["n" := IntV(5)])
    ensures MatchAsWritten(InFilter("n", [StrV("a")]), map["n" := IntV(0)])
    ensures !Match(InFilter("n", [StrV("a")]), map["n" := IntV(0)])
  {
    assert Trunc(5.7) == 5;
    assert EqualsAsWritten(IntV(0), [StrV("a")][0]);
  }

  /** A comparison on a missing field fails whatever the operator, Ne included. */
  lemma MissingFieldFails(eq: Equality, field: string, op: Operator, value: Value, md: Metadata)
    requires field !in md
    ensures !MatchWith(eq, Comparison(field, op, value), md)
    ensures !MatchWith(eq, Range(field, value, value), md)
  {
  }

  /** Gte holds exactly when compare is at least 0, Lte when it is at most 0. */
  lemma GteLte(eq: Equality, field: string, value: Value, md: Metadata)
    requires field in md
    ensures MatchWith(eq, Comparison(field, Gte, value), md) <==> Compare(md[field], value) >= 0
    ensures MatchWith(eq, Comparison(field, Lte, value), md) <==> Compare(md[field], value) <= 0
    ensures MatchWith(eq, Comparison(field, Gte, value), md) <==>
      MatchWith(eq, Comparison(field, Gt, value), md) || Compare(md[field], value) == 0
  {
  }

  /** Range is inclusive at both bounds, and a nil bound does not constrain. */
  lemma RangeBounds(eq: Equality, field: string, min: Value, max: Value, md: Metadata)
    requires field in md
    ensures MatchWith(eq, Range(field, min, max), md) <==>
      (min.Nil? || Compare(md[field], min) >= 0) && (max.Nil? || Compare(md[field], max) <= 0)
    ensures MatchWith(eq, Range(field, Nil, Nil), md)
    ensures !md[field].Nil? ==> MatchWith(eq, Range(field, md[field], md[field]), md)
  {
  }

  /**
   * In and NotIn: a missing field gives `negate`; otherwise In is membership
   * under the matcher's equality and NotIn its negation.
   */
  lemma InNotIn(eq: Equality, field: string, values: seq<Value>, md: Metadata)
    ensures field !in md ==> !MatchWith(eq, InList(field, values, false), md) && MatchWith(eq, InList(field, values, true), md)
    ensures field in md ==> MatchWith(eq, InList(field, values, true), md) == !MatchWith(eq, InList(field, values, false), md)
    ensures field in md ==>
      (MatchWith(eq, InList(field, values, false), md) <==> exists v :: v in values && ValueEq(eq, md[field], v))
  {
    if field in md {
      if exists v :: v in values && ValueEq(eq, md[field], v) {
        var v :| v in values && ValueEq(eq, md[field], v);
        var i :| 0 <= i < |values| && values[i] == v;
      }
    }
  }

  /** And over no filters holds and Or over none fails; one failing filter decides And, one passing filter decides Or. */
  lemma AndOr(eq: Equality, filters: seq<Filter>, k: nat, md: Metadata)
    ensures MatchWith(eq, Composite(And, []), md) && !MatchWith(eq, Composite(Or, []), md)
    ensures k < |filters| && !MatchWith(eq, filters[k], md) ==> !MatchWith(eq, Composite(And, filters), md)
    ensures k < |filters| && MatchWith(eq, filters[k], md) ==> MatchWith(eq, Composite(Or, filters), md)
    ensures MatchWith(eq, Composite(And, filters), md) == !MatchWith(eq, Composite(Or, NegateAll(filters)), md)
  {
    var nf := NegateAll(filters);
    assert forall i :: 0 <= i < |filters| ==> MatchWith(eq, nf[i], md) == !MatchWith(eq, filters[i], md);
  }

  /** Not(f) for each filter. */
  function NegateAll(filters: seq<Filter>): (r: seq<Filter>)
    ensures |r| == |filters| && forall i :: 0 <= i < |r| ==> r[i] == Composite(Not, [filters[i]])
  {
    seq(|filters|, i requires 0 <= i < |filters| => Composite(Not, [filters[i]]))
  }

  /** Not with no filters holds; otherwise it negates its first filter and ignores the rest. */
  lemma NotFirst(eq: Equality, filters: seq<Filter>, md: Metadata)
    ensures |filters| == 0 ==> MatchWith(eq, Composite(Not, filters), md)
    ensures |filters| > 0 ==> MatchWith(eq, Composite(Not, filters), md) == !MatchWith(eq, filters[0], md)
  {
  }

  /** Exists and NotExists are complementary on every metadata map. */
  lemma ExistsComplement(eq: Equality, field: string, md: Metadata)
    ensures MatchWith(eq, Exists(field, true), md) == !MatchWith(eq, Exists(field, false), md)
    ensures MatchWith(eq, Exists(field, true), md) <==> field in md
  {
  }

  // The builder functions of filter.go, each with its meaning under both matchers.

  function EqFilter(field: string, value: Value): (f: Filter)
    ensures forall eq, md :: MatchWith(eq, f, md) <==> field in md && ValueEq(eq, md[field], value)
  {
    Comparison(field, Eq, value)
  }

  function NeFilter(field: string, value: Value): (f: Filter)
    ensures forall eq, md :: MatchWith(eq, f, md) <==> field in md && !ValueEq(eq, md[field], value)
  {
    Comparison(field, Ne, value)
  }

  function GtFilter(field: string, value: Value): (f: Filter)
    ensures forall eq, md :: MatchWith(eq, f, md) <==> field in md && Compare(md[field], value) == 1
  {
    Comparison(field, Gt, value)
  }

  function LtFilter(field: string, value: Value): (f: Filter)
    ensures forall eq, md :: MatchWith(eq, f, md) <==> field in md && Compare(md[field], value) == -1
  {
    Comparison(field, Lt, value)
  }

  function GteFilter(field: string, value: Value): (f: Filter)
    ensures forall eq, md :: MatchWith(eq, f, md) <==> field in md && Compare(md[field], value) != -1
  {
    Comparison(field, Gte, value)
  }

  function LteFilter(field: string, value: Value): (f: Filter)
    ensures forall eq, md :: MatchWith(eq, f, md) <==> field in md && Compare(md[field], value) != 1
  {
    Comparison(field, Lte, value)
  }

  function RangeFilter(field: string, min: Value, max: Value): (f: Filter)
    ensures forall eq, md :: MatchWith(eq, f, md) <==>
      field in md && (min.Nil? || Compare(md[field], min) != -1) && (max.Nil? || Compare(md[field], max) != 1)
  {
    Range(field, min, max)
  }

  function InFilter(field: string, values: seq<Value>): (f: Filter)
    ensures forall eq, md :: MatchWith(eq, f, md) <==>
      field in md && exists i :: 0 <= i < |values| && ValueEq(eq, md[field], values[i])
  {
    InList(field, values, false)
  }

  function NotInFilter(field: string, values: seq<Value>): (f: Filter)
    ensures forall eq, md :: MatchWith(eq, f, md) <==>
      field !in md || forall i :: 0 <= i < |values| ==> !ValueEq(eq, md[field], values[i])
  {
    InList(field, values, true)
  }

  /** GeoRadius: no modelled metadata value is a geographic point, so the filter matches nothing. */
  function GeoRadiusFilter(field: string, lat: real, lon: real, radiusKm: real): (f: Filter)
    ensures forall eq, md :: !MatchWith(eq, f, md)
  {
    Geo(field, lat, lon, radiusKm)
  }

  function ExistsFilter(field: string): (f: Filter)
    ensures forall eq, md :: MatchWith(eq, f, md) <==> field in md
  {
    Exists(field, true)
  }

  function NotExistsFilter(field: string): (f: Filter)
    ensures forall eq, md :: MatchWith(eq, f, md) <==> field !in md
  {
    Exists(field, false)
  }

  function AndFilter(filters: seq<Filter>): (f: Filter)
    ensures forall eq, md :: MatchWith(eq, f, md) <==> forall i :: 0 <= i < |filters| ==> MatchWith(eq, filters[i], md)
  {
    Composite(And, filters)
  }

  function OrFilter(filters: seq<Filter>): (f: Filter)
    ensures forall eq, md :: MatchWith(eq, f, md) <==> exists i :: 0 <= i < |filters| && MatchWith(eq, filters[i], md)
  {
    Composite(Or, filters)
  }

  function NotFilter(filter: Filter): (f: Filter)
    ensures forall eq, md :: MatchWith(eq, f, md) <==> !MatchWith(eq, filter, md)
  {
    Composite(Not, [filter])
  }

  const NoConditionsError := "no filter conditions specified"

  /** FilterBuilder: each condition method replaces the filter built so far. */
  class FilterBuilder {
    var filter: Option<Filter>
    var err: Option<string>

    constructor ()
      ensures filter == None && err == None
    {
      filter := None;
      err := None;
    }

    method Equals(field: string, value: Value)
      modifies this
      ensures filter == Some(EqFilter(field, value)) && err == old(err)
    {
      filter := Some(EqFilter(field, value));
    }

    method GreaterThan(field: string, value: Value)
      modifies this
      ensures filter == Some(GtFilter(field, value)) && err == old(err)
    {
      filter := Some(GtFilter(field, value));
    }

    /** Build: a recorded error first, then the missing-conditions error, else the filter. */
    method Build() returns (r: Result<Filter>)
      ensures err.Some? ==> r == Err(err.value)
      ensures err.None? && filter.None? ==> r == Err(NoConditionsError)
      ensures err.None? && filter.Some? ==> r == Ok(filter.value)
    {
      if err.Some? { return Err(err.value); }
      if filter.None? { return Err(NoConditionsError); }
      return Ok(filter.value);
    }
  }
}
