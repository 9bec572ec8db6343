/**
 * Conversion of engine cell values into protobuf well-known values (src/conv.rs).
 *
 * A DuckDB value is converted at the top level into a `ConcreteValue` (the
 * wrapper, timestamp, list, struct or value message that is then packed into an
 * `Any`), and values nested in lists, structs and unions into a
 * `google.protobuf.Value`. Floating-point numbers are kept symbolic: the model
 * records which source value a double was obtained from, not its bits.
 */
module Conv {
  import opened Common

  /** Why a value has no protobuf representation. */
  datatype Unsupported = HugeIntUnsupported | Date32Unsupported | MapUnsupported

  datatype TimeUnit = Second | Millisecond | Microsecond | Nanosecond

  /** Floating-point and decimal payloads, carried but not computed with. */
  datatype Float32 = Float32(bits: u32)
  datatype Float64 = Float64(bits: u64)
  datatype DecimalNum = DecimalNum(mantissa: int, scale: nat)

  /** A cell value as DuckDB hands it out. */
  datatype DuckValue =
    | Null
    | Boolean(bool)
    | TinyInt(i8)
    | SmallInt(i16)
    | Int(i32)
    | BigInt(i64)
    | HugeInt(i128)
    | UTinyInt(u8)
    | USmallInt(u16)
    | UInt(u32)
    | UBigInt(u64)
    | Float(Float32)
    | Double(Float64)
    | Decimal(DecimalNum)
    | Timestamp(TimeUnit, i64)
    | Time64(TimeUnit, i64)
    | Text(string)
    | Enum(string)
    | Blob(Bytes)
    | Date32(i32)
    | Interval(months: i32, days: i32, nanos: i64)
    | List(seq<DuckValue>)
    | Array(seq<DuckValue>)
    | Struct(seq<Field>)
    | Map(seq<(DuckValue, DuckValue)>)
    | Union(DuckValue)

  /** A named member of a DuckDB struct value. */
  datatype Field = Field(name: string, value: DuckValue)

  /** A cell value as SQLite hands it out. */
  datatype SqliteValue = SqlNull | SqlInteger(i64) | SqlReal(Float64) | SqlText(string) | SqlBlob(Bytes)

  /** A protobuf double, described by the value it was computed from. */
  datatype Number =
    | FromInt(int)                 // an integer widened to f64
    | FromFloat(Float32)           // an f32 widened to f64
    | FromDouble(Float64)
    | FromDecimal(DecimalNum)      // the decimal's f64 value, or NaN when it has none
    | Scaled(scale: i64, per: nat) // `scale as f64 / per`

  /** `google.protobuf.Value`: the kind is absent for values it cannot hold. */
  datatype Kind =
    | NullKind
    | NumberKind(Number)
    | StringKind(string)
    | BoolKind(bool)
    | StructKind(map<string, Value>)
    | ListKind(seq<Value>)
  datatype Value = Value(kind: Option<Kind>)

  datatype ProtoTimestamp = ProtoTimestamp(seconds: i64, nanos: i32)

  /** The message a top-level cell becomes before it is packed into an `Any`. */
  datatype ConcreteValue =
    | NullValue
    | BoolValue(bool)
    | Int32Value(i32)
    | Int64Value(i64)
    | UInt32Value(u32)
    | UInt64Value(u64)
    | FloatValue(Float32)
    | DoubleValue(Number)
    | StringValue(string)
    | BytesValue(Bytes)
    | TimestampValue(ProtoTimestamp)
    | ListValue(seq<Value>)
    | StructValue(map<string, Value>)
    | ValueValue(Value)

  // ---------------------------------------------------------------- integers

  /** Integer division rounding toward zero, as Rust's `/` on signed integers. */
  function TruncDiv(a: int, b: int): int
    requires b > 0
  {
    if a >= 0 then a / b else -((-a) / b)
  }

  /** The remainder that goes with `TruncDiv`, as Rust's `%` on signed integers. */
  function TruncRem(a: int, b: int): int
    requires b > 0
  {
    a - TruncDiv(a, b) * b
  }

  /**
   * Truncating division and remainder recombine to the dividend, the remainder is
   * smaller than the divisor and has the sign of the dividend, and the quotient
   * lies between zero and the dividend.
   */
  lemma TruncDivRem(a: int, b: int)
    requires b > 0
    ensures TruncDiv(a, b) * b + TruncRem(a, b) == a
    ensures -b < TruncRem(a, b) < b
    ensures TruncRem(a, b) == 0 || (TruncRem(a, b) > 0 <==> a > 0)
    ensures 0 <= a ==> 0 <= TruncDiv(a, b) <= a
    ensures a < 0 ==> a <= TruncDiv(a, b) <= 0
  {
    if a >= 0 {
      EuclidNat(a, b);
    } else {
      EuclidNat(-a, b);
      var q := (-a) / b;
      assert TruncDiv(a, b) == -q;
      NegMul(q, b);
    }
  }

  lemma EuclidNat(n: nat, b: int)
    requires b > 0
    ensures (n / b) * b + n % b == n && 0 <= n % b < b
    ensures 0 <= n / b <= n
  {
    MulAtLeast(n / b, b);
  }

  lemma NegMul(q: int, b: int)
    ensures (-q) * b == -(q * b)
  {
  }

  lemma {:induction false} MulAtLeast(q: nat, b: int)
    requires b >= 1
    ensures q <= q * b
  {
    if q > 0 {
      MulAtLeast(q - 1, b);
      assert q * b == (q - 1) * b + b;
    }
  }

  /** Rust's `as i32` on an i64: keeps the low 32 bits, read as two's complement. */
  function CastI32(x: i64): (r: i32)
    ensures -0x8000_0000 <= x < 0x8000_0000 ==> r == x
    ensures (r - x) % 0x1_0000_0000 == 0
  {
    var low := x % 0x1_0000_0000;
    if low < 0x8000_0000 then low else low - 0x1_0000_0000
  }

  function PerSecond(unit: TimeUnit): (n: nat)
  {
    match unit
    case Second => 1
    case Millisecond => 1_000
    case Microsecond => 1_000_000
    case Nanosecond => 1_000_000_000
  }

  /**
   * A DuckDB timestamp or time of day, `scale` units since the epoch or midnight,
   * split into whole seconds and the nanoseconds left over.
   */
  function SplitTimestamp(unit: TimeUnit, scale: i64): ProtoTimestamp
  {
    match unit
    case Second => ProtoTimestamp(scale, 0)
    case Millisecond =>
      TruncDivRem(scale, 1_000);
      ProtoTimestamp(TruncDiv(scale, 1_000), CastI32(TruncRem(scale, 1_000) * 1_000_000))
    case Microsecond =>
      TruncDivRem(scale, 1_000_000);
      ProtoTimestamp(TruncDiv(scale, 1_000_000), CastI32(TruncRem(scale, 1_000_000) * 1_000))
    case Nanosecond =>
      TruncDivRem(scale, 1_000_000_000);
      ProtoTimestamp(TruncDiv(scale, 1_000_000_000), CastI32(TruncRem(scale, 1_000_000_000)))
  }

  /**
   * The split loses nothing: seconds and nanoseconds add up to the original
   * instant, the nanoseconds stay below one second and keep the sign of `scale`,
   * so their cast to 32 bits is exact.
   */
  lemma SplitTimestampExact(unit: TimeUnit, scale: i64)
    ensures var t := SplitTimestamp(unit, scale);
      t.seconds * 1_000_000_000 + t.nanos == scale * (1_000_000_000 / PerSecond(unit)) &&
      -1_000_000_000 < t.nanos < 1_000_000_000 &&
      (t.nanos == 0 || (t.nanos > 0 <==> scale > 0))
  {
    match unit
    case Second =>
    case Millisecond => SplitExact(scale, 1_000, 1_000_000);
    case Microsecond => SplitExact(scale, 1_000_000, 1_000);
    case Nanosecond => SplitExact(scale, 1_000_000_000, 1);
  }

  /** One case of `SplitTimestampExact`: `per` units make a second and a unit is `unitNanos` nanoseconds. */
  lemma SplitExact(scale: i64, per: int, unitNanos: int)
    requires per > 0 && unitNanos > 0 && per * unitNanos == 1_000_000_000
    ensures var r := TruncRem(scale, per) * unitNanos;
      TruncDiv(scale, per) * 1_000_000_000 + r == scale * unitNanos &&
      -1_000_000_000 < r < 1_000_000_000 &&
      (r == 0 || (r > 0 <==> scale > 0))
  {
    TruncDivRem(scale, per);
    var q, r := TruncDiv(scale, per), TruncRem(scale, per);
    Distribute(q * per, r, unitNanos);
    Associate(q, per, unitNanos);
    if r > 0 {
      MulLess(r, per, unitNanos);
    } else if r < 0 {
      MulLess(-r, per, unitNanos);
      NegMul(r, unitNanos);
    }
  }

  lemma Distribute(a: int, b: int, c: int)
    ensures (a + b) * c == a * c + b * c
  {
  }

  lemma Associate(a: int, b: int, c: int)
    ensures (a * b) * c == a * (b * c)
  {
  }

  lemma MulLess(a: int, b: int, c: int)
    requires 0 < a < b && c > 0
    ensures 0 < a * c < b * c
  {
  }

  // ---------------------------------------------------------------- decimal text

  function DigitChar(d: nat): (c: char)
    requires d < 10
    ensures '0' <= c <= '9'
  {
    ('0' as int + d) as char
  }

  predicate IsDigits(s: string)
  {
    forall i | 0 <= i < |s| :: '0' <= s[i] <= '9'
  }

  /** The decimal digits of `n`, most significant first, as `{}` formats an integer. */
  function NatToString(n: nat): (s: string)
    decreases n
    ensures |s| >= 1 && IsDigits(s)
    ensures n >= 10 ==> s[0] != '0'
  {
    if n < 10 then [DigitChar(n)] else NatToString(n / 10) + [DigitChar(n % 10)]
  }

  function IntToString(i: int): (s: string)
  {
    if i < 0 then "-" + NatToString(-i) else NatToString(i)
  }

  /** Reads a run of decimal digits back as a number. */
  function ParseNat(s: string): (n: nat)
    requires IsDigits(s)
  {
    if s == [] then 0 else ParseNat(s[..|s| - 1]) * 10 + (s[|s| - 1] as int - '0' as int)
  }

  function ParseInt(s: string): (i: int)
    requires |s| >= 1
    requires (s[0] == '-' && IsDigits(s[1..])) || IsDigits(s)
  {
    if s[0] == '-' then -(ParseNat(s[1..]) as int) else ParseNat(s)
  }

  /** Formatting an integer loses nothing: its text reads back as the same integer. */
  lemma {:induction false} NatToStringRoundTrip(n: nat)
    ensures ParseNat(NatToString(n)) == n
  {
    if n >= 10 {
      var s := NatToString(n);
      assert s[..|s| - 1] == NatToString(n / 10);
      NatToStringRoundTrip(n / 10);
    }
  }

  lemma IntToStringRoundTrip(i: int)
    ensures |IntToString(i)| >= 1
    ensures ParseInt(IntToString(i)) == i
  {
    if i < 0 {
      var s := IntToString(i);
      assert s[1..] == NatToString(-i);
      NatToStringRoundTrip(-i);
    } else {
      NatToStringRoundTrip(i);
    }
  }

  /** An interval nested inside another value becomes the text `P<months>M<days>D<seconds>S`. */
  function IntervalText(months: i32, days: i32, nanos: i64): string
  {
    "P" + IntToString(months) + "M" + IntToString(days) + "D" + IntToString(TruncDiv(nanos, 1_000_000_000)) + "S"
  }

  // ---------------------------------------------------------------- nested values

  /** Values that can appear inside a protobuf `Value`: no dates and no maps, at any depth. */
  ghost predicate Representable(v: DuckValue)
    decreases v
  {
    match v
    case Date32(_) => false
    case Map(_) => false
    case List(items) => forall i | 0 <= i < |items| :: Representable(items[i])
    case Array(items) => forall i | 0 <= i < |items| :: Representable(items[i])
    case Struct(fields) => forall i | 0 <= i < |fields| :: Representable(fields[i].value)
    case Union(inner) => Representable(inner)
    case _ => true
  }

  function Num(n: Number): Value
  {
    Value(Some(NumberKind(n)))
  }

  /** A value nested in a list, struct or union (`duckdb_value_to_protobuf_value`). */
  function ToProtoValue(v: DuckValue): Result<Value, Unsupported>
    decreases v, 0
  {
    match v
    case Null => Ok(Value(Some(NullKind)))
    case Boolean(b) => Ok(Value(Some(BoolKind(b))))
    case TinyInt(x) => Ok(Num(FromInt(x)))
    case SmallInt(x) => Ok(Num(FromInt(x)))
    case Int(x) => Ok(Num(FromInt(x)))
    case BigInt(x) => Ok(Num(FromInt(x)))
    case HugeInt(x) => Ok(Num(FromInt(x)))
    case UTinyInt(x) => Ok(Num(FromInt(x)))
    case USmallInt(x) => Ok(Num(FromInt(x)))
    case UInt(x) => Ok(Num(FromInt(x)))
    case UBigInt(x) => Ok(Num(FromInt(x)))
    case Float(f) => Ok(Num(FromFloat(f)))
    case Double(d) => Ok(Num(FromDouble(d)))
    case Decimal(d) => Ok(Num(FromDecimal(d)))
    case Timestamp(unit, scale) => Ok(Num(Scaled(scale, PerSecond(unit))))
    case Time64(unit, scale) => Ok(Num(Scaled(scale, PerSecond(unit))))
    case Text(s) => Ok(Value(Some(StringKind(s))))
    case Enum(s) => Ok(Value(Some(StringKind(s))))
    case Blob(_) => Ok(Value(None))
    case Date32(_) => Err(Date32Unsupported)
    case Interval(months, days, nanos) => Ok(Value(Some(StringKind(IntervalText(months, days, nanos)))))
    case List(items) =>
      (match ToProtoList(items)
       case Ok(values) => Ok(Value(Some(ListKind(values))))
       case Err(e) => Err(e))
    case Array(items) =>
      (match ToProtoList(items)
       case Ok(values) => Ok(Value(Some(ListKind(values))))
       case Err(e) => Err(e))
    case Struct(fields) =>
      (match ToProtoFields(fields)
       case Ok(m) => Ok(Value(Some(StructKind(m))))
       case Err(e) => Err(e))
    case Map(_) => Err(MapUnsupported)
    case Union(inner) => ToProtoValue(inner)
  }

  /** A nested value converts exactly when it is representable, and never fails for a 128-bit integer. */
  lemma ToProtoValueVerdict(v: DuckValue)
    decreases v, 1
    ensures ToProtoValue(v).Ok? <==> Representable(v)
  {
    match v
    case Union(inner) => ToProtoValueVerdict(inner);
    case List(items) => assert ToProtoValue(v).Ok? == ToProtoList(items).Ok?;
    case Array(items) => assert ToProtoValue(v).Ok? == ToProtoList(items).Ok?;
    case Struct(fs) => assert ToProtoValue(v).Ok? == ToProtoFields(fs).Ok?;
    case Date32(_) =>
    case Map(_) =>
    case _ => assert ToProtoValue(v).Ok? && Representable(v);
  }

  /** Converts every element, stopping at the first that cannot be converted. */
  function ToProtoList(vs: seq<DuckValue>): (r: Result<seq<Value>, Unsupported>)
    decreases vs
    ensures r.Ok? <==> forall i | 0 <= i < |vs| :: Representable(vs[i])
    ensures r.Ok? ==> |r.value| == |vs| && forall i | 0 <= i < |vs| :: ToProtoValue(vs[i]) == Ok(r.value[i])
    ensures r.Err? ==> exists i | 0 <= i < |vs| :: ToProtoValue(vs[i]) == Err(r.error) &&
                                                 forall j | 0 <= j < i :: Representable(vs[j])
  {
    if vs == [] then Ok([])
    else
      ToProtoValueVerdict(vs[0]);
      match ToProtoValue(vs[0])
      case Err(e) => Err(e)
      case Ok(x) =>
        match ToProtoList(vs[1..])
        case Err(e) => Err(e)
        case Ok(xs) => Ok([x] + xs)
  }

  /**
   * Converts the fields of a struct into a protobuf struct, stopping at the first
   * field that cannot be converted; a name that occurs twice keeps its last value.
   */
  function ToProtoFields(fs: seq<Field>): (r: Result<map<string, Value>, Unsupported>)
    decreases fs
    ensures r.Ok? <==> forall i | 0 <= i < |fs| :: Representable(fs[i].value)
    ensures r.Ok? && |fs| > 0 ==> fs[|fs| - 1].name in r.value && ToProtoValue(fs[|fs| - 1].value) == Ok(r.value[fs[|fs| - 1].name])
    ensures r.Err? ==> exists i | 0 <= i < |fs| :: ToProtoValue(fs[i].value) == Err(r.error) &&
                                                 forall j | 0 <= j < i :: Representable(fs[j].value)
  {
    if fs == [] then Ok(map[])
    else
      ToProtoValueVerdict(fs[0].value);
      match ToProtoValue(fs[0].value)
      case Err(e) => Err(e)
      case Ok(x) =>
        match ToProtoFields(fs[1..])
        case Err(e) => Err(e)
        case Ok(m) => Ok(map[fs[0].name := x] + m)
  }

  /** The keys of a converted struct are exactly its field names. */
  lemma {:induction false} ToProtoFieldsKeys(fs: seq<Field>)
    decreases fs
    ensures ToProtoFields(fs).Ok? ==> forall k :: k in ToProtoFields(fs).value <==> exists i | 0 <= i < |fs| :: fs[i].name == k
  {
    if fs != [] && ToProtoFields(fs).Ok? {
      var tail := fs[1..];
      ToProtoFieldsKeys(tail);
      ToProtoValueVerdict(fs[0].value);
      var m := ToProtoFields(tail).value;
      assert ToProtoFields(fs).value == map[fs[0].name := ToProtoValue(fs[0].value).value] + m;
      forall k | k in ToProtoFields(fs).value
        ensures exists i | 0 <= i < |fs| :: fs[i].name == k
      {
        if k != fs[0].name {
          assert k in m;
          var i :| 0 <= i < |tail| && tail[i].name == k;
          assert fs[i + 1].name == k;
        }
      }
      forall k | exists i | 0 <= i < |fs| :: fs[i].name == k
        ensures k in ToProtoFields(fs).value
      {
        var i :| 0 <= i < |fs| && fs[i].name == k;
        if i > 0 {
          assert tail[i - 1].name == k;
        }
      }
    }
  }

  /** No field after position `i` has the name of field `i`. */
  predicate LastOfName(fs: seq<Field>, i: nat)
    requires i < |fs|
  {
    forall j | i < j < |fs| :: fs[j].name != fs[i].name
  }

  /**
   * In a converted struct, each name holds the converted value of the last
   * field with that name.
   */
  lemma {:induction false} ToProtoFieldsValues(fs: seq<Field>)
    decreases fs
    ensures ToProtoFields(fs).Ok? ==>
      forall i | 0 <= i < |fs| && LastOfName(fs, i) ::
        fs[i].name in ToProtoFields(fs).value && ToProtoValue(fs[i].value) == Ok(ToProtoFields(fs).value[fs[i].name])
  {
    if fs != [] && ToProtoFields(fs).Ok? {
      var tail := fs[1..];
      ToProtoFieldsValues(tail);
      ToProtoFieldsKeys(tail);
      ToProtoValueVerdict(fs[0].value);
      var x := ToProtoValue(fs[0].value).value;
      var m := ToProtoFields(tail).value;
      assert ToProtoFields(fs).value == map[fs[0].name := x] + m;
      forall i | 0 <= i < |fs| && LastOfName(fs, i)
        ensures fs[i].name in ToProtoFields(fs).value && ToProtoValue(fs[i].value) == Ok(ToProtoFields(fs).value[fs[i].name])
      {
        if i > 0 {
          assert tail[i - 1] == fs[i];
          assert LastOfName(tail, i - 1) by {
            forall j | i - 1 < j < |tail|
              ensures tail[j].name != tail[i - 1].name
            {
              assert tail[j] == fs[j + 1];
            }
          }
        }
      }
    }
  }

  // ---------------------------------------------------------------- top-level values

  /**
   * A top-level DuckDB cell (`try_into_protobuf_any` before packing). It fails
   * exactly for 128-bit integers at the top level and for values that are not
   * representable at all; integers keep their value in the narrowest wrapper of
   * their signedness that holds them.
   */
  function TryIntoAny(v: DuckValue): Result<ConcreteValue, Unsupported>
  {
    match v
    case Null => Ok(NullValue)
    case Boolean(b) => Ok(BoolValue(b))
    case TinyInt(x) => Ok(Int32Value(x))
    case SmallInt(x) => Ok(Int32Value(x))
    case Int(x) => Ok(Int32Value(x))
    case BigInt(x) => Ok(Int64Value(x))
    case HugeInt(_) => Err(HugeIntUnsupported)
    case UTinyInt(x) => Ok(UInt32Value(x))
    case USmallInt(x) => Ok(UInt32Value(x))
    case UInt(x) => Ok(UInt32Value(x))
    case UBigInt(x) => Ok(UInt64Value(x))
    case Float(f) => Ok(FloatValue(f))
    case Double(d) => Ok(DoubleValue(FromDouble(d)))
    case Decimal(d) => Ok(DoubleValue(FromDecimal(d)))
    case Timestamp(unit, scale) => Ok(TimestampValue(SplitTimestamp(unit, scale)))
    case Time64(unit, scale) => Ok(TimestampValue(SplitTimestamp(unit, scale)))
    case Text(s) => Ok(StringValue(s))
    case Enum(s) => Ok(StringValue(s))
    case Blob(b) => Ok(BytesValue(b))
    case Date32(_) => Err(Date32Unsupported)
    case Interval(months, days, nanos) =>
      Ok(StructValue(map["months" := Num(FromInt(months)), "days" := Num(FromInt(days)), "nanos" := Num(FromInt(nanos))]))
    case List(items) =>
      (match ToProtoList(items)
       case Ok(values) => Ok(ListValue(values))
       case Err(e) => Err(e))
    case Array(items) =>
      (match ToProtoList(items)
       case Ok(values) => Ok(ListValue(values))
       case Err(e) => Err(e))
    case Struct(fields) =>
      (match ToProtoFields(fields)
       case Ok(m) => Ok(StructValue(m))
       case Err(e) => Err(e))
    case Map(_) => Err(MapUnsupported)
    case Union(inner) =>
      (match ToProtoValue(inner)
       case Ok(value) => Ok(ValueValue(value))
       case Err(e) => Err(e))
  }

  /**
   * A top-level cell converts exactly when it is representable and not a
   * 128-bit integer, which is refused with its own error.
   */
  lemma TryIntoAnyVerdict(v: DuckValue)
    ensures TryIntoAny(v).Ok? <==> !v.HugeInt? && Representable(v)
    ensures v.HugeInt? ==> TryIntoAny(v) == Err(HugeIntUnsupported)
  {
    if v.Union? {
      ToProtoValueVerdict(v);
    }
  }

  /**
   * A 128-bit integer is refused at the top level but accepted (as a double) once
   * it is nested, and a nested blob keeps none of its bytes.
   */
  lemma NestingChangesTheVerdict(x: i128, b: Bytes)
    ensures TryIntoAny(HugeInt(x)).Err?
    ensures TryIntoAny(Union(HugeInt(x))).Ok?
    ensures TryIntoAny(List([HugeInt(x)])).Ok?
    ensures TryIntoAny(Blob(b)) == Ok(BytesValue(b))
    ensures ToProtoValue(Blob(b)) == Ok(Value(None))
  {
    var one := [HugeInt(x)];
    assert one[1..] == [];
    assert ToProtoList(one[1..]) == Ok([]);
    assert ToProtoValue(one[0]) == Ok(Num(FromInt(x)));
  }

  /** A SQLite cell: every storage class has a representation, so this never fails. */
  function SqliteToAny(v: SqliteValue): (r: Result<ConcreteValue, Unsupported>)
    ensures r.Ok?
    ensures v.SqlNull? <==> r.value.NullValue?
    ensures v.SqlInteger? <==> r.value.Int64Value?
    ensures v.SqlReal? <==> r.value.DoubleValue?
    ensures v.SqlText? <==> r.value.StringValue?
    ensures v.SqlBlob? <==> r.value.BytesValue?
  {
    match v
    case SqlNull => Ok(NullValue)
    case SqlInteger(x) => Ok(Int64Value(x))
    case SqlReal(d) => Ok(DoubleValue(FromDouble(d)))
    case SqlText(s) => Ok(StringValue(s))
    case SqlBlob(b) => Ok(BytesValue(b))
  }

  /** No two SQLite cells are converted to the same message. */
  lemma SqliteToAnyInjective(a: SqliteValue, b: SqliteValue)
    requires SqliteToAny(a) == SqliteToAny(b)
    ensures a == b
  {
  }
}
