/** What record values mean: where a pointer leads, and which typed value a JSON value is converted to. */
module Conversions {
  import opened Basics
  import opened JsonPointers
  import opened JsonText
  import opened Schemas

  // ---------- pointers into values ----------

  function DigitsValue(digits: string): nat
    requires forall i :: 0 <= i < |digits| ==> '0' <= digits[i] <= '9'
  {
    if digits == [] then 0 else DigitsValue(digits[..|digits| - 1]) * 10 + (digits[|digits| - 1] as int - '0' as int)
  }

  /** A decimal array index without sign or leading zeros. */
  function ArrayIndex(token: Token): Option<nat> {
    if token == [] || (|token| > 1 && token[0] == '0') then None
    else if exists i :: 0 <= i < |token| && !('0' <= token[i] <= '9') then None
    else if DigitsValue(token) > U64_MAX then None
    else Some(DigitsValue(token))
  }

  function Step(value: Json, token: Token): Option<Json> {
    match value
    case JObject(entries) => if token in entries then Some(entries[token]) else None
    case JArray(elements) =>
      var index := ArrayIndex(token);
      if index.Some? && index.value < |elements| then Some(elements[index.value]) else None
    case _ => None
  }

  function Resolve(value: Json, pointer: seq<Token>): Option<Json> {
    if pointer == [] then Some(value)
    else
      var next := Step(value, pointer[0]);
      if next.None? then None else Resolve(next.value, pointer[1..])
  }

  /** Follows a pointer token by token. */
  method ResolvePointer(root: Json, pointer: seq<Token>) returns (r: Option<Json>)
    ensures r == Resolve(root, pointer)
    ensures forall found :: r == Some(found) <==> Leads(root, pointer, found)
  {
    hide Leads;
    forall found ensures Resolve(root, pointer) == Some(found) <==> Leads(root, pointer, found) {
      ResolveMeans(root, pointer, found);
    }
    var current := root;
    for i := 0 to |pointer|
      invariant Resolve(root, pointer) == Resolve(current, pointer[i..])
    {
      assert pointer[i..][0] == pointer[i] && pointer[i..][1..] == pointer[i + 1..];
      var next := Step(current, pointer[i]);
      if next.None? {
        return None;
      }
      current := next.value;
    }
    return Some(current);
  }

  // ---------- conversions ----------

  datatype Value =
    | VNull | VBool(b: bool) | VInt32(i: int) | VInt64(l: int) | VUInt32(u: int) | VUInt64(ul: int)
    | VFloat32(f: int) | VFloat64(d: int) | VUtf8(text: string) | VDatetime(milliseconds: int)

  datatype TimeFormat = Rfc3339 | UnixMilliseconds

  /** What numerals and timestamps denote: integers of either signedness, finite floats by their bits, and RFC 3339
      timestamps of whole milliseconds. */
  datatype RawReader = Reader(
    signed: string -> Option<int>, unsigned: string -> Option<int>,
    float32: string -> Option<int>, float64: string -> Option<int>, timestamp: string -> Option<int>,
    inUtcRange: int -> bool)

  const I64_MIN: int := -0x8000_0000_0000_0000

  /** A numeral read both ways is the same integer, and each way reads integers of its own range. */
  ghost predicate ReadsNumerals(reader: RawReader) {
    forall numeral ::
      && (reader.signed(numeral).Some? ==> I64_MIN <= reader.signed(numeral).value <= I64_MAX)
      && (reader.unsigned(numeral).Some? ==> 0 <= reader.unsigned(numeral).value <= U64_MAX)
      && (reader.signed(numeral).Some? && reader.unsigned(numeral).Some? ==>
            reader.signed(numeral) == reader.unsigned(numeral))
  }

  type Reader = reader: RawReader | ReadsNumerals(reader)
    witness RawReader.Reader(_ => None, _ => None, _ => None, _ => None, _ => None, _ => false)

  function IntegerI64(value: Json, reader: Reader): Option<int> {
    if !value.JNumber? then None
    else if reader.signed(value.number).Some? then reader.signed(value.number)
    else
      var unsigned := reader.unsigned(value.number);
      if unsigned.Some? && unsigned.value <= I64_MAX then unsigned else None
  }

  function IntegerU64(value: Json, reader: Reader): Option<int> {
    if !value.JNumber? then None
    else if reader.unsigned(value.number).Some? then reader.unsigned(value.number)
    else
      var signed := reader.signed(value.number);
      if signed.Some? && signed.value >= 0 then signed else None
  }

  /** RFC 3339 text, as the adapter reads timestamps. */
  function ReadTimestamp(value: Json, reader: Reader): Option<int> {
    if !value.JString? then None
    else
      var milliseconds := reader.timestamp(value.text);
      if milliseconds.Some? && reader.inUtcRange(milliseconds.value) then milliseconds else None
  }

  /** A timestamp in the format of the profile, as normalization reads it. */
  function ReadDatetime(value: Json, format: TimeFormat, reader: Reader): Option<int> {
    match format
    case Rfc3339 => ReadTimestamp(value, reader)
    case UnixMilliseconds =>
      var milliseconds := IntegerI64(value, reader);
      if milliseconds.Some? && reader.inUtcRange(milliseconds.value) then milliseconds else None
  }

  function Narrow(value: Option<int>, low: int, high: int): Option<int> {
    if value.Some? && low <= value.value <= high then value else None
  }

  function As(value: Option<int>, make: int -> Value): Option<Value> {
    if value.None? then None else Some(make(value.value))
  }

  /** Everything but timestamps, which the two sides read differently. */
  function ConvertPlain(value: Json, kind: LogicalType, reader: Reader): Option<Value> {
    match kind
    case Bool => if value.JBool? then Some(VBool(value.value)) else None
    case Int32 => As(Narrow(IntegerI64(value, reader), -0x8000_0000, 0x7FFF_FFFF), i => VInt32(i))
    case Int64 => As(IntegerI64(value, reader), i => VInt64(i))
    case UInt32 => As(Narrow(IntegerU64(value, reader), 0, 0xFFFF_FFFF), i => VUInt32(i))
    case UInt64 => As(IntegerU64(value, reader), i => VUInt64(i))
    case Float32 => if value.JNumber? then As(reader.float32(value.number), i => VFloat32(i)) else None
    case Float64 => if value.JNumber? then As(reader.float64(value.number), i => VFloat64(i)) else None
    case Utf8 => if value.JString? then Some(VUtf8(value.text)) else None
    case _ => None
  }

  /** The conversion of normalization. */
  function Convert(value: Json, kind: LogicalType, format: TimeFormat, reader: Reader): Option<Value> {
    if kind == Datetime then As(ReadDatetime(value, format, reader), i => VDatetime(i))
    else ConvertPlain(value, kind, reader)
  }

  /** The conversion of the adapter. */
  function ConvertHistorical(value: Json, kind: LogicalType, reader: Reader): Option<Value> {
    if kind == Datetime then As(ReadTimestamp(value, reader), i => VDatetime(i)) else ConvertPlain(value, kind, reader)
  }

  // ---------- where pointers lead ----------

  function Digit(n: nat): char
    requires n < 10
  {
    ('0' as int + n) as char
  }

  /** The decimal spelling of a number. */
  function Decimal(n: nat): (digits: string)
    ensures digits != [] && forall i :: 0 <= i < |digits| ==> '0' <= digits[i] <= '9'
  {
    if n < 10 then [Digit(n)] else Decimal(n / 10) + [Digit(n % 10)]
  }

  lemma {:induction false} ValueOfDecimal(n: nat)
    ensures DigitsValue(Decimal(n)) == n
    ensures |Decimal(n)| > 1 ==> Decimal(n)[0] != '0'
  {
    var digits := Decimal(n);
    if n < 10 {
      assert digits[..0] == [];
    } else {
      ValueOfDecimal(n / 10);
      assert digits[..|digits| - 1] == Decimal(n / 10);
      if |Decimal(n / 10)| == 1 {
        assert n / 10 < 10;
      }
    }
  }

  lemma {:induction false} DecimalOfValue(digits: string)
    requires digits != [] && forall i :: 0 <= i < |digits| ==> '0' <= digits[i] <= '9'
    requires |digits| > 1 ==> digits[0] != '0'
    ensures Decimal(DigitsValue(digits)) == digits
    ensures digits[0] != '0' ==> DigitsValue(digits) > 0
  {
    var n := |digits| - 1;
    var init, last := digits[..n], digits[n];
    var d := last as int - '0' as int;
    assert digits == init + [last] && Digit(d) == last;
    assert DigitsValue(digits) == DigitsValue(init) * 10 + d;
    if n > 0 {
      DecimalOfValue(init);
      hide DigitsValue, Digit;
      DecimalStep(DigitsValue(init), d);
    }
  }

  lemma DecimalStep(n: nat, d: nat)
    requires 0 < n && d < 10
    ensures Decimal(n * 10 + d) == Decimal(n) + [Digit(d)]
  {
    assert (n * 10 + d) / 10 == n && (n * 10 + d) % 10 == d;
  }

  /** An array index is a number in its decimal spelling, and no other text is one. */
  lemma ArrayIndexMeans(token: Token, n: nat)
    ensures ArrayIndex(token) == Some(n) <==> token == Decimal(n) && n <= U64_MAX
  {
    if token == Decimal(n) {
      ValueOfDecimal(n);
    } else if ArrayIndex(token).Some? {
      DecimalOfValue(token);
    }
  }

  /** The child of an object under a name, or of an array at a decimal index. */
  ghost predicate IsChild(parent: Json, token: Token, child: Json) {
    match parent
    case JObject(entries) => token in entries && child == entries[token]
    case JArray(elements) =>
      exists i: nat :: i < |elements| && i <= U64_MAX && token == Decimal(i) && child == elements[i]
    case _ => false
  }

  /** The values on the way from one value to another. */
  ghost predicate IsTrail(trail: seq<Json>, root: Json, pointer: seq<Token>, found: Json) {
    && |trail| == |pointer| + 1 && trail[0] == root && trail[|pointer|] == found
    && forall i :: 0 <= i < |pointer| ==> IsChild(trail[i], pointer[i], trail[i + 1])
  }

  /** The pointer leads from one value to the other. */
  ghost predicate Leads(root: Json, pointer: seq<Token>, found: Json) {
    exists trail :: IsTrail(trail, root, pointer, found)
  }

  lemma StepMeans(parent: Json, token: Token, child: Json)
    ensures Step(parent, token) == Some(child) <==> IsChild(parent, token, child)
  {
    if parent.JArray? {
      var index := ArrayIndex(token);
      if index.Some? {
        ArrayIndexMeans(token, index.value);
        forall i: nat | token == Decimal(i) ensures i == index.value {
          ValueOfDecimal(i);
          ValueOfDecimal(index.value);
        }
      } else {
        forall i: nat | i <= U64_MAX ensures token != Decimal(i) {
          ArrayIndexMeans(token, i);
        }
      }
    }
  }

  /** Resolving finds a value exactly where the pointer leads. */
  lemma {:induction false} ResolveMeans(root: Json, pointer: seq<Token>, found: Json)
    ensures Resolve(root, pointer) == Some(found) <==> Leads(root, pointer, found)
    decreases |pointer|
  {
    hide Step, IsChild;
    if pointer == [] {
      NoSteps(root, found);
    } else {
      var next := Step(root, pointer[0]);
      if next.Some? {
        StepMeans(root, pointer[0], next.value);
        ResolveMeans(next.value, pointer[1..], found);
        if Leads(next.value, pointer[1..], found) {
          LeadsOn(root, next.value, pointer, found);
        }
      }
      if Leads(root, pointer, found) {
        var child := FirstStep(root, pointer, found);
        StepMeans(root, pointer[0], child);
        ResolveMeans(child, pointer[1..], found);
      }
    }
  }

  lemma NoSteps(root: Json, found: Json)
    ensures Leads(root, [], found) <==> root == found
  {
    if root == found {
      assert IsTrail([root], root, [], found);
    }
  }

  lemma LeadsOn(root: Json, next: Json, pointer: seq<Token>, found: Json)
    requires pointer != [] && IsChild(root, pointer[0], next) && Leads(next, pointer[1..], found)
    ensures Leads(root, pointer, found)
  {
    hide IsChild;
    var trail :| IsTrail(trail, next, pointer[1..], found);
    var longer := [root] + trail;
    forall i | 0 <= i < |pointer| ensures IsChild(longer[i], pointer[i], longer[i + 1]) {
      if i > 0 {
        assert IsChild(trail[i - 1], pointer[1..][i - 1], trail[i]);
      }
    }
    assert IsTrail(longer, root, pointer, found);
  }

  lemma FirstStep(root: Json, pointer: seq<Token>, found: Json) returns (child: Json)
    requires pointer != [] && Leads(root, pointer, found)
    ensures IsChild(root, pointer[0], child) && Leads(child, pointer[1..], found)
  {
    hide IsChild;
    var trail :| IsTrail(trail, root, pointer, found);
    child := trail[1];
    var rest := trail[1..];
    forall i | 0 <= i < |pointer[1..]| ensures IsChild(rest[i], pointer[1..][i], rest[i + 1]) {
      assert IsChild(trail[i + 1], pointer[i + 1], trail[i + 2]);
    }
    assert IsTrail(rest, child, pointer[1..], found);
  }

  // ---------- what conversions give ----------

  /** The numeral denotes the integer, read as a signed or as an unsigned one. */
  ghost predicate Denotes(reader: Reader, numeral: string, n: int) {
    reader.signed(numeral) == Some(n) || reader.unsigned(numeral) == Some(n)
  }

  /** The value tells the time, as RFC 3339 text or as a number of milliseconds. */
  ghost predicate Tells(value: Json, format: TimeFormat, reader: Reader, milliseconds: int) {
    && reader.inUtcRange(milliseconds)
    && match format
       case Rfc3339 => value.JString? && reader.timestamp(value.text) == Some(milliseconds)
       case UnixMilliseconds =>
         value.JNumber? && Denotes(reader, value.number, milliseconds)
         && -0x8000_0000_0000_0000 <= milliseconds <= 0x7FFF_FFFF_FFFF_FFFF
  }

  /** What a value of a type is stored as: an integer of the type's range that the numeral denotes, the bits of a float,
      the text itself, the boolean itself, or the time it tells. Nothing else is stored. */
  ghost predicate Gives(value: Json, kind: LogicalType, format: TimeFormat, reader: Reader, v: Value) {
    match v
    case VNull => false
    case VBool(b) => kind == LogicalType.Bool && value == JBool(b)
    case VInt32(n) =>
      kind == Int32 && value.JNumber? && Denotes(reader, value.number, n) && -0x8000_0000 <= n <= 0x7FFF_FFFF
    case VInt64(n) =>
      kind == Int64 && value.JNumber? && Denotes(reader, value.number, n)
      && -0x8000_0000_0000_0000 <= n <= 0x7FFF_FFFF_FFFF_FFFF
    case VUInt32(n) =>
      kind == UInt32 && value.JNumber? && Denotes(reader, value.number, n) && 0 <= n <= 0xFFFF_FFFF
    case VUInt64(n) =>
      kind == UInt64 && value.JNumber? && Denotes(reader, value.number, n) && 0 <= n <= 0xFFFF_FFFF_FFFF_FFFF
    case VFloat32(bits) => kind == Float32 && value.JNumber? && reader.float32(value.number) == Some(bits)
    case VFloat64(bits) => kind == Float64 && value.JNumber? && reader.float64(value.number) == Some(bits)
    case VUtf8(text) => kind == Utf8 && value == JString(text)
    case VDatetime(milliseconds) => kind == Datetime && Tells(value, format, reader, milliseconds)
  }

  lemma ReadDatetimeMeans(value: Json, format: TimeFormat, reader: Reader, milliseconds: int)
    ensures ReadDatetime(value, format, reader) == Some(milliseconds) <==> Tells(value, format, reader, milliseconds)
  {
  }

  /** Normalization converts a value exactly when it gives one of the field's type, and to that one. */
  lemma ConvertMeans(value: Json, kind: LogicalType, format: TimeFormat, reader: Reader, v: Value)
    ensures Convert(value, kind, format, reader) == Some(v) <==> Gives(value, kind, format, reader, v)
  {
    if kind == Datetime && v.VDatetime? {
      ReadDatetimeMeans(value, format, reader, v.milliseconds);
    }
  }

  /** The adapter converts like normalization under a profile that reads RFC 3339. */
  lemma ConvertHistoricalMeans(value: Json, kind: LogicalType, reader: Reader, v: Value)
    ensures ConvertHistorical(value, kind, reader) == Some(v) <==> Gives(value, kind, Rfc3339, reader, v)
  {
    ConvertMeans(value, kind, Rfc3339, reader, v);
  }
}
