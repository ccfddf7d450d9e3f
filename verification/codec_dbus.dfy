/** The D-Bus `PropertiesChanged` signal: two lists and a ten-way typed value. */
module DbusCodec {
  import opened Basics
  import opened Formats
  import opened Messages
  import opened Streams
  import opened CommandCodec
  import opened TextLists

  type u16 = n: int | 0 <= n < 0x1_0000
  type i16 = n: int | -0x8000 <= n < 0x8000

  function Bits16(n: i16): u16 {
    if n < 0 then n + 0x1_0000 else n
  }

  function Signed16(bits: u16): (n: i16)
    ensures Bits16(n) == bits
  {
    if bits >= 0x8000 then bits - 0x1_0000 else bits
  }

  /** A float is its bit pattern. */
  datatype DbusValue =
    | ByteValue(byte: Byte)
    | BoolValue(flag: bool)
    | Int16(short: i16)
    | UInt16(ushort: u16)
    | Int32(number: i32)
    | UInt32(unsigned: u32)
    | Int64(long: i64)
    | UInt64(ulong: u64)
    | Double(bits: u64)
    | StringValue(text: Text)

  datatype DbusProperty = DbusProperty(name: Text, value: DbusValue)

  datatype PropertiesChanged = PropertiesChanged(interfaceName: Text, changed: seq<DbusProperty>, invalidated: seq<Text>)

  function TypedValue(v: DbusValue): Value {
    match v
    case ByteValue(byte) => Tagged(0, Num(byte))
    case BoolValue(flag) => Tagged(1, Num(if flag then 1 else 0))
    case Int16(short) => Tagged(2, Num(Bits16(short)))
    case UInt16(ushort) => Tagged(3, Num(ushort))
    case Int32(number) => Tagged(4, Num(Bits32(number)))
    case UInt32(unsigned) => Tagged(5, Num(unsigned))
    case Int64(long) => Tagged(6, Num(Bits64(long)))
    case UInt64(ulong) => Tagged(7, Num(ulong))
    case Double(bits) => Tagged(8, Num(bits))
    case StringValue(text) => Tagged(9, Raw(text))
  }

  predicate Finite(bits: u64) {
    Exponent(bits) != FLOAT_EXPONENT_ONES
  }

  function OneProperty(p: DbusProperty): Value {
    Both(Raw(p.name), TypedValue(p.value))
  }

  function PropertyValues(properties: seq<DbusProperty>): (r: seq<Value>)
    ensures |r| == |properties|
  {
    if properties == [] then []
    else PropertyValues(properties[..|properties| - 1]) + [OneProperty(properties[|properties| - 1])]
  }

  function SignalValue(signal: PropertiesChanged): Value {
    Both(Raw(signal.interfaceName), Both(Many(PropertyValues(signal.changed)), Many(TextValues(signal.invalidated))))
  }

  lemma {:induction false} PropertyValueAt(properties: seq<DbusProperty>, i: nat)
    requires i < |properties|
    ensures PropertyValues(properties)[i] == OneProperty(properties[i])
  {
    if i < |properties| - 1 {
      PropertyValueAt(properties[..|properties| - 1], i);
    }
  }

  lemma {:induction false} TypedInjective(a: DbusValue, b: DbusValue)
    ensures TypedValue(a) == TypedValue(b) ==> a == b
  {
  }

  lemma {:induction false} SignalInjective(a: PropertiesChanged, b: PropertiesChanged)
    requires SignalValue(a) == SignalValue(b)
    ensures a == b
  {
    assert |a.changed| == |PropertyValues(a.changed)| == |b.changed|;
    forall i | 0 <= i < |a.changed| ensures a.changed[i] == b.changed[i] {
      PropertyValueAt(a.changed, i);
      PropertyValueAt(b.changed, i);
      TypedInjective(a.changed[i].value, b.changed[i].value);
    }
    TextsInjective(a.invalidated, b.invalidated);
  }

  /** A signal is determined by its encoding, and comes back from it. */
  lemma {:induction false} SignalRoundTrip(a: PropertiesChanged, b: PropertiesChanged, bytes: seq<Byte>)
    requires Encode(DbusPropertiesChanged, SignalValue(a)) == Some(bytes)
    ensures Decode(DbusPropertiesChanged, bytes) == Some(SignalValue(a))
    ensures Decode(DbusPropertiesChanged, bytes) == Some(SignalValue(b)) ==> a == b
  {
    DecodeEncoded(DbusPropertiesChanged, SignalValue(a));
    if SignalValue(a) == SignalValue(b) {
      SignalInjective(a, b);
    }
  }

  const Changed := Repeat(2, MAX_PROPERTIES, Property)
  const Invalidated := Repeat(2, MAX_PROPERTIES, Str)
  const SignalBody := Pair(Str, Pair(Changed, Invalidated))
  const ValueCases := [U8, Flag, U16, U16, U32, U32, U64, U64, Check(U64, FiniteFloat), Str]

  // ----- encoding -----

  /** Width of the numeric values, by tag. */
  function WidthOf(tag: nat): nat {
    if tag <= 1 then 1 else if tag <= 3 then 2 else if tag <= 5 then 4 else 8
  }

  lemma {:induction false} FitsTyped(v: DbusValue)
    ensures var value := TypedValue(v);
            && value.tag < 10
            && (v.StringValue? ==> (Fits(PropertyValue, value) <==> Fits(Str, value.value)))
            && (v.Double? ==> (Fits(PropertyValue, value) <==> Finite(v.bits)))
            && (!v.StringValue? && !v.Double? ==> Fits(PropertyValue, value))
            && (!v.StringValue? ==> value.value.Num? && value.value.n < Power(WidthOf(value.tag)))
            && (Fits(PropertyValue, value) ==>
                  Print(PropertyValue, value) ==
                  ToBytes(value.tag, 1) + (if v.StringValue? then Print(Str, value.value) else ToBytes(value.value.n, WidthOf(value.tag))))
  {
    Powers();
    assert PropertyValue == Choice(ValueCases);
    match v
    case BoolValue(flag) => FitsRange(1, 0, 1, if flag then 1 else 0);
    case Double(bits) => FitsCheck(U64, FiniteFloat, Num(bits));
    case _ =>
  }

  method PutValue(encoder: Encoder, v: DbusValue) returns (r: Result<(), SchemaError>)
    modifies encoder
    ensures r.Ok? <==> Fits(PropertyValue, TypedValue(v))
    ensures r.Ok? ==> encoder.bytes == old(encoder.bytes) + Print(PropertyValue, TypedValue(v))
    ensures r.Err? ==> r.error == if v.Double? then Malformed else LimitExceeded
  {
    FitsTyped(v);
    Powers();
    var value := TypedValue(v);
    if v.Double? && !Finite(v.bits) {
      return Err(Malformed);
    }
    encoder.Number(value.tag, 1);
    if v.StringValue? {
      var _ :- encoder.String(v.text);
      ConcatAssociates(old(encoder.bytes), ToBytes(9, 1), Print(Str, Raw(v.text)));
    } else {
      encoder.Number(value.value.n, WidthOf(value.tag));
      ConcatAssociates(old(encoder.bytes), ToBytes(value.tag, 1), ToBytes(value.value.n, WidthOf(value.tag)));
    }
    r := Ok(());
  }

  /** Why a property cannot be written: its name or its text is too long, or its float is not finite. */
  function PropertyFault(p: DbusProperty): SchemaError {
    if Fits(Str, Raw(p.name)) && p.value.Double? then Malformed else LimitExceeded
  }

  /** The fault of the first property that does not fit; when there is none, a limit is exceeded later. */
  function PropertiesFault(properties: seq<DbusProperty>, i: nat): SchemaError
    requires i <= |properties|
    decreases |properties| - i
  {
    if i == |properties| then LimitExceeded
    else if !Fits(Property, OneProperty(properties[i])) then PropertyFault(properties[i])
    else PropertiesFault(properties, i + 1)
  }

  method PutProperty(encoder: Encoder, p: DbusProperty) returns (r: Result<(), SchemaError>)
    modifies encoder
    ensures r.Ok? <==> Fits(Property, OneProperty(p))
    ensures r.Ok? ==> encoder.bytes == old(encoder.bytes) + Print(Property, OneProperty(p))
    ensures r.Err? ==> r.error == PropertyFault(p)
  {
    FitsPair(Str, PropertyValue, Raw(p.name), TypedValue(p.value));
    var _ :- encoder.String(p.name);
    var _ :- PutValue(encoder, p.value);
    ConcatAssociates(old(encoder.bytes), Print(Str, Raw(p.name)), Print(PropertyValue, TypedValue(p.value)));
    r := Ok(());
  }

  ghost predicate PropertiesLeft(total: Option<seq<Byte>>, done: seq<Byte>, properties: seq<DbusProperty>, i: nat, after: Value)
    requires i <= |properties|
  {
    LeftAll(total, done, Property, PropertyValues(properties)[i..], Invalidated, after)
  }

  lemma {:induction false} NextProperty(total: Option<seq<Byte>>, done: seq<Byte>, properties: seq<DbusProperty>, i: nat, after: Value)
    requires i < |properties| && PropertiesLeft(total, done, properties, i, after)
    ensures Fits(Property, OneProperty(properties[i])) ==>
              PropertiesLeft(total, done + Print(Property, OneProperty(properties[i])), properties, i + 1, after)
    ensures !Fits(Property, OneProperty(properties[i])) ==> total == None
  {
    var rest := PropertyValues(properties)[i..];
    PropertyValueAt(properties, i);
    assert rest[0] == OneProperty(properties[i]) && rest[1..] == PropertyValues(properties)[i + 1..];
    LeftNext(total, done, Property, rest, Invalidated, after);
  }

  /** Writes the changed properties; `after` is what follows them. */
  method PutProperties(encoder: Encoder, properties: seq<DbusProperty>, ghost after: Value, ghost total: Option<seq<Byte>>) returns (r: Result<(), SchemaError>)
    requires Left(total, encoder.bytes, Pair(Changed, Invalidated), Both(Many(PropertyValues(properties)), after))
    requires |properties| <= MAX_PROPERTIES
    modifies encoder
    ensures r.Ok? ==> Left(total, encoder.bytes, Invalidated, after) && PropertiesFault(properties, 0) == LimitExceeded
    ensures r.Err? ==> total == None && r.error == PropertiesFault(properties, 0)
  {
    Powers();
    ghost var values := PropertyValues(properties);
    LeftRepeat(total, encoder.bytes, Changed, values, Invalidated, after);
    encoder.Number(|properties|, 2);
    assert values[0..] == values;
    var i := 0;
    while i < |properties|
      invariant 0 <= i <= |properties|
      invariant PropertiesLeft(total, encoder.bytes, properties, i, after)
      invariant PropertiesFault(properties, 0) == PropertiesFault(properties, i)
    {
      NextProperty(total, encoder.bytes, properties, i, after);
      var _ :- PutProperty(encoder, properties[i]);
      i := i + 1;
    }
    assert values[i..] == [];
    LeftNone(total, encoder.bytes, Property, Invalidated, after);
    r := Ok(());
  }

  lemma {:induction false} SignalIsWrapped(signal: PropertiesChanged)
    ensures Encode(DbusPropertiesChanged, SignalValue(signal)) == Wrap(Magic(DbusPropertiesChanged), SignalBody, SignalValue(signal))
    ensures !Fits(SignalBody, SignalValue(signal)) ==> Wrap(Magic(DbusPropertiesChanged), SignalBody, SignalValue(signal)) == None
  {
    assert Body(DbusPropertiesChanged) == SignalBody;
  }

  lemma {:induction false} FitsSignal(signal: PropertiesChanged)
    ensures Fits(SignalBody, SignalValue(signal)) ==> |signal.changed| <= MAX_PROPERTIES && |signal.invalidated| <= MAX_PROPERTIES
  {
    var v := SignalValue(signal);
    FitsPair(Str, Pair(Changed, Invalidated), v.first, v.second);
    FitsPair(Changed, Invalidated, v.second.first, v.second.second);
  }

  /** Why a signal cannot be written. */
  function SignalFault(signal: PropertiesChanged): SchemaError {
    if |signal.changed| > MAX_PROPERTIES || |signal.invalidated| > MAX_PROPERTIES || !Fits(Str, Raw(signal.interfaceName)) then LimitExceeded
    else PropertiesFault(signal.changed, 0)
  }

  method EncodeSignal(signal: PropertiesChanged) returns (r: Result<seq<Byte>, SchemaError>)
    ensures r.Ok? <==> Encode(DbusPropertiesChanged, SignalValue(signal)).Some?
    ensures r.Ok? ==> Encode(DbusPropertiesChanged, SignalValue(signal)) == Some(r.value)
    ensures r.Err? ==> r.error == SignalFault(signal)
  {
    SignalIsWrapped(signal);
    FitsSignal(signal);
    if |signal.changed| > MAX_PROPERTIES || |signal.invalidated| > MAX_PROPERTIES {
      return Err(LimitExceeded);
    }
    var encoder := new Encoder(DbusPropertiesChanged);
    ghost var v := SignalValue(signal);
    ghost var total := Whole(encoder.bytes, SignalBody, v);
    LeftPair(total, encoder.bytes, Str, Pair(Changed, Invalidated), v.first, v.second);
    var _ :- encoder.String(signal.interfaceName);
    var _ :- PutProperties(encoder, signal.changed, v.second.second, total);
    var _ :- PutTexts(encoder, signal.invalidated, MAX_PROPERTIES, total);
    r := encoder.Finish();
  }

  // ----- decoding -----

  /** The value that a numeric tag and a bit pattern stand for. */
  function FromBits(tag: nat, n: nat): (v: DbusValue)
    requires tag < 9 && n < Power(WidthOf(tag)) && (tag == 1 ==> n <= 1)
    ensures TypedValue(v) == Tagged(tag, Num(n))
  {
    Powers();
    match tag
    case 0 => ByteValue(n)
    case 1 => BoolValue(n == 1)
    case 2 => Int16(Signed16(n))
    case 3 => UInt16(n)
    case 4 => Int32(Signed32(n))
    case 5 => UInt32(n)
    case 6 => Int64(Signed64(n))
    case 7 => UInt64(n)
    case _ => Double(n)
  }

  /** A boolean is zero or one, and a float is finite. */
  predicate Proper(tag: nat, n: nat) {
    (tag == 1 ==> n <= 1) && (tag == 8 ==> Exponent(n) != FLOAT_EXPONENT_ONES)
  }

  lemma {:induction false} ParseNumeric(tag: nat, bytes: seq<Byte>)
    requires tag < 9
    ensures Parse(ValueCases[tag], bytes) == match ParseNumber(WidthOf(tag), bytes)
                                             case None => None
                                             case Some(n) => if Proper(tag, n.value) then Some(Parsed(Num(n.value), n.rest)) else None
    ensures ParseError(ValueCases[tag], bytes) == Malformed
  {
    match tag
    case 1 => ParseCheck(U8, Between(0, 1), bytes);
    case 8 => ParseCheck(U64, FiniteFloat, bytes);
    case _ => assert ValueCases[tag] == Number(WidthOf(tag));
  }

  method GetValue(decoder: Decoder) returns (r: Result<DbusValue, SchemaError>)
    modifies decoder
    ensures match Parse(PropertyValue, old(decoder.remaining))
            case None => r == Err(ParseError(PropertyValue, old(decoder.remaining)))
            case Some(p) => r.Ok? && p.value == TypedValue(r.value) && decoder.remaining == p.rest
  {
    assert PropertyValue == Choice(ValueCases);
    ParseChoice(ValueCases, decoder.remaining);
    var tag :- decoder.Number(1);
    if tag >= 10 {
      return Err(Malformed);
    }
    if tag == 9 {
      var text :- decoder.String();
      return Ok(StringValue(text));
    }
    ParseNumeric(tag, decoder.remaining);
    var n :- decoder.Number(WidthOf(tag));
    if !Proper(tag, n) {
      return Err(Malformed);
    }
    r := Ok(FromBits(tag, n));
  }

  method GetProperty(decoder: Decoder) returns (r: Result<DbusProperty, SchemaError>)
    modifies decoder
    ensures match Parse(Property, old(decoder.remaining))
            case None => r == Err(ParseError(Property, old(decoder.remaining)))
            case Some(p) => r.Ok? && p.value == OneProperty(r.value) && decoder.remaining == p.rest
  {
    ParsePair(Str, PropertyValue, decoder.remaining);
    var name :- decoder.String();
    var value :- GetValue(decoder);
    r := Ok(DbusProperty(name, value));
  }

  /** What is left to read, and the fault should it fail. */
  ghost predicate PropertiesAhead(total: Option<Parsed<seq<Value>>>, fault: SchemaError, properties: seq<DbusProperty>, left: nat, bytes: seq<Byte>) {
    Ahead(total, PropertyValues(properties), Property, left, bytes) && fault == AllError(Property, left, bytes)
  }

  lemma {:induction false} MoreProperties(properties: seq<DbusProperty>, p: DbusProperty)
    ensures PropertyValues(properties + [p]) == PropertyValues(properties) + [OneProperty(p)]
  {
    assert (properties + [p])[..|properties|] == properties;
  }

  method GetNext(decoder: Decoder, properties: seq<DbusProperty>, ghost total: Option<Parsed<seq<Value>>>, ghost fault: SchemaError, ghost left: nat)
    returns (r: Result<seq<DbusProperty>, SchemaError>)
    requires left > 0 && PropertiesAhead(total, fault, properties, left, decoder.remaining)
    modifies decoder
    ensures r.Ok? ==> PropertiesAhead(total, fault, r.value, left - 1, decoder.remaining)
    ensures r.Err? ==> total == None && r.error == fault
  {
    AllErrorNext(Property, left, decoder.remaining);
    AheadNext(total, PropertyValues(properties), Property, left, decoder.remaining);
    var next :- GetProperty(decoder);
    MoreProperties(properties, next);
    r := Ok(properties + [next]);
  }

  method GetProperties(decoder: Decoder) returns (r: Result<seq<DbusProperty>, SchemaError>)
    modifies decoder
    ensures match Parse(Changed, old(decoder.remaining))
            case None => r == Err(ParseError(Changed, old(decoder.remaining)))
            case Some(p) => r.Ok? && p.value == Many(PropertyValues(r.value)) && decoder.remaining == p.rest
  {
    ParseRepeat(2, MAX_PROPERTIES, Property, decoder.remaining);
    var count :- decoder.Number(2);
    if count > MAX_PROPERTIES {
      return Err(LimitExceeded);
    }
    ghost var fault := AllError(Property, count, decoder.remaining);
    ghost var total := ParseAll(Property, count, decoder.remaining);
    AheadStart(Property, count, decoder.remaining);
    var properties: seq<DbusProperty> := [];
    var left: nat := count;
    while left > 0
      invariant PropertiesAhead(total, fault, properties, left, decoder.remaining)
    {
      properties :- GetNext(decoder, properties, total, fault, left);
      left := left - 1;
    }
    AheadDone(total, PropertyValues(properties), Property, decoder.remaining);
    r := Ok(properties);
  }

  lemma {:induction false} DecodeIsUnwrap(bytes: seq<Byte>)
    ensures Decode(DbusPropertiesChanged, bytes) == Unwrap(Magic(DbusPropertiesChanged), SignalBody, bytes)
  {
    assert Body(DbusPropertiesChanged) == SignalBody;
  }

  method DecodeSignal(bytes: seq<Byte>) returns (r: Result<PropertiesChanged, SchemaError>)
    ensures r.Ok? <==> Decode(DbusPropertiesChanged, bytes).Some?
    ensures r.Ok? ==> Decode(DbusPropertiesChanged, bytes) == Some(SignalValue(r.value))
    ensures r.Err? ==> r.error == UnwrapError(Magic(DbusPropertiesChanged), SignalBody, bytes)
  {
    DecodeIsUnwrap(bytes);
    var decoder :- Decoder.Open(bytes, DbusPropertiesChanged);
    ParsePair(Str, Pair(Changed, Invalidated), decoder.remaining);
    var name :- decoder.String();
    ParsePair(Changed, Invalidated, decoder.remaining);
    var changed :- GetProperties(decoder);
    var invalidated :- TextLists.GetTexts(decoder, MAX_PROPERTIES);
    var _ :- decoder.Finish();
    r := Ok(PropertiesChanged(name, changed, invalidated));
  }
}
