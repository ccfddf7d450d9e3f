/** The encoder that grows a buffer and the decoder that consumes one, field by field. */
module Streams {
  import opened Basics
  import opened Formats
  import opened Messages

  datatype SchemaError = Malformed | LimitExceeded

  // ----- what is left to print -----

  /** `total` is what results from printing `v` after `done`; nothing when `v` does not fit. */
  ghost predicate Left(total: Option<seq<Byte>>, done: seq<Byte>, f: Format, v: Value) {
    total == if Fits(f, v) then Some(done + Print(f, v)) else None
  }

  /** The whole payload, whatever its length; nothing when `v` does not fit. */
  ghost function Whole(magic: seq<Byte>, body: Format, v: Value): (total: Option<seq<Byte>>)
    ensures Left(total, magic, body, v)
    ensures Wrap(magic, body, v) == if total.Some? && |total.value| <= MAX_PAYLOAD_BYTES then total else None
  {
    if Fits(body, v) then Some(magic + Print(body, v)) else None
  }

  lemma {:induction false} LeftPair(total: Option<seq<Byte>>, done: seq<Byte>, f: Format, g: Format, x: Value, y: Value)
    requires Left(total, done, Pair(f, g), Both(x, y))
    ensures Fits(f, x) ==> Left(total, done + Print(f, x), g, y)
    ensures !Fits(f, x) ==> total == None
  {
    if Fits(f, x) && Fits(g, y) {
      ConcatAssociates(done, Print(f, x), Print(g, y));
    }
  }

  lemma {:induction false} LeftChoice(total: Option<seq<Byte>>, done: seq<Byte>, cases: seq<Format>, tag: nat, v: Value)
    requires Left(total, done, Choice(cases), Tagged(tag, v)) && tag < |cases| && tag < Power(1)
    ensures Left(total, done + ToBytes(tag, 1), cases[tag], v)
  {
    if Fits(cases[tag], v) {
      ConcatAssociates(done, ToBytes(tag, 1), Print(cases[tag], v));
    }
  }

  lemma {:induction false} LeftCheck(total: Option<seq<Byte>>, done: seq<Byte>, inner: Format, rule: Rule, v: Value)
    requires Left(total, done, Check(inner, rule), v)
    ensures Holds(rule, v) ==> Left(total, done, inner, v)
    ensures !Holds(rule, v) ==> total == None
  {
  }

  lemma {:induction false} FitsPair(f: Format, g: Format, x: Value, y: Value)
    ensures Fits(Pair(f, g), Both(x, y)) <==> Fits(f, x) && Fits(g, y)
  {
  }

  lemma {:induction false} FitsCheck(inner: Format, rule: Rule, v: Value)
    ensures Fits(Check(inner, rule), v) <==> Fits(inner, v) && Holds(rule, v)
    ensures Fits(Check(inner, rule), v) ==> Print(Check(inner, rule), v) == Print(inner, v)
  {
  }

  /** Numbers within a range, written in `width` bytes. */
  lemma {:induction false} FitsRange(width: nat, low: nat, high: nat, n: nat)
    ensures Fits(Check(Number(width), Between(low, high)), Num(n)) <==> n < Power(width) && low <= n <= high
    ensures Fits(Check(Number(width), Between(low, high)), Num(n)) ==>
              Print(Check(Number(width), Between(low, high)), Num(n)) == Print(Number(width), Num(n)) == ToBytes(n, width)
  {
    FitsCheck(Number(width), Between(low, high), Num(n));
  }

  ghost predicate AllFit(each: Format, values: seq<Value>) {
    forall i :: 0 <= i < |values| ==> Fits(each, values[i])
  }

  /** The same for the rest of a repetition that `after` follows. */
  ghost predicate LeftAll(total: Option<seq<Byte>>, done: seq<Byte>, each: Format, values: seq<Value>, g: Format, y: Value) {
    total == if AllFit(each, values) && Fits(g, y) then Some(done + PrintAll(each, values) + Print(g, y)) else None
  }

  lemma {:induction false} Regroup(a: seq<Byte>, b: seq<Byte>, c: seq<Byte>, d: seq<Byte>)
    ensures a + ((b + c) + d) == ((a + b) + c) + d
  {
    ConcatAssociates(a, b + c, d);
    ConcatAssociates(a, b, c);
  }

  lemma {:induction false} LeftRepeat(total: Option<seq<Byte>>, done: seq<Byte>, f: Format, values: seq<Value>, g: Format, y: Value)
    requires f.Repeat? && Left(total, done, Pair(f, g), Both(Many(values), y))
    ensures |values| <= f.maximum && |values| < Power(f.prefix) ==> LeftAll(total, done + ToBytes(|values|, f.prefix), f.each, values, g, y)
    ensures |values| > f.maximum ==> total == None
  {
    assert Fits(f, Many(values)) <==> |values| <= f.maximum && |values| < Power(f.prefix) && AllFit(f.each, values);
    if Fits(f, Many(values)) && Fits(g, y) {
      Regroup(done, ToBytes(|values|, f.prefix), PrintAll(f.each, values), Print(g, y));
      assert Print(f, Many(values)) == ToBytes(|values|, f.prefix) + PrintAll(f.each, values);
    }
  }

  lemma {:induction false} LeftRepeatLast(total: Option<seq<Byte>>, done: seq<Byte>, f: Format, values: seq<Value>)
    requires f.Repeat? && Left(total, done, f, Many(values))
    ensures |values| <= f.maximum && |values| < Power(f.prefix) ==> LeftAll(total, done + ToBytes(|values|, f.prefix), f.each, values, Nothing, Unit)
    ensures |values| > f.maximum ==> total == None
  {
    assert Fits(f, Many(values)) <==> |values| <= f.maximum && |values| < Power(f.prefix) && AllFit(f.each, values);
    if Fits(f, Many(values)) {
      ConcatAssociates(done, ToBytes(|values|, f.prefix), PrintAll(f.each, values));
      assert done + ToBytes(|values|, f.prefix) + PrintAll(f.each, values) + [] == done + ToBytes(|values|, f.prefix) + PrintAll(f.each, values);
    }
  }

  lemma {:induction false} LeftNext(total: Option<seq<Byte>>, done: seq<Byte>, each: Format, values: seq<Value>, g: Format, y: Value)
    requires LeftAll(total, done, each, values, g, y) && values != []
    ensures Fits(each, values[0]) ==> LeftAll(total, done + Print(each, values[0]), each, values[1..], g, y)
    ensures !Fits(each, values[0]) ==> total == None
  {
    assert AllFit(each, values) <==> Fits(each, values[0]) && AllFit(each, values[1..]) by {
      assert values == [values[0]] + values[1..];
      assert forall i :: 0 <= i < |values[1..]| ==> values[1..][i] == values[i + 1];
    }
    if AllFit(each, values) {
      ConcatAssociates(done, Print(each, values[0]), PrintAll(each, values[1..]));
    }
  }

  lemma {:induction false} LeftNone(total: Option<seq<Byte>>, done: seq<Byte>, each: Format, g: Format, y: Value)
    requires LeftAll(total, done, each, [], g, y)
    ensures Left(total, done, g, y)
  {
    assert done + [] == done;
  }

  lemma {:induction false} LeftNothing(total: Option<seq<Byte>>, done: seq<Byte>)
    requires Left(total, done, Nothing, Unit)
    ensures total == Some(done)
  {
    assert done + [] == done;
  }

  class Encoder {
    var bytes: seq<Byte>

    constructor (kind: Kind)
      ensures bytes == Magic(kind)
    {
      bytes := Magic(kind);
    }

    /** The fixed-width writers: `byte`, `u16`, `u32`, `u64` and the signed ones, by bit pattern. */
    method Number(value: nat, width: nat)
      requires value < Power(width)
      modifies this
      ensures bytes == old(bytes) + Print(Formats.Number(width), Num(value))
    {
      bytes := bytes + ToBytes(value, width);
    }

    method String(value: Text) returns (r: Result<(), SchemaError>)
      modifies this
      ensures r.Ok? <==> Fits(Str, Raw(value))
      ensures r.Ok? ==> bytes == old(bytes) + Print(Str, Raw(value))
      ensures r.Err? ==> r.error == LimitExceeded
    {
      if |value| > MAX_STRING_BYTES || |value| > 0xFFFF {
        return Err(LimitExceeded);
      }
      Powers();
      Number(|value|, 2);
      ConcatAssociates(old(bytes), ToBytes(|value|, 2), value);
      bytes := bytes + value;
      r := Ok(());
    }

    method OptionalString(value: Option<Text>) returns (r: Result<(), SchemaError>)
      modifies this
      ensures r.Ok? <==> Fits(Optional(Str), OptionalText(value))
      ensures r.Ok? ==> bytes == old(bytes) + Print(Optional(Str), OptionalText(value))
      ensures r.Err? ==> r.error == LimitExceeded
    {
      Powers();
      if value.None? {
        Number(0, 1);
        assert ToBytes(0, 1) + [] == ToBytes(0, 1);
        return Ok(());
      }
      Number(1, 1);
      ghost var tagged := bytes;
      var _ :- String(value.value);
      ConcatAssociates(old(bytes), ToBytes(1, 1), Print(Str, Raw(value.value)));
      r := Ok(());
    }

    method Finish() returns (r: Result<seq<Byte>, SchemaError>)
      ensures r == if |bytes| > MAX_PAYLOAD_BYTES then Err(LimitExceeded) else Ok(bytes)
    {
      r := if |bytes| > MAX_PAYLOAD_BYTES then Err(LimitExceeded) else Ok(bytes);
    }
  }

  function OptionalText(value: Option<Text>): Value {
    match value
    case None => Tagged(0, Unit)
    case Some(text) => Tagged(1, Raw(text))
  }

  // ----- why parsing fails -----

  predicate IsDistinctRule(rule: Rule) {
    rule.DistinctValues? || rule.DistinctFirsts? || rule.DistinctNames?
  }

  /** What has to differ from element to element. */
  function KeyOf(rule: Rule, v: Value): Value {
    match rule
    case DistinctFirsts => FirstOf(v)
    case DistinctNames => NameOf(v)
    case _ => v
  }

  function KeySet(rule: Rule, values: seq<Value>): set<Value> {
    if values == [] then {} else KeySet(rule, values[..|values| - 1]) + {KeyOf(rule, values[|values| - 1])}
  }

  function RuleError(rule: Rule): SchemaError {
    if rule.LengthBetween? then LimitExceeded else Malformed
  }

  /** Why counted bytes cannot be read: a length beyond the limit, or else too few or wrong bytes. */
  function CountedError(prefix: nat, maximum: nat, bytes: seq<Byte>): SchemaError {
    var length := ParseNumber(prefix, bytes);
    if length.Some? && length.value.value > maximum then LimitExceeded else Malformed
  }

  /** The first fault that a decoder meets in bytes that do not parse. */
  function ParseError(f: Format, bytes: seq<Byte>): SchemaError
    decreases f, 0, bytes
  {
    match f
    case Number(_) => Malformed
    case Block(prefix, maximum) => CountedError(prefix, maximum, bytes)
    case Nothing => Malformed
    case Pair(first, second) => (
      match Parse(first, bytes)
      case None => ParseError(first, bytes)
      case Some(a) => ParseError(second, a.rest))
    case Choice(cases) => (
      match ParseNumber(1, bytes)
      case None => Malformed
      case Some(n) => if n.value >= |cases| then Malformed else ParseError(cases[n.value], n.rest))
    case Repeat(prefix, maximum, each) => (
      match ParseNumber(prefix, bytes)
      case None => Malformed
      case Some(n) => if n.value > maximum then LimitExceeded else AllError(each, n.value, n.rest))
    case Check(inner, rule) =>
      if inner.Repeat? && IsDistinctRule(rule) then
        match ParseNumber(inner.prefix, bytes)
        case None => Malformed
        case Some(n) => if n.value > inner.maximum then LimitExceeded else KeyedError(rule, inner.each, n.value, n.rest, [])
      else if Parse(inner, bytes).None? then ParseError(inner, bytes)
      else RuleError(rule)
  }

  function AllError(each: Format, count: nat, bytes: seq<Byte>): SchemaError
    decreases each, count + 1, bytes
  {
    if count == 0 then Malformed
    else
      match Parse(each, bytes)
      case None => ParseError(each, bytes)
      case Some(first) => AllError(each, count - 1, first.rest)
  }

  /** The fault of one element of a list with distinct keys: a key that comes first is compared as
      soon as it is read, any other once the element is read. */
  function StepError(rule: Rule, each: Format, bytes: seq<Byte>, known: set<Value>): SchemaError
    decreases each, 1, bytes
  {
    if rule.DistinctFirsts? && each.Pair? && Parse(each.first, bytes).Some? && Parse(each.first, bytes).value.value in known then Malformed
    else if Parse(each, bytes).None? then ParseError(each, bytes)
    else Malformed
  }

  function KeyedError(rule: Rule, each: Format, count: nat, bytes: seq<Byte>, done: seq<Value>): SchemaError
    decreases each, count + 2, bytes
  {
    if count == 0 then Malformed
    else
      var parsed := Parse(each, bytes);
      if parsed.Some? && KeyOf(rule, parsed.value.value) !in KeySet(rule, done)
      then KeyedError(rule, each, count - 1, parsed.value.rest, done + [parsed.value.value])
      else StepError(rule, each, bytes, KeySet(rule, done))
  }

  /** Why a payload is refused. */
  function UnwrapError(magic: seq<Byte>, body: Format, bytes: seq<Byte>): SchemaError {
    if |bytes| > MAX_PAYLOAD_BYTES then LimitExceeded
    else if !(magic <= bytes) || Parse(body, bytes[|magic|..]).Some? then Malformed
    else ParseError(body, bytes[|magic|..])
  }

  lemma {:induction false} ParsePair(f: Format, g: Format, bytes: seq<Byte>)
    ensures Parse(f, bytes).None? ==> Parse(Pair(f, g), bytes).None? && ParseError(Pair(f, g), bytes) == ParseError(f, bytes)
    ensures Parse(f, bytes).Some? ==>
              var a := Parse(f, bytes).value;
              && ParseError(Pair(f, g), bytes) == ParseError(g, a.rest)
              && Parse(Pair(f, g), bytes) == match Parse(g, a.rest)
                                             case None => None
                                             case Some(b) => Some(Parsed(Both(a.value, b.value), b.rest))
  {
  }

  lemma {:induction false} ParseCheck(inner: Format, rule: Rule, bytes: seq<Byte>)
    ensures Parse(Check(inner, rule), bytes) == match Parse(inner, bytes)
                                                case None => None
                                                case Some(a) => if Holds(rule, a.value) then Some(a) else None
    ensures !(inner.Repeat? && IsDistinctRule(rule)) ==>
              ParseError(Check(inner, rule), bytes) == if Parse(inner, bytes).None? then ParseError(inner, bytes) else RuleError(rule)
  {
  }

  lemma {:induction false} ParseChoice(cases: seq<Format>, bytes: seq<Byte>)
    ensures Parse(Choice(cases), bytes) == match ParseNumber(1, bytes)
                                           case None => None
                                           case Some(n) =>
                                             if n.value >= |cases| then None
                                             else
                                               match Parse(cases[n.value], n.rest)
                                               case None => None
                                               case Some(a) => Some(Parsed(Tagged(n.value, a.value), a.rest))
    ensures ParseError(Choice(cases), bytes) == match ParseNumber(1, bytes)
                                                case None => Malformed
                                                case Some(n) => if n.value >= |cases| then Malformed else ParseError(cases[n.value], n.rest)
  {
  }

  lemma {:induction false} ParseRepeat(prefix: nat, maximum: nat, each: Format, bytes: seq<Byte>)
    ensures Parse(Repeat(prefix, maximum, each), bytes) == match ParseNumber(prefix, bytes)
                                                           case None => None
                                                           case Some(n) =>
                                                             if n.value > maximum then None
                                                             else
                                                               match ParseAll(each, n.value, n.rest)
                                                               case None => None
                                                               case Some(all) => Some(Parsed(Many(all.value), all.rest))
    ensures ParseError(Repeat(prefix, maximum, each), bytes) == match ParseNumber(prefix, bytes)
                                                                case None => Malformed
                                                                case Some(n) => if n.value > maximum then LimitExceeded else AllError(each, n.value, n.rest)
  {
  }

  /** A list with distinct keys fails as its elements are read. */
  lemma {:induction false} ParseDistinct(prefix: nat, maximum: nat, each: Format, rule: Rule, bytes: seq<Byte>)
    requires IsDistinctRule(rule)
    ensures ParseError(Check(Repeat(prefix, maximum, each), rule), bytes) ==
            match ParseNumber(prefix, bytes)
            case None => Malformed
            case Some(n) => if n.value > maximum then LimitExceeded else KeyedError(rule, each, n.value, n.rest, [])
  {
  }

  lemma {:induction false} AllErrorNext(each: Format, left: nat, bytes: seq<Byte>)
    requires left > 0
    ensures AllError(each, left, bytes) == match Parse(each, bytes)
                                           case None => ParseError(each, bytes)
                                           case Some(first) => AllError(each, left - 1, first.rest)
  {
  }

  // ----- what is left to parse -----

  /** `total` is what results from parsing `left` more values after `done`. */
  ghost predicate Ahead(total: Option<Parsed<seq<Value>>>, done: seq<Value>, each: Format, left: nat, bytes: seq<Byte>) {
    total == match ParseAll(each, left, bytes)
             case None => None
             case Some(p) => Some(Parsed(done + p.value, p.rest))
  }

  lemma {:induction false} AheadStart(each: Format, count: nat, bytes: seq<Byte>)
    ensures Ahead(ParseAll(each, count, bytes), [], each, count, bytes)
  {
    if ParseAll(each, count, bytes).Some? {
      assert [] + ParseAll(each, count, bytes).value.value == ParseAll(each, count, bytes).value.value;
    }
  }

  lemma {:induction false} AheadNext(total: Option<Parsed<seq<Value>>>, done: seq<Value>, each: Format, left: nat, bytes: seq<Byte>)
    requires Ahead(total, done, each, left, bytes) && left > 0
    ensures Parse(each, bytes).None? ==> total == None
    ensures Parse(each, bytes).Some? ==>
              Ahead(total, done + [Parse(each, bytes).value.value], each, left - 1, Parse(each, bytes).value.rest)
  {
    if Parse(each, bytes).Some? {
      var first := Parse(each, bytes).value;
      if ParseAll(each, left - 1, first.rest).Some? {
        ConcatAssociates(done, [first.value], ParseAll(each, left - 1, first.rest).value.value);
      }
    }
  }

  lemma {:induction false} AheadDone(total: Option<Parsed<seq<Value>>>, done: seq<Value>, each: Format, bytes: seq<Byte>)
    requires Ahead(total, done, each, 0, bytes)
    ensures total == Some(Parsed(done, bytes))
  {
    assert done + [] == done;
  }

  class Decoder {
    var remaining: seq<Byte>

    constructor (rest: seq<Byte>)
      ensures remaining == rest
    {
      remaining := rest;
    }

    static method Open(payload: seq<Byte>, kind: Kind) returns (r: Result<Decoder, SchemaError>)
      ensures r.Ok? <==> |payload| <= MAX_PAYLOAD_BYTES && Magic(kind) <= payload
      ensures r.Ok? ==> fresh(r.value) && r.value.remaining == payload[8..]
      ensures r.Err? ==> r.error == if |payload| > MAX_PAYLOAD_BYTES then LimitExceeded else Malformed
    {
      if |payload| > MAX_PAYLOAD_BYTES || !(Magic(kind) <= payload) {
        return Err(if |payload| > MAX_PAYLOAD_BYTES then LimitExceeded else Malformed);
      }
      var decoder := new Decoder(payload[8..]);
      r := Ok(decoder);
    }

    method Number(width: nat) returns (r: Result<nat, SchemaError>)
      modifies this
      ensures match ParseNumber(width, old(remaining))
              case None => r == Err(Malformed) && Parse(Formats.Number(width), old(remaining)) == None
              case Some(n) => r == Ok(n.value) && remaining == n.rest
      ensures r.Ok? ==> r.value < Power(width) && Parse(Formats.Number(width), old(remaining)) == Some(Parsed(Num(r.value), remaining))
    {
      PrintParsed(Formats.Number(width), remaining);
      if width > |remaining| {
        return Err(Malformed);
      }
      r := Ok(FromBytes(remaining[..width]));
      remaining := remaining[width..];
    }

    method Take(length: nat) returns (r: Result<seq<Byte>, SchemaError>)
      modifies this
      ensures match ParseTaken(length, old(remaining))
              case None => r == Err(Malformed)
              case Some(p) => r == Ok(p.value) && remaining == p.rest
    {
      if length > |remaining| {
        return Err(Malformed);
      }
      r := Ok(remaining[..length]);
      remaining := remaining[length..];
    }

    method String() returns (r: Result<Text, SchemaError>)
      modifies this
      ensures match Parse(Str, old(remaining))
              case None => r == Err(ParseError(Str, old(remaining)))
              case Some(p) => r.Ok? && p.value == Raw(r.value) && remaining == p.rest
    {
      ghost var start := remaining;
      ParseCheck(Block(2, MAX_STRING_BYTES), IsUtf8, start);
      var length :- Number(2);
      if length > MAX_STRING_BYTES {
        return Err(LimitExceeded);
      }
      var value :- Take(length);
      assert Parse(Block(2, MAX_STRING_BYTES), start) == Some(Parsed(Raw(value), remaining));
      if !Utf8(value) {
        return Err(Malformed);
      }
      r := Ok(value);
    }

    method OptionalString() returns (r: Result<Option<Text>, SchemaError>)
      modifies this
      ensures match Parse(Optional(Str), old(remaining))
              case None => r == Err(ParseError(Optional(Str), old(remaining)))
              case Some(p) => r.Ok? && p.value == OptionalText(r.value) && remaining == p.rest
    {
      ParseChoice([Nothing, Str], remaining);
      var tag :- Number(1);
      if tag == 0 {
        return Ok(None);
      }
      if tag != 1 {
        return Err(Malformed);
      }
      var text :- String();
      r := Ok(Some(text));
    }

    /** Bytes behind a length of `prefix` bytes. */
    method Counted(prefix: nat, maximum: nat) returns (r: Result<seq<Byte>, SchemaError>)
      modifies this
      ensures match Parse(Block(prefix, maximum), old(remaining))
              case None => r == Err(ParseError(Block(prefix, maximum), old(remaining)))
              case Some(p) => r.Ok? && p.value == Raw(r.value) && remaining == p.rest
    {
      var length :- Number(prefix);
      if length > maximum {
        return Err(LimitExceeded);
      }
      r := Take(length);
    }

    method Finish() returns (r: Result<(), SchemaError>)
      ensures r == if remaining == [] then Ok(()) else Err(Malformed)
    {
      r := if remaining == [] then Ok(()) else Err(Malformed);
    }
  }
}
