/** A grammar of binary formats with a printer, a parser, and the laws that hold for every format. */
module Formats {
  import opened Basics

  type Byte = n: int | 0 <= n < 256

  // ----- little-endian numbers -----

  function Power(width: nat): nat {
    if width == 0 then 1 else 256 * Power(width - 1)
  }

  function ToBytes(n: nat, width: nat): (r: seq<Byte>)
    ensures |r| == width
  {
    if width == 0 then [] else [n % 256] + ToBytes(n / 256, width - 1)
  }

  function FromBytes(bytes: seq<Byte>): nat {
    if bytes == [] then 0 else bytes[0] + 256 * FromBytes(bytes[1..])
  }

  lemma {:induction false} FromBytesToBytes(n: nat, width: nat)
    requires n < Power(width)
    ensures FromBytes(ToBytes(n, width)) == n
  {
    if width > 0 {
      FromBytesToBytes(n / 256, width - 1);
      assert ToBytes(n, width)[1..] == ToBytes(n / 256, width - 1);
    }
  }

  lemma {:induction false} ToBytesFromBytes(bytes: seq<Byte>)
    ensures FromBytes(bytes) < Power(|bytes|)
    ensures ToBytes(FromBytes(bytes), |bytes|) == bytes
  {
    if bytes != [] {
      ToBytesFromBytes(bytes[1..]);
      var low, high := bytes[0], FromBytes(bytes[1..]);
      assert (low + 256 * high) % 256 == low && (low + 256 * high) / 256 == high;
      assert bytes == [low] + bytes[1..];
    }
  }

  // ----- UTF-8 -----

  predicate Continuation(b: Byte) {
    0x80 <= b <= 0xBF
  }

  /** Length of the well-formed sequence that `s` begins with, as the grammar in section 4 of RFC 3629
      spells it out; zero when there is none. */
  function Utf8Step(s: seq<Byte>): (n: nat)
    ensures n <= |s|
  {
    if s == [] then 0
    else if s[0] <= 0x7F then 1
    else if 0xC2 <= s[0] <= 0xDF then
      if |s| >= 2 && Continuation(s[1]) then 2 else 0
    else if 0xE0 <= s[0] <= 0xEF then
      if |s| >= 3 && Continuation(s[1]) && Continuation(s[2])
         && (s[0] == 0xE0 ==> s[1] >= 0xA0) && (s[0] == 0xED ==> s[1] <= 0x9F) then 3 else 0
    else if 0xF0 <= s[0] <= 0xF4 then
      if |s| >= 4 && Continuation(s[1]) && Continuation(s[2]) && Continuation(s[3])
         && (s[0] == 0xF0 ==> s[1] >= 0x90) && (s[0] == 0xF4 ==> s[1] <= 0x8F) then 4 else 0
    else 0
  }

  predicate Utf8(s: seq<Byte>) {
    s == [] || (Utf8Step(s) > 0 && Utf8(s[Utf8Step(s)..]))
  }

  /** UTF-8 texts, what a Rust `String` holds. */
  type Text = s: seq<Byte> | Utf8(s) witness []

  // ----- formats and values -----

  datatype Format =
    | Number(width: nat)
    | Block(prefix: nat, maximum: nat)
    | Nothing
    | Pair(first: Format, second: Format)
    | Choice(cases: seq<Format>)
    | Repeat(prefix: nat, maximum: nat, each: Format)
    | Check(inner: Format, rule: Rule)

  datatype Value =
    | Num(n: nat)
    | Raw(bytes: seq<Byte>)
    | Unit
    | Both(first: Value, second: Value)
    | Tagged(tag: nat, value: Value)
    | Many(values: seq<Value>)

  /** Conditions on a value beyond its shape. */
  datatype Rule =
    | IsUtf8
    | Between(low: nat, high: nat)
    | LengthBetween(low: nat, high: nat)
    | NotEmpty
    | FiniteFloat
    | DistinctValues
    | DistinctFirsts
    | DistinctNames
    | OneOfTwo

  const FLOAT_EXPONENT_ONES := 0x7FF

  /** The exponent field of a double-precision bit pattern. */
  function Exponent(bits: nat): nat {
    bits / 0x10_0000_0000_0000 % 0x800
  }

  function FirstOf(v: Value): Value {
    if v.Both? then v.first else Unit
  }

  function NameOf(v: Value): Value {
    if v.Tagged? then FirstOf(v.value) else Unit
  }

  predicate Holds(rule: Rule, v: Value) {
    match rule
    case IsUtf8 => v.Raw? && Utf8(v.bytes)
    case Between(low, high) => v.Num? && low <= v.n <= high
    case LengthBetween(low, high) =>
      (v.Raw? && low <= |v.bytes| <= high) || (v.Many? && low <= |v.values| <= high)
    case NotEmpty => (v.Raw? && v.bytes != []) || (v.Many? && v.values != [])
    case FiniteFloat => v.Num? && Exponent(v.n) != FLOAT_EXPONENT_ONES
    case DistinctValues => v.Many? && forall i, j :: 0 <= i < j < |v.values| ==> v.values[i] != v.values[j]
    case DistinctFirsts => v.Many? && forall i, j :: 0 <= i < j < |v.values| ==> FirstOf(v.values[i]) != FirstOf(v.values[j])
    case DistinctNames => v.Many? && forall i, j :: 0 <= i < j < |v.values| ==> NameOf(v.values[i]) != NameOf(v.values[j])
    case OneOfTwo => v.Both? && v.second.Both? && v.first.Tagged? && v.second.first.Tagged? && v.first.tag != v.second.first.tag
  }

  /** The value has the shape of the format, its lengths, counts and tags fit the fields that carry
      them, and it obeys every rule. */
  predicate Fits(f: Format, v: Value) {
    match f
    case Number(width) => v.Num? && v.n < Power(width)
    case Block(prefix, maximum) => v.Raw? && |v.bytes| <= maximum && |v.bytes| < Power(prefix)
    case Nothing => v.Unit?
    case Pair(first, second) => v.Both? && Fits(first, v.first) && Fits(second, v.second)
    case Choice(cases) => v.Tagged? && v.tag < |cases| && v.tag < Power(1) && Fits(cases[v.tag], v.value)
    case Repeat(prefix, maximum, each) =>
      v.Many? && |v.values| <= maximum && |v.values| < Power(prefix) && forall i :: 0 <= i < |v.values| ==> Fits(each, v.values[i])
    case Check(inner, rule) => Fits(inner, v) && Holds(rule, v)
  }

  // ----- printer -----

  function Print(f: Format, v: Value): seq<Byte>
    requires Fits(f, v)
    decreases f, 0
  {
    match f
    case Number(width) => ToBytes(v.n, width)
    case Block(prefix, _) => ToBytes(|v.bytes|, prefix) + v.bytes
    case Nothing => []
    case Pair(first, second) => Print(first, v.first) + Print(second, v.second)
    case Choice(cases) => ToBytes(v.tag, 1) + Print(cases[v.tag], v.value)
    case Repeat(prefix, _, each) => ToBytes(|v.values|, prefix) + PrintAll(each, v.values)
    case Check(inner, _) => Print(inner, v)
  }

  function PrintAll(each: Format, values: seq<Value>): seq<Byte>
    requires forall i :: 0 <= i < |values| ==> Fits(each, values[i])
    decreases each, |values| + 1
  {
    if values == [] then [] else Print(each, values[0]) + PrintAll(each, values[1..])
  }

  // ----- parser -----

  datatype Parsed<T> = Parsed(value: T, rest: seq<Byte>)

  function ParseNumber(width: nat, bytes: seq<Byte>): Option<Parsed<nat>> {
    if width > |bytes| then None else Some(Parsed(FromBytes(bytes[..width]), bytes[width..]))
  }

  function ParseTaken(count: nat, bytes: seq<Byte>): Option<Parsed<seq<Byte>>> {
    if count > |bytes| then None else Some(Parsed(bytes[..count], bytes[count..]))
  }

  function Parse(f: Format, bytes: seq<Byte>): Option<Parsed<Value>>
    decreases f, 0, bytes
  {
    match f
    case Number(width) => (
      match ParseNumber(width, bytes)
      case None => None
      case Some(n) => Some(Parsed(Num(n.value), n.rest)))
    case Block(prefix, maximum) => (
      match ParseNumber(prefix, bytes)
      case None => None
      case Some(n) =>
        if n.value > maximum then None
        else
          match ParseTaken(n.value, n.rest)
          case None => None
          case Some(taken) => Some(Parsed(Raw(taken.value), taken.rest)))
    case Nothing => Some(Parsed(Unit, bytes))
    case Pair(first, second) => (
      match Parse(first, bytes)
      case None => None
      case Some(a) =>
        match Parse(second, a.rest)
        case None => None
        case Some(b) => Some(Parsed(Both(a.value, b.value), b.rest)))
    case Choice(cases) => (
      match ParseNumber(1, bytes)
      case None => None
      case Some(n) =>
        if n.value >= |cases| then None
        else
          match Parse(cases[n.value], n.rest)
          case None => None
          case Some(a) => Some(Parsed(Tagged(n.value, a.value), a.rest)))
    case Repeat(prefix, maximum, each) => (
      match ParseNumber(prefix, bytes)
      case None => None
      case Some(n) =>
        if n.value > maximum then None
        else
          match ParseAll(each, n.value, n.rest)
          case None => None
          case Some(all) => Some(Parsed(Many(all.value), all.rest)))
    case Check(inner, rule) =>
      match Parse(inner, bytes)
      case None => None
      case Some(a) => if Holds(rule, a.value) then Some(a) else None
  }

  function ParseAll(each: Format, count: nat, bytes: seq<Byte>): Option<Parsed<seq<Value>>>
    decreases each, count + 1, bytes
  {
    if count == 0 then Some(Parsed([], bytes))
    else
      match Parse(each, bytes)
      case None => None
      case Some(first) =>
        match ParseAll(each, count - 1, first.rest)
        case None => None
        case Some(others) => Some(Parsed([first.value] + others.value, others.rest))
  }

  // ----- printing then parsing -----

  lemma {:induction false} ParsePrintedNumber(n: nat, width: nat, rest: seq<Byte>)
    requires n < Power(width)
    ensures ParseNumber(width, ToBytes(n, width) + rest) == Some(Parsed(n, rest))
  {
    var bytes := ToBytes(n, width) + rest;
    assert bytes[..width] == ToBytes(n, width) && bytes[width..] == rest;
    FromBytesToBytes(n, width);
  }

  lemma {:induction false} ParsePrintedTaken(s: seq<Byte>, rest: seq<Byte>)
    ensures ParseTaken(|s|, s + rest) == Some(Parsed(s, rest))
  {
    assert (s + rest)[..|s|] == s && (s + rest)[|s|..] == rest;
  }

  /** Whatever is printed is parsed back, up to exactly where it ends. */
  lemma {:induction false} ParsePrinted(f: Format, v: Value, rest: seq<Byte>)
    requires Fits(f, v)
    ensures Parse(f, Print(f, v) + rest) == Some(Parsed(v, rest))
    decreases f, 0
  {
    match f
    case Number(width) => ParsePrintedNumber(v.n, width, rest);
    case Block(prefix, _) =>
      ParsePrintedNumber(|v.bytes|, prefix, v.bytes + rest);
      ConcatAssociates(ToBytes(|v.bytes|, prefix), v.bytes, rest);
      ParsePrintedTaken(v.bytes, rest);
    case Nothing => assert [] + rest == rest;
    case Pair(first, second) =>
      ConcatAssociates(Print(first, v.first), Print(second, v.second), rest);
      ParsePrinted(first, v.first, Print(second, v.second) + rest);
      ParsePrinted(second, v.second, rest);
    case Choice(cases) =>
      ConcatAssociates(ToBytes(v.tag, 1), Print(cases[v.tag], v.value), rest);
      ParsePrintedNumber(v.tag, 1, Print(cases[v.tag], v.value) + rest);
      ParsePrinted(cases[v.tag], v.value, rest);
    case Repeat(prefix, _, each) =>
      ConcatAssociates(ToBytes(|v.values|, prefix), PrintAll(each, v.values), rest);
      ParsePrintedNumber(|v.values|, prefix, PrintAll(each, v.values) + rest);
      ParsePrintedAll(each, v.values, rest);
    case Check(inner, _) => ParsePrinted(inner, v, rest);
  }

  lemma {:induction false} ParsePrintedAll(each: Format, values: seq<Value>, rest: seq<Byte>)
    requires forall i :: 0 <= i < |values| ==> Fits(each, values[i])
    ensures ParseAll(each, |values|, PrintAll(each, values) + rest) == Some(Parsed(values, rest))
    decreases each, |values| + 1
  {
    if values == [] {
      assert [] + rest == rest;
    } else {
      var others := values[1..];
      ConcatAssociates(Print(each, values[0]), PrintAll(each, others), rest);
      ParsePrinted(each, values[0], PrintAll(each, others) + rest);
      ParsePrintedAll(each, others, rest);
      assert [values[0]] + others == values;
    }
  }

  // ----- parsing then printing -----

  lemma {:induction false} PrintParsedNumber(width: nat, bytes: seq<Byte>)
    requires width <= |bytes|
    ensures FromBytes(bytes[..width]) < Power(width)
    ensures bytes == ToBytes(FromBytes(bytes[..width]), width) + bytes[width..]
  {
    ToBytesFromBytes(bytes[..width]);
    assert bytes == bytes[..width] + bytes[width..];
  }

  /** Whatever is parsed fits the format, and its only encoding is the bytes it was parsed from. */
  lemma {:induction false} PrintParsed(f: Format, bytes: seq<Byte>)
    ensures Parse(f, bytes).Some? ==>
              var parsed := Parse(f, bytes).value;
              Fits(f, parsed.value) && bytes == Print(f, parsed.value) + parsed.rest
    decreases f, 0
  {
    if Parse(f, bytes).Some? {
      match f
      case Number(width) => PrintParsedNumber(width, bytes);
      case Block(prefix, _) => PrintParsedBlock(f, bytes);
      case Nothing => assert [] + bytes == bytes;
      case Pair(first, second) =>
        PrintParsed(first, bytes);
        var a := Parse(first, bytes).value;
        PrintParsed(second, a.rest);
        var b := Parse(second, a.rest).value;
        ConcatAssociates(Print(first, a.value), Print(second, b.value), b.rest);
      case Choice(cases) =>
        PrintParsedNumber(1, bytes);
        var n := ParseNumber(1, bytes).value;
        PrintParsed(cases[n.value], n.rest);
        var a := Parse(cases[n.value], n.rest).value;
        ConcatAssociates(ToBytes(n.value, 1), Print(cases[n.value], a.value), a.rest);
      case Repeat(prefix, _, each) =>
        PrintParsedNumber(prefix, bytes);
        var n := ParseNumber(prefix, bytes).value;
        PrintParsedAll(each, n.value, n.rest);
        var all := ParseAll(each, n.value, n.rest).value;
        ConcatAssociates(ToBytes(n.value, prefix), PrintAll(each, all.value), all.rest);
      case Check(inner, _) => PrintParsed(inner, bytes);
    }
  }

  lemma {:induction false} PrintParsedBlock(f: Format, bytes: seq<Byte>)
    requires f.Block? && Parse(f, bytes).Some?
    ensures var parsed := Parse(f, bytes).value;
            Fits(f, parsed.value) && bytes == Print(f, parsed.value) + parsed.rest
  {
    PrintParsedNumber(f.prefix, bytes);
    var n := ParseNumber(f.prefix, bytes).value;
    var taken := ParseTaken(n.value, n.rest).value;
    assert n.rest == taken.value + taken.rest;
    ConcatAssociates(ToBytes(n.value, f.prefix), taken.value, taken.rest);
  }

  lemma {:induction false} PrintParsedAll(each: Format, count: nat, bytes: seq<Byte>)
    ensures ParseAll(each, count, bytes).Some? ==>
              var parsed := ParseAll(each, count, bytes).value;
              && |parsed.value| == count
              && (forall i :: 0 <= i < count ==> Fits(each, parsed.value[i]))
              && bytes == PrintAll(each, parsed.value) + parsed.rest
    decreases each, count + 1
  {
    if ParseAll(each, count, bytes).Some? {
      if count == 0 {
        assert [] + bytes == bytes;
      } else {
        PrintParsed(each, bytes);
        var first := Parse(each, bytes).value;
        PrintParsedAll(each, count - 1, first.rest);
        var others := ParseAll(each, count - 1, first.rest).value;
        ConcatAssociates(Print(each, first.value), PrintAll(each, others.value), others.rest);
        assert ([first.value] + others.value)[1..] == others.value;
      }
    }
  }

  // ----- consequences -----

  /** No complete encoding is a proper prefix of another one. */
  lemma {:induction false} PrefixFree(f: Format, a: seq<Byte>, more: seq<Byte>)
    requires Parse(f, a).Some? && Parse(f, a).value.rest == []
    requires Parse(f, a + more).Some? && Parse(f, a + more).value.rest == []
    ensures more == []
  {
    PrintParsed(f, a);
    var v := Parse(f, a).value.value;
    assert a == Print(f, v) + [] == Print(f, v);
    ParsePrinted(f, v, more);
  }

  /** Behind a magic, the bytes are the encoding of a value exactly when they parse to it completely. */
  lemma {:induction false} FramedExactly(magic: seq<Byte>, f: Format, v: Value, bytes: seq<Byte>)
    ensures Fits(f, v) && bytes == magic + Print(f, v) <==> magic <= bytes && Parse(f, bytes[|magic|..]) == Some(Parsed(v, []))
  {
    if Fits(f, v) && bytes == magic + Print(f, v) {
      assert bytes[..|magic|] == magic && bytes[|magic|..] == Print(f, v) + [];
      ParsePrinted(f, v, []);
    }
    if magic <= bytes && Parse(f, bytes[|magic|..]) == Some(Parsed(v, [])) {
      PrintParsed(f, bytes[|magic|..]);
      assert bytes[|magic|..] == Print(f, v) + [] == Print(f, v);
      assert bytes == bytes[..|magic|] + bytes[|magic|..] == magic + Print(f, v);
    }
  }

  function MaxLength(f: Format): nat
    decreases f, 0
  {
    match f
    case Number(width) => width
    case Block(prefix, maximum) => prefix + maximum
    case Nothing => 0
    case Pair(first, second) => MaxLength(first) + MaxLength(second)
    case Choice(cases) => 1 + MaxOfCases(cases, |cases|)
    case Repeat(prefix, maximum, each) => prefix + maximum * MaxLength(each)
    case Check(inner, _) => MaxLength(inner)
  }

  function MaxOfCases(cases: seq<Format>, count: nat): nat
    requires count <= |cases|
    decreases cases, count
  {
    if count == 0 then 0 else Max(MaxLength(cases[count - 1]), MaxOfCases(cases, count - 1))
  }

  lemma {:induction false} CaseBound(cases: seq<Format>, count: nat, i: nat)
    requires i < count <= |cases|
    ensures MaxLength(cases[i]) <= MaxOfCases(cases, count)
  {
    if i < count - 1 {
      CaseBound(cases, count - 1, i);
    }
  }

  /** No encoding is longer than its format allows. */
  lemma {:induction false} LengthBound(f: Format, v: Value)
    requires Fits(f, v)
    ensures |Print(f, v)| <= MaxLength(f)
    decreases f, 0
  {
    match f
    case Number(_) =>
    case Block(_, _) =>
    case Nothing =>
    case Pair(first, second) =>
      LengthBound(first, v.first);
      LengthBound(second, v.second);
    case Choice(cases) =>
      LengthBound(cases[v.tag], v.value);
      CaseBound(cases, |cases|, v.tag);
    case Repeat(_, maximum, each) =>
      LengthBoundAll(each, v.values);
      MulMonotone(|v.values|, maximum, MaxLength(each));
    case Check(inner, _) => LengthBound(inner, v);
  }

  lemma {:induction false} OneMore(count: nat, bound: nat, first: nat, others: nat)
    requires first <= bound && others <= count * bound
    ensures first + others <= (count + 1) * bound
  {
    assert (count + 1) * bound == count * bound + bound;
  }

  lemma {:induction false} LengthBoundAll(each: Format, values: seq<Value>)
    requires forall i :: 0 <= i < |values| ==> Fits(each, values[i])
    ensures |PrintAll(each, values)| <= |values| * MaxLength(each)
    decreases each, |values| + 1
  {
    if values != [] {
      LengthBound(each, values[0]);
      LengthBoundAll(each, values[1..]);
      OneMore(|values| - 1, MaxLength(each), |Print(each, values[0])|, |PrintAll(each, values[1..])|);
    }
  }
}
