/** Lists of texts behind a 16-bit count. */
module TextLists {
  import opened Basics
  import opened Formats
  import opened Messages
  import opened Streams

  function TextValues(texts: seq<Text>): (r: seq<Value>)
    ensures |r| == |texts|
  {
    if texts == [] then [] else TextValues(texts[..|texts| - 1]) + [Raw(texts[|texts| - 1])]
  }

  lemma {:induction false} TextValueAt(texts: seq<Text>, i: nat)
    requires i < |texts|
    ensures TextValues(texts)[i] == Raw(texts[i])
  {
    if i < |texts| - 1 {
      TextValueAt(texts[..|texts| - 1], i);
    }
  }

  lemma {:induction false} MoreTexts(texts: seq<Text>, text: Text)
    ensures TextValues(texts + [text]) == TextValues(texts) + [Raw(text)]
  {
    assert (texts + [text])[..|texts|] == texts;
  }

  lemma {:induction false} TextsInjective(a: seq<Text>, b: seq<Text>)
    requires TextValues(a) == TextValues(b)
    ensures a == b
  {
    assert |a| == |TextValues(a)| == |b|;
    forall i | 0 <= i < |a| ensures a[i] == b[i] {
      TextValueAt(a, i);
      TextValueAt(b, i);
    }
  }

  // ----- encoding -----

  ghost predicate TextsLeft(total: Option<seq<Byte>>, done: seq<Byte>, texts: seq<Text>, i: nat)
    requires i <= |texts|
  {
    LeftAll(total, done, Str, TextValues(texts)[i..], Nothing, Unit)
  }

  lemma {:induction false} NextText(total: Option<seq<Byte>>, done: seq<Byte>, texts: seq<Text>, i: nat)
    requires i < |texts| && TextsLeft(total, done, texts, i)
    ensures Fits(Str, Raw(texts[i])) ==> TextsLeft(total, done + Print(Str, Raw(texts[i])), texts, i + 1)
    ensures !Fits(Str, Raw(texts[i])) ==> total == None
  {
    var rest := TextValues(texts)[i..];
    TextValueAt(texts, i);
    assert rest[0] == Raw(texts[i]) && rest[1..] == TextValues(texts)[i + 1..];
    LeftNext(total, done, Str, rest, Nothing, Unit);
  }

  /** Writes the count and the texts. */
  method PutTexts(encoder: Encoder, texts: seq<Text>, maximum: nat, ghost total: Option<seq<Byte>>) returns (r: Result<(), SchemaError>)
    requires Left(total, encoder.bytes, Repeat(2, maximum, Str), Many(TextValues(texts)))
    requires |texts| <= maximum < 0x1_0000
    modifies encoder
    ensures r.Ok? ==> total == Some(encoder.bytes)
    ensures r.Err? ==> total == None && r.error == LimitExceeded
  {
    Powers();
    LeftRepeatLast(total, encoder.bytes, Repeat(2, maximum, Str), TextValues(texts));
    encoder.Number(|texts|, 2);
    assert TextValues(texts)[0..] == TextValues(texts);
    var i := 0;
    while i < |texts|
      invariant 0 <= i <= |texts|
      invariant TextsLeft(total, encoder.bytes, texts, i)
    {
      NextText(total, encoder.bytes, texts, i);
      var _ :- encoder.String(texts[i]);
      i := i + 1;
    }
    assert TextValues(texts)[i..] == [];
    LeftNone(total, encoder.bytes, Str, Nothing, Unit);
    LeftNothing(total, encoder.bytes);
    r := Ok(());
  }

  // ----- decoding -----

  /** What is left to read, and the fault should it fail. */
  ghost predicate TextsAhead(total: Option<Parsed<seq<Value>>>, fault: SchemaError, texts: seq<Text>, left: nat, bytes: seq<Byte>) {
    Ahead(total, TextValues(texts), Str, left, bytes) && fault == AllError(Str, left, bytes)
  }

  method GetNext(decoder: Decoder, texts: seq<Text>, ghost total: Option<Parsed<seq<Value>>>, ghost fault: SchemaError, ghost left: nat)
    returns (r: Result<seq<Text>, SchemaError>)
    requires left > 0 && TextsAhead(total, fault, texts, left, decoder.remaining)
    modifies decoder
    ensures r.Ok? ==> TextsAhead(total, fault, r.value, left - 1, decoder.remaining)
    ensures r.Err? ==> total == None && r.error == fault
  {
    AllErrorNext(Str, left, decoder.remaining);
    AheadNext(total, TextValues(texts), Str, left, decoder.remaining);
    var next :- decoder.String();
    MoreTexts(texts, next);
    r := Ok(texts + [next]);
  }

  /** Reads `count` texts. */
  method GetAll(decoder: Decoder, count: nat) returns (r: Result<seq<Text>, SchemaError>)
    modifies decoder
    ensures match ParseAll(Str, count, old(decoder.remaining))
            case None => r == Err(AllError(Str, count, old(decoder.remaining)))
            case Some(p) => r.Ok? && p.value == TextValues(r.value) && decoder.remaining == p.rest
  {
    ghost var fault := AllError(Str, count, decoder.remaining);
    ghost var total := ParseAll(Str, count, decoder.remaining);
    AheadStart(Str, count, decoder.remaining);
    var texts: seq<Text> := [];
    var left: nat := count;
    while left > 0
      invariant TextsAhead(total, fault, texts, left, decoder.remaining)
    {
      texts :- GetNext(decoder, texts, total, fault, left);
      left := left - 1;
    }
    AheadDone(total, TextValues(texts), Str, decoder.remaining);
    r := Ok(texts);
  }

  /** Reads the count and the texts. */
  method GetTexts(decoder: Decoder, maximum: nat) returns (r: Result<seq<Text>, SchemaError>)
    modifies decoder
    ensures match Parse(Repeat(2, maximum, Str), old(decoder.remaining))
            case None => r == Err(ParseError(Repeat(2, maximum, Str), old(decoder.remaining)))
            case Some(p) => r.Ok? && p.value == Many(TextValues(r.value)) && decoder.remaining == p.rest
  {
    ParseRepeat(2, maximum, Str, decoder.remaining);
    var count :- decoder.Number(2);
    if count > maximum {
      return Err(LimitExceeded);
    }
    r := GetAll(decoder, count);
  }
}
