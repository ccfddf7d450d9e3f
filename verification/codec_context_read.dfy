/** The request for context facts: a set, written in order, so that re-encoding sorts. */
module ContextReadCodec {
  import opened Basics
  import opened Sorting
  import opened Ordering
  import opened Formats
  import opened Messages
  import opened Streams
  import opened Keyed
  import opened TextLists

  predicate TextLe(a: Text, b: Text) {
    LexLe(a, b)
  }

  lemma {:induction false} TextIsTotalOrder()
    ensures TotalOrder(TextLe)
  {
    forall a: Text, b: Text ensures TextLe(a, b) || TextLe(b, a) {
      LexTotal(a, b);
    }
    forall a: Text, b: Text, c: Text | TextLe(a, b) && TextLe(b, c) ensures TextLe(a, c) {
      LexTransitive(a, b, c);
    }
    forall a: Text, b: Text | TextLe(a, b) && TextLe(b, a) ensures a == b {
      LexAntisymmetric(a, b);
    }
  }

  const Each := Repeat(2, MAX_CONTEXT_FACTS, Str)
  const ReadBody := Check(Check(Each, DistinctValues), NotEmpty)

  lemma {:induction false} ReadBodyIs()
    ensures Body(ContextReadRequest) == ReadBody
  {
  }

  function Listed(facts: set<Text>): seq<Text> {
    TextIsTotalOrder();
    Listing(TextLe, facts)
  }

  /** `ContextReadRequest::encode`: the facts in the order of the set. */
  function EncodeRead(facts: set<Text>): Option<seq<Byte>> {
    Encode(ContextReadRequest, Many(TextValues(Listed(facts))))
  }

  /** The decoder accepts the bytes as a list of texts, of which it keeps the set. */
  ghost predicate Accepts(bytes: seq<Byte>, texts: seq<Text>) {
    Decode(ContextReadRequest, bytes) == Some(Many(TextValues(texts)))
  }

  lemma {:induction false} FitsRead(texts: seq<Text>)
    ensures Fits(ReadBody, Many(TextValues(texts))) <==>
              && 1 <= |texts| <= MAX_CONTEXT_FACTS
              && Distinct(texts)
              && forall i :: 0 <= i < |texts| ==> |texts[i]| <= MAX_STRING_BYTES
  {
    Powers();
    var values := TextValues(texts);
    forall i | 0 <= i < |texts| ensures values[i] == Raw(texts[i]) && (Fits(Str, values[i]) <==> |texts[i]| <= MAX_STRING_BYTES) {
      TextValueAt(texts, i);
      FitsStr(texts[i]);
    }
    assert Fits(Each, Many(values)) <==> |texts| <= MAX_CONTEXT_FACTS && forall i :: 0 <= i < |texts| ==> |texts[i]| <= MAX_STRING_BYTES by {
      if Fits(Each, Many(values)) {
        forall i | 0 <= i < |texts| ensures |texts[i]| <= MAX_STRING_BYTES {
          assert Fits(Str, values[i]);
        }
      }
    }
    assert Holds(DistinctValues, Many(values)) <==> Distinct(texts) by {
      if Holds(DistinctValues, Many(values)) {
        forall i, j | 0 <= i < j < |texts| ensures texts[i] != texts[j] {
          assert values[i] != values[j];
        }
      }
    }
  }

  lemma {:induction false} FitsStr(text: Text)
    ensures Fits(Str, Raw(text)) <==> |text| <= MAX_STRING_BYTES
    ensures Fits(Str, Raw(text)) ==> |Print(Str, Raw(text))| == 2 + |text|
  {
    Powers();
  }

  /** Whatever the decoder accepts is a list of one to thirty-two distinct texts. */
  lemma {:induction false} AcceptedIsList(bytes: seq<Byte>) returns (texts: seq<Text>)
    requires Decode(ContextReadRequest, bytes).Some?
    ensures Accepts(bytes, texts) && Distinct(texts) && 1 <= |texts| <= MAX_CONTEXT_FACTS
  {
    ReadBodyIs();
    WrapUnwrapped(Magic(ContextReadRequest), ReadBody, bytes);
    var v := Decode(ContextReadRequest, bytes).value;
    WrapFits(Magic(ContextReadRequest), ReadBody, v);
    FitsList(v);
    texts := Texts(v.values);
    FitsRead(texts);
  }

  lemma {:induction false} FitsList(v: Value)
    requires Fits(ReadBody, v)
    ensures v.Many? && forall i :: 0 <= i < |v.values| ==> Fits(Str, v.values[i])
  {
    assert Fits(Each, v);
  }

  lemma {:induction false} Texts(values: seq<Value>) returns (texts: seq<Text>)
    requires forall i :: 0 <= i < |values| ==> Fits(Str, values[i])
    ensures TextValues(texts) == values
  {
    if values == [] {
      texts := [];
    } else {
      var last := |values| - 1;
      var front := Texts(values[..last]);
      assert Fits(Str, values[last]);
      texts := front + [values[last].bytes];
      MoreTexts(front, values[last].bytes);
    }
  }

  // ----- the two laws -----

  /** A set of facts comes back from its encoding, whichever list the decoder read it as. */
  lemma {:induction false} ReadRoundTrip(facts: set<Text>, bytes: seq<Byte>, texts: seq<Text>)
    requires EncodeRead(facts) == Some(bytes)
    ensures Accepts(bytes, Listed(facts)) && Elements(Listed(facts)) == facts
    ensures Accepts(bytes, texts) ==> Elements(texts) == facts
  {
    if Accepts(bytes, texts) {
      DecodeEncoded(ContextReadRequest, Many(TextValues(Listed(facts))));
      TextsInjective(texts, Listed(facts));
    }
    DecodeEncoded(ContextReadRequest, Many(TextValues(Listed(facts))));
    TextIsTotalOrder();
    ListingFacts(TextLe, facts);
  }

  /** Re-encoding what was decoded always succeeds and keeps the length, and it gives back the same
      bytes exactly when the facts were in ascending order. */
  lemma {:induction false} ReencodingSorts(bytes: seq<Byte>, texts: seq<Text>)
    requires Accepts(bytes, texts)
    ensures EncodeRead(Elements(texts)).Some? && |EncodeRead(Elements(texts)).value| == |bytes|
    ensures EncodeRead(Elements(texts)) == Some(bytes) <==> Ascending(TextLe, texts)
  {
    var values, sorted := Many(TextValues(texts)), Listed(Elements(texts));
    TextIsTotalOrder();
    ListingFacts(TextLe, Elements(texts));
    ReadBodyIs();
    WrapUnwrapped(Magic(ContextReadRequest), ReadBody, bytes);
    WrapFits(Magic(ContextReadRequest), ReadBody, values);
    FitsRead(texts);
    TotalIsInvariant(texts, sorted);
    forall i | 0 <= i < |sorted| ensures |sorted[i]| <= MAX_STRING_BYTES {
      assert sorted[i] in Elements(sorted);
    }
    FitsRead(sorted);
    SortedLength(texts, sorted);
    if Ascending(TextLe, texts) {
      AscendingIsListing(TextLe, texts);
    }
    if EncodeRead(Elements(texts)) == Some(bytes) {
      DecodeEncoded(ContextReadRequest, Many(TextValues(sorted)));
      TextsInjective(sorted, texts);
    }
  }

  function Total(texts: seq<Text>): nat {
    if texts == [] then 0 else 2 + |texts[0]| + Total(texts[1..])
  }

  lemma {:induction false} TotalSplit(texts: seq<Text>, i: nat)
    requires i < |texts|
    ensures Total(texts) == 2 + |texts[i]| + Total(texts[..i] + texts[i + 1..])
  {
    var rest := texts[..i] + texts[i + 1..];
    if i == 0 {
      assert rest == texts[1..];
    } else {
      TotalSplit(texts[1..], i - 1);
      assert rest[1..] == texts[1..][..i - 1] + texts[1..][i..];
    }
  }

  lemma {:induction false} RemoveAt(texts: seq<Text>, i: nat)
    requires i < |texts| && Distinct(texts)
    ensures Distinct(texts[..i] + texts[i + 1..])
    ensures Elements(texts[..i] + texts[i + 1..]) == Elements(texts) - {texts[i]}
  {
    var rest := texts[..i] + texts[i + 1..];
    assert forall k :: 0 <= k < |rest| ==> rest[k] == texts[if k < i then k else k + 1];
    forall x ensures x in rest <==> x in texts && x != texts[i] {
      if x in texts && x != texts[i] {
        var k :| 0 <= k < |texts| && texts[k] == x;
        assert rest[if k < i then k else k - 1] == x;
      }
    }
  }

  lemma {:induction false} EmptyElements(texts: seq<Text>)
    ensures Elements(texts) == {} <==> texts == []
  {
    if texts != [] {
      assert texts[0] in Elements(texts);
    }
  }

  /** Two listings of the same distinct texts have the same number and total length. */
  lemma {:induction false} TotalIsInvariant(a: seq<Text>, b: seq<Text>)
    requires Distinct(a) && Distinct(b) && Elements(a) == Elements(b)
    ensures |a| == |b| && Total(a) == Total(b)
    decreases |a|
  {
    EmptyElements(a);
    EmptyElements(b);
    if a != [] {
      assert a[0] in Elements(a);
      var i :| 0 <= i < |b| && b[i] == a[0];
      TailElements(a);
      RemoveAt(b, i);
      TotalIsInvariant(a[1..], b[..i] + b[i + 1..]);
      TotalSplit(b, i);
    }
  }

  lemma {:induction false} TextValuesHead(texts: seq<Text>)
    requires texts != []
    ensures TextValues(texts) == [Raw(texts[0])] + TextValues(texts[1..])
  {
    var values, tail := TextValues(texts), TextValues(texts[1..]);
    forall i | 0 <= i < |texts| ensures values[i] == ([Raw(texts[0])] + tail)[i] {
      TextValueAt(texts, i);
      if i > 0 {
        TextValueAt(texts[1..], i - 1);
      }
    }
  }

  lemma {:induction false} PrintedLength(texts: seq<Text>)
    requires forall i :: 0 <= i < |texts| ==> |texts[i]| <= MAX_STRING_BYTES
    ensures forall i :: 0 <= i < |texts| ==> Fits(Str, TextValues(texts)[i])
    ensures |PrintAll(Str, TextValues(texts))| == Total(texts)
  {
    if texts != [] {
      FitsStr(texts[0]);
      PrintedLength(texts[1..]);
      var values := TextValues(texts);
      TextValuesHead(texts);
      assert values[1..] == TextValues(texts[1..]);
      forall i | 0 <= i < |texts| ensures Fits(Str, values[i]) {
        if i > 0 {
          assert values[i] == TextValues(texts[1..])[i - 1];
        }
      }
    }
  }

  lemma {:induction false} SortedLength(a: seq<Text>, b: seq<Text>)
    requires Distinct(a) && Distinct(b) && Elements(a) == Elements(b)
    requires Fits(ReadBody, Many(TextValues(a))) && Fits(ReadBody, Many(TextValues(b)))
    ensures |Print(ReadBody, Many(TextValues(a)))| == |Print(ReadBody, Many(TextValues(b)))|
  {
    FitsRead(a);
    FitsRead(b);
    PrintedLength(a);
    PrintedLength(b);
    TotalIsInvariant(a, b);
    ReadLength(a);
    ReadLength(b);
  }

  lemma {:induction false} ReadLength(texts: seq<Text>)
    requires Fits(ReadBody, Many(TextValues(texts)))
    requires forall i :: 0 <= i < |texts| ==> Fits(Str, TextValues(texts)[i])
    ensures |Print(ReadBody, Many(TextValues(texts)))| == 2 + |PrintAll(Str, TextValues(texts))|
  {
    var v := Many(TextValues(texts));
    assert Print(ReadBody, v) == Print(Check(Each, DistinctValues), v) == Print(Each, v);
  }

  // ----- the set loops -----

  lemma {:induction false} ReadIsWrapped(facts: set<Text>)
    ensures EncodeRead(facts) == Wrap(Magic(ContextReadRequest), ReadBody, Many(TextValues(Listed(facts))))
    ensures |Listed(facts)| == |facts| && Distinct(Listed(facts))
    ensures Fits(ReadBody, Many(TextValues(Listed(facts)))) ==> 1 <= |facts| <= MAX_CONTEXT_FACTS
    ensures !Fits(ReadBody, Many(TextValues(Listed(facts)))) ==>
              Wrap(Magic(ContextReadRequest), ReadBody, Many(TextValues(Listed(facts)))) == None
  {
    ReadBodyIs();
    TextIsTotalOrder();
    ListingFacts(TextLe, facts);
    FitsRead(Listed(facts));
  }

  lemma {:induction false} ReadLeft(total: Option<seq<Byte>>, done: seq<Byte>, texts: seq<Text>)
    requires Left(total, done, ReadBody, Many(TextValues(texts))) && 1 <= |texts| <= MAX_CONTEXT_FACTS && Distinct(texts)
    ensures Left(total, done, Each, Many(TextValues(texts)))
  {
    var v := Many(TextValues(texts));
    LeftCheck(total, done, Check(Each, DistinctValues), NotEmpty, v);
    assert Holds(DistinctValues, v) by {
      forall i, j | 0 <= i < j < |texts| ensures TextValues(texts)[i] != TextValues(texts)[j] {
        TextValueAt(texts, i);
        TextValueAt(texts, j);
      }
    }
    LeftCheck(total, done, Each, DistinctValues, v);
  }

  /** `ContextReadRequest::encode`: an iteration over the ordered set. */
  method EncodeFacts(facts: set<Text>) returns (r: Result<seq<Byte>, SchemaError>)
    ensures r.Ok? <==> EncodeRead(facts).Some?
    ensures r.Ok? ==> EncodeRead(facts) == Some(r.value)
    ensures r.Err? ==> r.error == if facts == {} then Malformed else LimitExceeded
  {
    ReadIsWrapped(facts);
    if facts == {} {
      return Err(Malformed);
    }
    if |facts| > MAX_CONTEXT_FACTS {
      return Err(LimitExceeded);
    }
    var encoder := new Encoder(ContextReadRequest);
    ghost var total := Whole(encoder.bytes, ReadBody, Many(TextValues(Listed(facts))));
    ReadLeft(total, encoder.bytes, Listed(facts));
    var _ :- PutTexts(encoder, Listed(facts), MAX_CONTEXT_FACTS, total);
    r := encoder.Finish();
  }

  /** Reads a text and refuses one that is in the set already. */
  method GetFreshText(decoder: Decoder, facts: set<Text>, ghost known: set<Value>) returns (r: Result<Text, SchemaError>)
    requires Names(facts, known)
    modifies decoder
    ensures r.Ok? ==> Parse(Str, old(decoder.remaining)) == Some(Parsed(Raw(r.value), decoder.remaining))
    ensures r.Ok? ==> Raw(r.value) !in known && Names(facts + {r.value}, known + {Raw(r.value)})
    ensures r.Err? && Parse(Str, old(decoder.remaining)).Some? ==> Parse(Str, old(decoder.remaining)).value.value in known
    ensures r.Err? ==> r.error == StepError(DistinctValues, Str, old(decoder.remaining), known)
  {
    var fact :- decoder.String();
    if fact in facts {
      return Err(Malformed);
    }
    r := Ok(fact);
  }

  lemma {:induction false} FactAccepted(total: Option<Parsed<seq<Value>>>, texts: seq<Text>, left: nat, before: seq<Byte>, fact: Text, after: seq<Byte>)
    requires Ahead(total, TextValues(texts), Str, left, before) && left > 0
    requires Parse(Str, before) == Some(Parsed(Raw(fact), after))
    requires DistinctKeys(DistinctValues, TextValues(texts)) && Raw(fact) !in KeySet(DistinctValues, TextValues(texts))
    ensures Ahead(total, TextValues(texts + [fact]), Str, left - 1, after)
    ensures DistinctKeys(DistinctValues, TextValues(texts + [fact]))
    ensures KeySet(DistinctValues, TextValues(texts + [fact])) == KeySet(DistinctValues, TextValues(texts)) + {Raw(fact)}
    ensures Elements(texts + [fact]) == Elements(texts) + {fact}
    ensures KeyedError(DistinctValues, Str, left, before, TextValues(texts)) == KeyedError(DistinctValues, Str, left - 1, after, TextValues(texts + [fact]))
  {
    KeyAccepted(total, TextValues(texts), Str, DistinctValues, left, before, Raw(fact), after);
    MoreTexts(texts, fact);
  }

  /** What is left to read after `texts`, of which `facts` is the set, and the fault should it fail. */
  ghost predicate FactsAhead(total: Option<Parsed<seq<Value>>>, fault: SchemaError, texts: seq<Text>, facts: set<Text>, left: nat, bytes: seq<Byte>) {
    facts == Elements(texts) && KeyedAhead(total, fault, Str, DistinctValues, TextValues(texts), facts, left, bytes)
  }

  /** Reads the next fact and moves on, or fails as the whole list does. */
  method GetNextFact(decoder: Decoder, facts: set<Text>, ghost texts: seq<Text>, ghost total: Option<Parsed<seq<Value>>>, ghost fault: SchemaError, ghost left: nat)
    returns (r: Result<Text, SchemaError>)
    requires left > 0 && FactsAhead(total, fault, texts, facts, left, decoder.remaining)
    modifies decoder
    ensures r.Ok? ==> FactsAhead(total, fault, texts + [r.value], facts + {r.value}, left - 1, decoder.remaining)
    ensures r.Err? ==> (total.Some? ==> !Holds(DistinctValues, Many(total.value.value))) && r.error == fault
  {
    ghost var before := decoder.remaining;
    r := GetFreshText(decoder, facts, KeySet(DistinctValues, TextValues(texts)));
    if r.Ok? {
      FactAccepted(total, texts, left, before, r.value, decoder.remaining);
    } else {
      KeyRepeated(total, TextValues(texts), Str, DistinctValues, left, before);
    }
  }

  /** Reads `count` facts into a set, and stops at one that is there already. */
  method GetFacts(decoder: Decoder, count: nat) returns (r: Result<set<Text>, SchemaError>, ghost texts: seq<Text>)
    modifies decoder
    ensures var total := ParseAll(Str, count, old(decoder.remaining));
            if r.Ok? then total == Some(Parsed(TextValues(texts), decoder.remaining)) && DistinctKeys(DistinctValues, TextValues(texts))
                          && r.value == Elements(texts)
            else (total.Some? ==> !Holds(DistinctValues, Many(total.value.value)))
                 && r.error == KeyedError(DistinctValues, Str, count, old(decoder.remaining), [])
  {
    ghost var fault := KeyedError(DistinctValues, Str, count, decoder.remaining, []);
    ghost var total := ParseAll(Str, count, decoder.remaining);
    KeyedAheadStart(Str, DistinctValues, count, decoder.remaining);
    var facts: set<Text> := {};
    texts := [];
    var left: nat := count;
    while left > 0
      invariant FactsAhead(total, fault, texts, facts, left, decoder.remaining)
    {
      var next := GetNextFact(decoder, facts, texts, total, fault, left);
      if next.Err? {
        return Err(next.error), texts;
      }
      left := left - 1;
      facts := facts + {next.value};
      texts := texts + [next.value];
    }
    KeyedAheadDone(total, fault, Str, DistinctValues, TextValues(texts), facts, decoder.remaining);
    r := Ok(facts);
  }

  lemma {:induction false} ParseRead(bytes: seq<Byte>)
    ensures Decode(ContextReadRequest, bytes) == Unwrap(Magic(ContextReadRequest), ReadBody, bytes)
    ensures Magic(ContextReadRequest) <= bytes ==>
              Parse(ReadBody, bytes[8..]) == match ParseNumber(2, bytes[8..])
                                             case None => None
                                             case Some(n) =>
                                               if !(1 <= n.value <= MAX_CONTEXT_FACTS) then None
                                               else
                                                 match ParseAll(Str, n.value, n.rest)
                                                 case None => None
                                                 case Some(all) => if Holds(DistinctValues, Many(all.value)) then Some(Parsed(Many(all.value), all.rest)) else None
    ensures Magic(ContextReadRequest) <= bytes && Parse(ReadBody, bytes[8..]).None? ==>
              ParseError(ReadBody, bytes[8..]) == match ParseNumber(2, bytes[8..])
                                                  case None => Malformed
                                                  case Some(n) =>
                                                    if n.value == 0 then Malformed
                                                    else if n.value > MAX_CONTEXT_FACTS then LimitExceeded
                                                    else KeyedError(DistinctValues, Str, n.value, n.rest, [])
  {
    ReadBodyIs();
    if Magic(ContextReadRequest) <= bytes {
      var rest := bytes[8..];
      ParseCheck(Check(Each, DistinctValues), NotEmpty, rest);
      ParseCheck(Each, DistinctValues, rest);
      ParseRepeat(2, MAX_CONTEXT_FACTS, Str, rest);
      var n := ParseNumber(2, rest);
      if n.Some? {
        PrintParsedAll(Str, n.value.value, n.value.rest);
      }
      ParseDistinct(2, MAX_CONTEXT_FACTS, Str, DistinctValues, rest);
    }
  }

  /** `ContextReadRequest::decode`: the accepted list, kept as a set. */
  method DecodeFacts(bytes: seq<Byte>) returns (r: Result<set<Text>, SchemaError>, ghost texts: seq<Text>)
    ensures r.Ok? <==> Decode(ContextReadRequest, bytes).Some?
    ensures r.Ok? ==> Accepts(bytes, texts) && r.value == Elements(texts)
    ensures r.Err? ==> r.error == UnwrapError(Magic(ContextReadRequest), ReadBody, bytes)
  {
    ParseRead(bytes);
    texts := [];
    var framed := Decoder.Open(bytes, ContextReadRequest);
    if framed.Err? {
      return Err(framed.error), [];
    }
    var decoder := framed.value;
    var count := decoder.Number(2);
    if count.Err? {
      return Err(count.error), [];
    }
    if count.value == 0 {
      return Err(Malformed), [];
    }
    if count.value > MAX_CONTEXT_FACTS {
      return Err(LimitExceeded), [];
    }
    r, texts := GetFacts(decoder, count.value);
    if r.Ok? {
      DistinctHolds(DistinctValues, TextValues(texts));
      var finished := decoder.Finish();
      if finished.Err? {
        r := Err(finished.error);
      }
    }
  }
}
