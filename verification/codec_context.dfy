/** Context snapshots and the subscription reply that carries one. */
module ContextCodec {
  import opened Basics
  import opened Formats
  import opened Messages
  import opened Streams
  import opened Keyed

  datatype FactContent = TextFact(text: Text) | BooleanFact(flag: bool)

  datatype Fact = Fact(key: Text, content: FactContent)

  datatype Snapshot = Snapshot(generation: u64, facts: seq<Fact>)

  function ContentValue(content: FactContent): Value {
    match content
    case TextFact(text) => Tagged(0, Raw(text))
    case BooleanFact(flag) => Tagged(1, Num(if flag then 1 else 0))
  }

  function OneFact(fact: Fact): Value {
    Both(Raw(fact.key), ContentValue(fact.content))
  }

  function FactValues(facts: seq<Fact>): (r: seq<Value>)
    ensures |r| == |facts|
  {
    if facts == [] then [] else FactValues(facts[..|facts| - 1]) + [OneFact(facts[|facts| - 1])]
  }

  lemma {:induction false} FactValueAt(facts: seq<Fact>, i: nat)
    requires i < |facts|
    ensures FactValues(facts)[i] == OneFact(facts[i])
  {
    if i < |facts| - 1 {
      FactValueAt(facts[..|facts| - 1], i);
    }
  }

  function SnapshotValue(snapshot: Snapshot): Value {
    Both(Num(snapshot.generation), Many(FactValues(snapshot.facts)))
  }

  function OpenedValue(resource: u64, snapshot: Snapshot): Value {
    Both(Num(resource), SnapshotValue(snapshot))
  }

  lemma {:induction false} FactsInjective(a: seq<Fact>, b: seq<Fact>)
    requires FactValues(a) == FactValues(b)
    ensures a == b
  {
    assert |a| == |FactValues(a)| == |b|;
    forall i | 0 <= i < |a| ensures a[i] == b[i] {
      FactValueAt(a, i);
      FactValueAt(b, i);
    }
  }

  /** A snapshot is determined by its encoding, and comes back from it. */
  lemma {:induction false} SnapshotRoundTrip(a: Snapshot, b: Snapshot, bytes: seq<Byte>)
    requires Encode(ContextSnapshot, SnapshotValue(a)) == Some(bytes)
    ensures Decode(ContextSnapshot, bytes) == Some(SnapshotValue(a))
    ensures Decode(ContextSnapshot, bytes) == Some(SnapshotValue(b)) ==> a == b
  {
    DecodeEncoded(ContextSnapshot, SnapshotValue(a));
    if SnapshotValue(a) == SnapshotValue(b) {
      FactsInjective(a.facts, b.facts);
    }
  }

  const FactFormat := Pair(Str, FactValue)
  const FactsFormat := Repeat(2, MAX_CONTEXT_FACTS, FactFormat)

  lemma {:induction false} MoreFacts(facts: seq<Fact>, fact: Fact)
    ensures FactValues(facts + [fact]) == FactValues(facts) + [OneFact(fact)]
  {
    assert (facts + [fact])[..|facts|] == facts;
  }

  // ----- encoding -----

  method PutContent(encoder: Encoder, content: FactContent) returns (r: Result<(), SchemaError>)
    modifies encoder
    ensures r.Ok? <==> Fits(FactValue, ContentValue(content))
    ensures r.Ok? ==> encoder.bytes == old(encoder.bytes) + Print(FactValue, ContentValue(content))
    ensures r.Err? ==> r.error == LimitExceeded
  {
    Powers();
    match content
    case TextFact(text) =>
      if |text| > MAX_CONTEXT_VALUE_BYTES {
        return Err(LimitExceeded);
      }
      encoder.Number(0, 1);
      var _ :- encoder.String(text);
      ConcatAssociates(old(encoder.bytes), ToBytes(0, 1), Print(Str, Raw(text)));
      r := Ok(());
    case BooleanFact(flag) =>
      encoder.Number(1, 1);
      var code := if flag then 1 else 0;
      encoder.Number(code, 1);
      ConcatAssociates(old(encoder.bytes), ToBytes(1, 1), ToBytes(code, 1));
      r := Ok(());
  }

  method PutFact(encoder: Encoder, fact: Fact) returns (r: Result<(), SchemaError>)
    modifies encoder
    ensures r.Ok? <==> Fits(FactFormat, OneFact(fact))
    ensures r.Ok? ==> encoder.bytes == old(encoder.bytes) + Print(FactFormat, OneFact(fact))
    ensures r.Err? ==> r.error == LimitExceeded
  {
    var _ :- encoder.String(fact.key);
    var _ :- PutContent(encoder, fact.content);
    ConcatAssociates(old(encoder.bytes), Print(Str, Raw(fact.key)), Print(FactValue, ContentValue(fact.content)));
    r := Ok(());
  }

  /** Why facts cannot be written. */
  function FactsFault(facts: seq<Fact>): SchemaError {
    KeyedFault(FactFormat, DistinctFirsts, FactValues(facts), 0)
  }

  ghost predicate FactsLeft(total: Option<seq<Byte>>, done: seq<Byte>, facts: seq<Fact>, i: nat, keys: set<Text>)
    requires i <= |facts|
  {
    && KeyedLeft(total, done, FactFormat, DistinctFirsts, FactValues(facts), i)
    && Names(keys, KeySet(DistinctFirsts, FactValues(facts)[..i]))
    && FactsFault(facts) == KeyedFault(FactFormat, DistinctFirsts, FactValues(facts), i)
  }

  lemma {:induction false} NextFact(total: Option<seq<Byte>>, done: seq<Byte>, facts: seq<Fact>, i: nat, keys: set<Text>)
    requires i < |facts| && FactsLeft(total, done, facts, i, keys)
    ensures facts[i].key in keys || !Fits(FactFormat, OneFact(facts[i])) ==> total == None
    ensures facts[i].key in keys ==> FactsFault(facts) == Malformed
    ensures facts[i].key !in keys && !Fits(FactFormat, OneFact(facts[i])) ==> FactsFault(facts) == LimitExceeded
    ensures facts[i].key !in keys && Fits(FactFormat, OneFact(facts[i])) ==>
              FactsLeft(total, done + Print(FactFormat, OneFact(facts[i])), facts, i + 1, keys + {facts[i].key})
  {
    FactValueAt(facts, i);
    FaultNext(FactFormat, DistinctFirsts, FactValues(facts), i);
    KeyedNext(total, done, FactFormat, DistinctFirsts, FactValues(facts), i);
  }

  /** Writes the count and the facts, and stops at a repeated key. */
  method PutFacts(encoder: Encoder, facts: seq<Fact>, ghost total: Option<seq<Byte>>) returns (r: Result<(), SchemaError>)
    requires Left(total, encoder.bytes, Facts, Many(FactValues(facts))) && |facts| <= MAX_CONTEXT_FACTS
    modifies encoder
    ensures r.Ok? ==> total == Some(encoder.bytes) && FactsFault(facts) == LimitExceeded
    ensures r.Err? ==> total == None && r.error == FactsFault(facts)
  {
    Powers();
    ghost var values := FactValues(facts);
    KeyedStart(total, encoder.bytes, FactsFormat, DistinctFirsts, values);
    encoder.Number(|facts|, 2);
    var keys: set<Text> := {};
    var i := 0;
    while i < |facts|
      invariant 0 <= i <= |facts|
      invariant FactsLeft(total, encoder.bytes, facts, i, keys)
    {
      NextFact(total, encoder.bytes, facts, i, keys);
      if facts[i].key in keys {
        return Err(Malformed);
      }
      keys := keys + {facts[i].key};
      var _ :- PutFact(encoder, facts[i]);
      i := i + 1;
    }
    KeyedEnd(total, encoder.bytes, FactFormat, DistinctFirsts, values);
    r := Ok(());
  }

  lemma {:induction false} FitsSnapshot(snapshot: Snapshot)
    ensures Fits(Pair(Identifier, Facts), SnapshotValue(snapshot)) ==> snapshot.generation > 0 && |snapshot.facts| <= MAX_CONTEXT_FACTS
    ensures snapshot.generation > 0 ==> Fits(Identifier, Num(snapshot.generation)) && Print(Identifier, Num(snapshot.generation)) == Print(U64, Num(snapshot.generation))
  {
    Powers();
    FitsPair(Identifier, Facts, Num(snapshot.generation), Many(FactValues(snapshot.facts)));
    FitsRange(8, 1, U64_LIMIT - 1, snapshot.generation);
    FitsCheck(FactsFormat, DistinctFirsts, Many(FactValues(snapshot.facts)));
  }

  /** Why a snapshot cannot be written. */
  function SnapshotFault(snapshot: Snapshot): SchemaError {
    if snapshot.generation == 0 then Malformed
    else if |snapshot.facts| > MAX_CONTEXT_FACTS then LimitExceeded
    else FactsFault(snapshot.facts)
  }

  const SnapshotBody := Pair(Identifier, Facts)
  const OpenedBody := Pair(Identifier, Pair(Identifier, Facts))

  /** The part of `encode_context_snapshot` that follows the optional identifier. */
  method PutSnapshot(encoder: Encoder, snapshot: Snapshot, ghost total: Option<seq<Byte>>) returns (r: Result<(), SchemaError>)
    requires Left(total, encoder.bytes, SnapshotBody, SnapshotValue(snapshot))
    requires snapshot.generation > 0 && |snapshot.facts| <= MAX_CONTEXT_FACTS
    modifies encoder
    ensures r.Ok? ==> total == Some(encoder.bytes) && FactsFault(snapshot.facts) == LimitExceeded
    ensures r.Err? ==> total == None && r.error == FactsFault(snapshot.facts)
  {
    FitsSnapshot(snapshot);
    LeftPair(total, encoder.bytes, Identifier, Facts, Num(snapshot.generation), Many(FactValues(snapshot.facts)));
    Powers();
    encoder.Number(snapshot.generation, 8);
    r := PutFacts(encoder, snapshot.facts, total);
  }

  lemma {:induction false} SnapshotIsWrapped(snapshot: Snapshot)
    ensures Encode(ContextSnapshot, SnapshotValue(snapshot)) == Wrap(Magic(ContextSnapshot), SnapshotBody, SnapshotValue(snapshot))
    ensures !Fits(SnapshotBody, SnapshotValue(snapshot)) ==> Wrap(Magic(ContextSnapshot), SnapshotBody, SnapshotValue(snapshot)) == None
  {
    assert Body(ContextSnapshot) == SnapshotBody;
  }

  method EncodeSnapshot(snapshot: Snapshot) returns (r: Result<seq<Byte>, SchemaError>)
    ensures r.Ok? <==> Encode(ContextSnapshot, SnapshotValue(snapshot)).Some?
    ensures r.Ok? ==> Encode(ContextSnapshot, SnapshotValue(snapshot)) == Some(r.value)
    ensures r.Err? ==> r.error == SnapshotFault(snapshot)
  {
    SnapshotIsWrapped(snapshot);
    ghost var v := SnapshotValue(snapshot);
    FitsSnapshot(snapshot);
    if snapshot.generation == 0 {
      return Err(Malformed);
    }
    if |snapshot.facts| > MAX_CONTEXT_FACTS {
      return Err(LimitExceeded);
    }
    var encoder := new Encoder(ContextSnapshot);
    ghost var total := Whole(encoder.bytes, SnapshotBody, v);
    var _ :- PutSnapshot(encoder, snapshot, total);
    r := encoder.Finish();
  }

  lemma {:induction false} OpenedIsWrapped(resource: u64, snapshot: Snapshot)
    ensures Encode(ContextSubscriptionOpened, OpenedValue(resource, snapshot)) ==
            Wrap(Magic(ContextSubscriptionOpened), OpenedBody, OpenedValue(resource, snapshot))
    ensures !Fits(OpenedBody, OpenedValue(resource, snapshot)) ==>
              Wrap(Magic(ContextSubscriptionOpened), OpenedBody, OpenedValue(resource, snapshot)) == None
  {
    assert Body(ContextSubscriptionOpened) == OpenedBody;
  }

  method EncodeOpened(resource: u64, snapshot: Snapshot) returns (r: Result<seq<Byte>, SchemaError>)
    ensures r.Ok? <==> Encode(ContextSubscriptionOpened, OpenedValue(resource, snapshot)).Some?
    ensures r.Ok? ==> Encode(ContextSubscriptionOpened, OpenedValue(resource, snapshot)) == Some(r.value)
    ensures r.Err? ==> r.error == if resource == 0 then Malformed else SnapshotFault(snapshot)
  {
    OpenedIsWrapped(resource, snapshot);
    ghost var v := OpenedValue(resource, snapshot);
    FitsSnapshot(snapshot);
    FitsPair(Identifier, SnapshotBody, Num(resource), SnapshotValue(snapshot));
    FitsRange(8, 1, U64_LIMIT - 1, resource);
    if resource == 0 {
      return Err(Malformed);
    }
    if snapshot.generation == 0 {
      return Err(Malformed);
    }
    if |snapshot.facts| > MAX_CONTEXT_FACTS {
      return Err(LimitExceeded);
    }
    var encoder := new Encoder(ContextSubscriptionOpened);
    ghost var total := Whole(encoder.bytes, OpenedBody, v);
    Powers();
    LeftPair(total, encoder.bytes, Identifier, SnapshotBody, Num(resource), SnapshotValue(snapshot));
    encoder.Number(resource, 8);
    var _ :- PutSnapshot(encoder, snapshot, total);
    r := encoder.Finish();
  }

  // ----- decoding -----

  method GetContent(decoder: Decoder) returns (r: Result<FactContent, SchemaError>)
    modifies decoder
    ensures match Parse(FactValue, old(decoder.remaining))
            case None => r == Err(ParseError(FactValue, old(decoder.remaining)))
            case Some(p) => r.Ok? && p.value == ContentValue(r.value) && decoder.remaining == p.rest
  {
    Powers();
    ParseChoice([StrUpTo(MAX_CONTEXT_VALUE_BYTES), Flag], decoder.remaining);
    var tag :- decoder.Number(1);
    if tag == 0 {
      ParseCheck(Str, LengthBetween(0, MAX_CONTEXT_VALUE_BYTES), decoder.remaining);
      var text :- decoder.String();
      if |text| > MAX_CONTEXT_VALUE_BYTES {
        return Err(LimitExceeded);
      }
      return Ok(TextFact(text));
    }
    if tag != 1 {
      return Err(Malformed);
    }
    ParseCheck(U8, Between(0, 1), decoder.remaining);
    var code :- decoder.Number(1);
    if code == 0 {
      return Ok(BooleanFact(false));
    }
    if code != 1 {
      return Err(Malformed);
    }
    r := Ok(BooleanFact(true));
  }

  /** Reads one fact unless its key is among `keys`. */
  method GetFact(decoder: Decoder, keys: set<Text>, ghost known: set<Value>) returns (r: Result<Fact, SchemaError>)
    requires Names(keys, known)
    modifies decoder
    ensures r.Ok? ==> Parse(FactFormat, old(decoder.remaining)) == Some(Parsed(OneFact(r.value), decoder.remaining))
    ensures r.Ok? ==> Raw(r.value.key) !in known && Names(keys + {r.value.key}, known + {Raw(r.value.key)})
    ensures r.Err? && Parse(FactFormat, old(decoder.remaining)).Some? ==> FirstOf(Parse(FactFormat, old(decoder.remaining)).value.value) in known
    ensures r.Err? ==> r.error == StepError(DistinctFirsts, FactFormat, old(decoder.remaining), known)
  {
    ParsePair(Str, FactValue, decoder.remaining);
    var key :- decoder.String();
    if key in keys {
      return Err(Malformed);
    }
    var content :- GetContent(decoder);
    r := Ok(Fact(key, content));
  }

  lemma {:induction false} FactAccepted(total: Option<Parsed<seq<Value>>>, facts: seq<Fact>, left: nat, before: seq<Byte>, fact: Fact, after: seq<Byte>)
    requires Ahead(total, FactValues(facts), FactFormat, left, before) && left > 0
    requires Parse(FactFormat, before) == Some(Parsed(OneFact(fact), after))
    requires DistinctKeys(DistinctFirsts, FactValues(facts)) && Raw(fact.key) !in KeySet(DistinctFirsts, FactValues(facts))
    ensures Ahead(total, FactValues(facts + [fact]), FactFormat, left - 1, after)
    ensures DistinctKeys(DistinctFirsts, FactValues(facts + [fact]))
    ensures KeySet(DistinctFirsts, FactValues(facts + [fact])) == KeySet(DistinctFirsts, FactValues(facts)) + {Raw(fact.key)}
    ensures KeyedError(DistinctFirsts, FactFormat, left, before, FactValues(facts)) ==
            KeyedError(DistinctFirsts, FactFormat, left - 1, after, FactValues(facts + [fact]))
  {
    KeyAccepted(total, FactValues(facts), FactFormat, DistinctFirsts, left, before, OneFact(fact), after);
    MoreFacts(facts, fact);
  }

  /** Reads the next fact and moves on, or fails as the whole list does. */
  method GetNextFact(decoder: Decoder, facts: seq<Fact>, keys: set<Text>, ghost total: Option<Parsed<seq<Value>>>, ghost fault: SchemaError, ghost left: nat)
    returns (r: Result<Fact, SchemaError>)
    requires left > 0 && KeyedAhead(total, fault, FactFormat, DistinctFirsts, FactValues(facts), keys, left, decoder.remaining)
    modifies decoder
    ensures r.Ok? ==> KeyedAhead(total, fault, FactFormat, DistinctFirsts, FactValues(facts + [r.value]), keys + {r.value.key}, left - 1, decoder.remaining)
    ensures r.Err? ==> (total.Some? ==> !Holds(DistinctFirsts, Many(total.value.value))) && r.error == fault
  {
    ghost var before := decoder.remaining;
    r := GetFact(decoder, keys, KeySet(DistinctFirsts, FactValues(facts)));
    if r.Ok? {
      FactAccepted(total, facts, left, before, r.value, decoder.remaining);
    } else {
      KeyRepeated(total, FactValues(facts), FactFormat, DistinctFirsts, left, before);
    }
  }

  /** Reads `count` facts, and stops at a repeated key. */
  method GetFactList(decoder: Decoder, count: nat) returns (r: Result<seq<Fact>, SchemaError>)
    modifies decoder
    ensures var total := ParseAll(FactFormat, count, old(decoder.remaining));
            if r.Ok? then total == Some(Parsed(FactValues(r.value), decoder.remaining)) && DistinctKeys(DistinctFirsts, FactValues(r.value))
            else total.Some? ==> !Holds(DistinctFirsts, Many(total.value.value))
    ensures r.Err? ==> r.error == KeyedError(DistinctFirsts, FactFormat, count, old(decoder.remaining), [])
  {
    ghost var fault := KeyedError(DistinctFirsts, FactFormat, count, decoder.remaining, []);
    ghost var total := ParseAll(FactFormat, count, decoder.remaining);
    KeyedAheadStart(FactFormat, DistinctFirsts, count, decoder.remaining);
    var facts: seq<Fact> := [];
    var keys: set<Text> := {};
    var left: nat := count;
    while left > 0
      invariant KeyedAhead(total, fault, FactFormat, DistinctFirsts, FactValues(facts), keys, left, decoder.remaining)
    {
      var next :- GetNextFact(decoder, facts, keys, total, fault, left);
      left := left - 1;
      keys := keys + {next.key};
      facts := facts + [next];
    }
    KeyedAheadDone(total, fault, FactFormat, DistinctFirsts, FactValues(facts), keys, decoder.remaining);
    r := Ok(facts);
  }

  /** Reads the count and the facts. */
  method GetFacts(decoder: Decoder) returns (r: Result<seq<Fact>, SchemaError>)
    modifies decoder
    ensures match Parse(Facts, old(decoder.remaining))
            case None => r == Err(ParseError(Facts, old(decoder.remaining)))
            case Some(p) => r.Ok? && p.value == Many(FactValues(r.value)) && decoder.remaining == p.rest
  {
    ParseCheck(FactsFormat, DistinctFirsts, decoder.remaining);
    ParseRepeat(2, MAX_CONTEXT_FACTS, FactFormat, decoder.remaining);
    ParseDistinct(2, MAX_CONTEXT_FACTS, FactFormat, DistinctFirsts, decoder.remaining);
    var count :- decoder.Number(2);
    if count > MAX_CONTEXT_FACTS {
      return Err(LimitExceeded);
    }
    var facts :- GetFactList(decoder, count);
    DistinctHolds(DistinctFirsts, FactValues(facts));
    r := Ok(facts);
  }

  /** The part of `decode_context_snapshot` that follows the optional identifier. */
  method GetSnapshot(decoder: Decoder) returns (r: Result<Snapshot, SchemaError>)
    modifies decoder
    ensures match Parse(SnapshotBody, old(decoder.remaining))
            case None => r == Err(ParseError(SnapshotBody, old(decoder.remaining)))
            case Some(p) => r.Ok? && p.value == SnapshotValue(r.value) && decoder.remaining == p.rest
  {
    Powers();
    ParseCheck(U64, Between(1, U64_LIMIT - 1), decoder.remaining);
    ParsePair(Identifier, Facts, decoder.remaining);
    var generation :- decoder.Number(8);
    if generation == 0 {
      return Err(Malformed);
    }
    var facts :- GetFacts(decoder);
    r := Ok(Snapshot(generation, facts));
  }

  lemma {:induction false} DecodeIsUnwrap(bytes: seq<Byte>)
    ensures Decode(ContextSnapshot, bytes) == Unwrap(Magic(ContextSnapshot), SnapshotBody, bytes)
    ensures Decode(ContextSubscriptionOpened, bytes) == Unwrap(Magic(ContextSubscriptionOpened), OpenedBody, bytes)
  {
    assert Body(ContextSnapshot) == SnapshotBody && Body(ContextSubscriptionOpened) == OpenedBody;
  }

  method DecodeSnapshot(bytes: seq<Byte>) returns (r: Result<Snapshot, SchemaError>)
    ensures r.Ok? <==> Decode(ContextSnapshot, bytes).Some?
    ensures r.Ok? ==> Decode(ContextSnapshot, bytes) == Some(SnapshotValue(r.value))
    ensures r.Err? ==> r.error == UnwrapError(Magic(ContextSnapshot), SnapshotBody, bytes)
  {
    DecodeIsUnwrap(bytes);
    var decoder :- Decoder.Open(bytes, ContextSnapshot);
    var snapshot :- GetSnapshot(decoder);
    var _ :- decoder.Finish();
    r := Ok(snapshot);
  }

  /** The body of a subscription reply before the identifier is looked at, which comes last. */
  const UncheckedBody := Pair(U64, SnapshotBody)

  lemma {:induction false} CheckedLast(bytes: seq<Byte>)
    ensures Parse(OpenedBody, bytes) == match Parse(UncheckedBody, bytes)
                                        case None => None
                                        case Some(p) => if p.value.Both? && p.value.first == Num(0) then None else Some(p)
  {
    Powers();
    ParseCheck(U64, Between(1, U64_LIMIT - 1), bytes);
    ParsePair(Identifier, SnapshotBody, bytes);
    ParsePair(U64, SnapshotBody, bytes);
    PrintParsed(U64, bytes);
  }

  method GetOpened(decoder: Decoder) returns (r: Result<(u64, Snapshot), SchemaError>)
    modifies decoder
    ensures match Parse(UncheckedBody, old(decoder.remaining))
            case None => r == Err(ParseError(UncheckedBody, old(decoder.remaining)))
            case Some(p) => r.Ok? && p.value == OpenedValue(r.value.0, r.value.1) && decoder.remaining == p.rest
  {
    Powers();
    ParsePair(U64, SnapshotBody, decoder.remaining);
    var resource :- decoder.Number(8);
    var snapshot :- GetSnapshot(decoder);
    r := Ok((resource, snapshot));
  }

  method DecodeOpened(bytes: seq<Byte>) returns (r: Result<(u64, Snapshot), SchemaError>)
    ensures r.Ok? <==> Decode(ContextSubscriptionOpened, bytes).Some?
    ensures r.Ok? ==> Decode(ContextSubscriptionOpened, bytes) == Some(OpenedValue(r.value.0, r.value.1))
    ensures r.Err? ==> r.error == UnwrapError(Magic(ContextSubscriptionOpened), UncheckedBody, bytes)
  {
    DecodeIsUnwrap(bytes);
    var decoder :- Decoder.Open(bytes, ContextSubscriptionOpened);
    CheckedLast(decoder.remaining);
    var got :- GetOpened(decoder);
    var _ :- decoder.Finish();
    if got.0 == 0 {
      return Err(Malformed);
    }
    r := Ok(got);
  }
}
