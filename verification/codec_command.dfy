/** Command requests with named arguments, and the events of a running command. */
module CommandCodec {
  import opened Basics
  import opened Formats
  import opened Messages
  import opened Streams
  import opened Keyed

  type i32 = n: int | -0x8000_0000 <= n < 0x8000_0000
  type i64 = n: int | -0x8000_0000_0000_0000 <= n < 0x8000_0000_0000_0000

  /** Two's complement. */
  function Bits32(n: i32): u32 {
    if n < 0 then n + U32_LIMIT else n
  }

  function Signed32(bits: u32): (n: i32)
    ensures Bits32(n) == bits
  {
    if bits >= 0x8000_0000 then bits - U32_LIMIT else bits
  }

  function Bits64(n: i64): u64 {
    if n < 0 then n + U64_LIMIT else n
  }

  function Signed64(bits: u64): (n: i64)
    ensures Bits64(n) == bits
  {
    if bits >= 0x8000_0000_0000_0000 then bits - U64_LIMIT else bits
  }

  // ----- requests -----

  datatype CommandValue =
    | Integer(name: Text, number: i64)
    | FixedEnum(name: Text, value: Text)
    | FreeText(name: Text, value: Text)
    | ApprovedFile(name: Text, path: Text)
    | Url(name: Text, value: Text)

  datatype Request = Request(command: Text, values: seq<CommandValue>)

  function ArgumentValue(a: CommandValue): Value {
    match a
    case Integer(name, number) => Tagged(0, Both(Raw(name), Num(Bits64(number))))
    case FixedEnum(name, value) => Tagged(1, Both(Raw(name), Raw(value)))
    case FreeText(name, value) => Tagged(2, Both(Raw(name), Raw(value)))
    case ApprovedFile(name, path) => Tagged(3, Both(Raw(name), Raw(path)))
    case Url(name, value) => Tagged(4, Both(Raw(name), Raw(value)))
  }

  function ArgumentValues(values: seq<CommandValue>): (r: seq<Value>)
    ensures |r| == |values|
  {
    if values == [] then [] else ArgumentValues(values[..|values| - 1]) + [ArgumentValue(values[|values| - 1])]
  }

  function RequestValue(request: Request): Value {
    Both(Raw(request.command), Many(ArgumentValues(request.values)))
  }

  lemma {:induction false} ArgumentValueAt(values: seq<CommandValue>, i: nat)
    requires i < |values|
    ensures ArgumentValues(values)[i] == ArgumentValue(values[i])
  {
    if i < |values| - 1 {
      ArgumentValueAt(values[..|values| - 1], i);
    }
  }

  lemma {:induction false} MoreArguments(values: seq<CommandValue>, a: CommandValue)
    ensures ArgumentValues(values + [a]) == ArgumentValues(values) + [ArgumentValue(a)]
  {
    assert (values + [a])[..|values|] == values;
  }

  lemma {:induction false} ArgumentsInjective(a: seq<CommandValue>, b: seq<CommandValue>)
    requires ArgumentValues(a) == ArgumentValues(b)
    ensures a == b
  {
    assert |a| == |ArgumentValues(a)| == |b|;
    forall i | 0 <= i < |a| ensures a[i] == b[i] {
      ArgumentValueAt(a, i);
      ArgumentValueAt(b, i);
    }
  }

  /** A request is determined by its encoding, and comes back from it. */
  lemma {:induction false} RequestRoundTrip(a: Request, b: Request, bytes: seq<Byte>)
    requires Encode(CommandRunRequest, RequestValue(a)) == Some(bytes)
    ensures Decode(CommandRunRequest, bytes) == Some(RequestValue(a))
    ensures Decode(CommandRunRequest, bytes) == Some(RequestValue(b)) ==> a == b
  {
    DecodeEncoded(CommandRunRequest, RequestValue(a));
    if RequestValue(a) == RequestValue(b) {
      ArgumentsInjective(a.values, b.values);
    }
  }

  const ArgumentsFormat := Repeat(2, MAX_COMMAND_VALUES, Argument)
  const RequestBody := Pair(Str, Arguments)

  lemma {:induction false} FitsArgument(a: CommandValue)
    ensures Fits(Argument, ArgumentValue(a)) <==>
              Fits(Str, Raw(a.name)) && (a.Integer? || Fits(Str, ArgumentValue(a).value.second))
    ensures Fits(Argument, ArgumentValue(a)) ==>
              Print(Argument, ArgumentValue(a)) ==
              ToBytes(ArgumentValue(a).tag, 1) + (Print(Str, Raw(a.name)) +
                (if a.Integer? then ToBytes(Bits64(a.number), 8) else Print(Str, ArgumentValue(a).value.second)))
  {
    Powers();
    var v := ArgumentValue(a);
    FitsPair(Str, if a.Integer? then U64 else Str, v.value.first, v.value.second);
  }

  method PutText(encoder: Encoder, tag: nat, name: Text, value: Text, ghost a: CommandValue) returns (r: Result<(), SchemaError>)
    requires tag < 5 && ArgumentValue(a) == Tagged(tag, Both(Raw(name), Raw(value))) && a.name == name && !a.Integer?
    modifies encoder
    ensures r.Ok? <==> Fits(Argument, ArgumentValue(a))
    ensures r.Ok? ==> encoder.bytes == old(encoder.bytes) + Print(Argument, ArgumentValue(a))
    ensures r.Err? ==> r.error == LimitExceeded
  {
    Powers();
    FitsArgument(a);
    encoder.Number(tag, 1);
    var _ :- encoder.String(name);
    var _ :- encoder.String(value);
    ConcatAssociates(old(encoder.bytes), ToBytes(tag, 1), Print(Str, Raw(name)) + Print(Str, Raw(value)));
    ConcatAssociates(old(encoder.bytes) + ToBytes(tag, 1), Print(Str, Raw(name)), Print(Str, Raw(value)));
    r := Ok(());
  }

  method PutArgument(encoder: Encoder, a: CommandValue) returns (r: Result<(), SchemaError>)
    modifies encoder
    ensures r.Ok? <==> Fits(Argument, ArgumentValue(a))
    ensures r.Ok? ==> encoder.bytes == old(encoder.bytes) + Print(Argument, ArgumentValue(a))
    ensures r.Err? ==> r.error == LimitExceeded
  {
    match a
    case Integer(name, number) =>
      Powers();
      FitsArgument(a);
      encoder.Number(0, 1);
      var _ :- encoder.String(name);
      encoder.Number(Bits64(number), 8);
      ConcatAssociates(old(encoder.bytes), ToBytes(0, 1), Print(Str, Raw(name)) + ToBytes(Bits64(number), 8));
      ConcatAssociates(old(encoder.bytes) + ToBytes(0, 1), Print(Str, Raw(name)), ToBytes(Bits64(number), 8));
      r := Ok(());
    case FixedEnum(name, value) => r := PutText(encoder, 1, name, value, a);
    case FreeText(name, value) => r := PutText(encoder, 2, name, value, a);
    case ApprovedFile(name, path) => r := PutText(encoder, 3, name, path, a);
    case Url(name, value) => r := PutText(encoder, 4, name, value, a);
  }

  /** Why arguments cannot be written. */
  function ArgumentsFault(arguments: seq<CommandValue>): SchemaError {
    KeyedFault(Argument, DistinctNames, ArgumentValues(arguments), 0)
  }

  ghost predicate ArgumentsLeft(total: Option<seq<Byte>>, done: seq<Byte>, arguments: seq<CommandValue>, i: nat, names: set<Text>)
    requires i <= |arguments|
  {
    && KeyedLeft(total, done, Argument, DistinctNames, ArgumentValues(arguments), i)
    && Names(names, KeySet(DistinctNames, ArgumentValues(arguments)[..i]))
    && ArgumentsFault(arguments) == KeyedFault(Argument, DistinctNames, ArgumentValues(arguments), i)
  }

  lemma {:induction false} NextArgument(total: Option<seq<Byte>>, done: seq<Byte>, arguments: seq<CommandValue>, i: nat, names: set<Text>)
    requires i < |arguments| && ArgumentsLeft(total, done, arguments, i, names)
    ensures arguments[i].name in names || !Fits(Argument, ArgumentValue(arguments[i])) ==> total == None
    ensures arguments[i].name in names ==> ArgumentsFault(arguments) == Malformed
    ensures arguments[i].name !in names && !Fits(Argument, ArgumentValue(arguments[i])) ==> ArgumentsFault(arguments) == LimitExceeded
    ensures arguments[i].name !in names && Fits(Argument, ArgumentValue(arguments[i])) ==>
              ArgumentsLeft(total, done + Print(Argument, ArgumentValue(arguments[i])), arguments, i + 1, names + {arguments[i].name})
  {
    ArgumentValueAt(arguments, i);
    FaultNext(Argument, DistinctNames, ArgumentValues(arguments), i);
    KeyedNext(total, done, Argument, DistinctNames, ArgumentValues(arguments), i);
  }

  /** Writes the count and the arguments, and stops at a repeated name. */
  method PutArguments(encoder: Encoder, arguments: seq<CommandValue>, ghost total: Option<seq<Byte>>) returns (r: Result<(), SchemaError>)
    requires Left(total, encoder.bytes, Arguments, Many(ArgumentValues(arguments))) && |arguments| <= MAX_COMMAND_VALUES
    modifies encoder
    ensures r.Ok? ==> total == Some(encoder.bytes) && ArgumentsFault(arguments) == LimitExceeded
    ensures r.Err? ==> total == None && r.error == ArgumentsFault(arguments)
  {
    Powers();
    ghost var values := ArgumentValues(arguments);
    KeyedStart(total, encoder.bytes, ArgumentsFormat, DistinctNames, values);
    encoder.Number(|arguments|, 2);
    var names: set<Text> := {};
    var i := 0;
    while i < |arguments|
      invariant 0 <= i <= |arguments|
      invariant ArgumentsLeft(total, encoder.bytes, arguments, i, names)
    {
      NextArgument(total, encoder.bytes, arguments, i, names);
      if arguments[i].name in names {
        return Err(Malformed);
      }
      names := names + {arguments[i].name};
      var _ :- PutArgument(encoder, arguments[i]);
      i := i + 1;
    }
    KeyedEnd(total, encoder.bytes, Argument, DistinctNames, values);
    r := Ok(());
  }

  lemma {:induction false} RequestIsWrapped(request: Request)
    ensures Encode(CommandRunRequest, RequestValue(request)) == Wrap(Magic(CommandRunRequest), RequestBody, RequestValue(request))
    ensures Fits(RequestBody, RequestValue(request)) ==> |request.values| <= MAX_COMMAND_VALUES
    ensures !Fits(RequestBody, RequestValue(request)) ==> Wrap(Magic(CommandRunRequest), RequestBody, RequestValue(request)) == None
  {
    assert Body(CommandRunRequest) == RequestBody;
    FitsPair(Str, Arguments, Raw(request.command), Many(ArgumentValues(request.values)));
    FitsCheck(ArgumentsFormat, DistinctNames, Many(ArgumentValues(request.values)));
  }

  /** Why a request cannot be written. */
  function RequestFault(request: Request): SchemaError {
    if |request.values| > MAX_COMMAND_VALUES || !Fits(Str, Raw(request.command)) then LimitExceeded
    else ArgumentsFault(request.values)
  }

  method EncodeRequest(request: Request) returns (r: Result<seq<Byte>, SchemaError>)
    ensures r.Ok? <==> Encode(CommandRunRequest, RequestValue(request)).Some?
    ensures r.Ok? ==> Encode(CommandRunRequest, RequestValue(request)) == Some(r.value)
    ensures r.Err? ==> r.error == RequestFault(request)
  {
    RequestIsWrapped(request);
    if |request.values| > MAX_COMMAND_VALUES {
      return Err(LimitExceeded);
    }
    var encoder := new Encoder(CommandRunRequest);
    ghost var total := Whole(encoder.bytes, RequestBody, RequestValue(request));
    LeftPair(total, encoder.bytes, Str, Arguments, Raw(request.command), Many(ArgumentValues(request.values)));
    var _ :- encoder.String(request.command);
    var _ :- PutArguments(encoder, request.values, total);
    r := encoder.Finish();
  }

  /** The name and the text of an argument whose value is a text. */
  method GetTexts(decoder: Decoder) returns (r: Result<(Text, Text), SchemaError>)
    modifies decoder
    ensures match Parse(Pair(Str, Str), old(decoder.remaining))
            case None => r == Err(ParseError(Pair(Str, Str), old(decoder.remaining)))
            case Some(p) => r.Ok? && p.value == Both(Raw(r.value.0), Raw(r.value.1)) && decoder.remaining == p.rest
  {
    ParsePair(Str, Str, decoder.remaining);
    var name :- decoder.String();
    var value :- decoder.String();
    r := Ok((name, value));
  }

  const ArgumentCases := [Pair(Str, U64), Pair(Str, Str), Pair(Str, Str), Pair(Str, Str), Pair(Str, Str)]

  method GetArgument(decoder: Decoder) returns (r: Result<CommandValue, SchemaError>)
    modifies decoder
    ensures match Parse(Argument, old(decoder.remaining))
            case None => r == Err(ParseError(Argument, old(decoder.remaining)))
            case Some(p) => r.Ok? && p.value == ArgumentValue(r.value) && decoder.remaining == p.rest
  {
    assert Argument == Choice(ArgumentCases);
    ParseChoice(ArgumentCases, decoder.remaining);
    var tag :- decoder.Number(1);
    if tag == 0 {
      Powers();
      ParsePair(Str, U64, decoder.remaining);
      var name :- decoder.String();
      var number :- decoder.Number(8);
      return Ok(Integer(name, Signed64(number)));
    }
    if tag >= 5 {
      return Err(Malformed);
    }
    var texts :- GetTexts(decoder);
    r := Ok(if tag == 1 then FixedEnum(texts.0, texts.1) else if tag == 2 then FreeText(texts.0, texts.1)
            else if tag == 3 then ApprovedFile(texts.0, texts.1) else Url(texts.0, texts.1));
  }

  /** Reads one argument and refuses a name among `names`. */
  method GetFreshArgument(decoder: Decoder, names: set<Text>, ghost known: set<Value>) returns (r: Result<CommandValue, SchemaError>)
    requires Names(names, known)
    modifies decoder
    ensures r.Ok? ==> Parse(Argument, old(decoder.remaining)) == Some(Parsed(ArgumentValue(r.value), decoder.remaining))
    ensures r.Ok? ==> Raw(r.value.name) !in known && Names(names + {r.value.name}, known + {Raw(r.value.name)})
    ensures r.Err? && Parse(Argument, old(decoder.remaining)).Some? ==> NameOf(Parse(Argument, old(decoder.remaining)).value.value) in known
    ensures r.Err? ==> r.error == StepError(DistinctNames, Argument, old(decoder.remaining), known)
  {
    var a :- GetArgument(decoder);
    if a.name in names {
      return Err(Malformed);
    }
    r := Ok(a);
  }

  lemma {:induction false} ArgumentAccepted(total: Option<Parsed<seq<Value>>>, values: seq<CommandValue>, left: nat, before: seq<Byte>,
                                            a: CommandValue, after: seq<Byte>)
    requires Ahead(total, ArgumentValues(values), Argument, left, before) && left > 0
    requires Parse(Argument, before) == Some(Parsed(ArgumentValue(a), after))
    requires DistinctKeys(DistinctNames, ArgumentValues(values)) && Raw(a.name) !in KeySet(DistinctNames, ArgumentValues(values))
    ensures Ahead(total, ArgumentValues(values + [a]), Argument, left - 1, after)
    ensures DistinctKeys(DistinctNames, ArgumentValues(values + [a]))
    ensures KeySet(DistinctNames, ArgumentValues(values + [a])) == KeySet(DistinctNames, ArgumentValues(values)) + {Raw(a.name)}
    ensures KeyedError(DistinctNames, Argument, left, before, ArgumentValues(values)) ==
            KeyedError(DistinctNames, Argument, left - 1, after, ArgumentValues(values + [a]))
  {
    KeyAccepted(total, ArgumentValues(values), Argument, DistinctNames, left, before, ArgumentValue(a), after);
    MoreArguments(values, a);
  }

  /** Reads the next argument and moves on, or fails as the whole list does. */
  method GetNextArgument(decoder: Decoder, values: seq<CommandValue>, names: set<Text>, ghost total: Option<Parsed<seq<Value>>>, ghost fault: SchemaError, ghost left: nat)
    returns (r: Result<CommandValue, SchemaError>)
    requires left > 0 && KeyedAhead(total, fault, Argument, DistinctNames, ArgumentValues(values), names, left, decoder.remaining)
    modifies decoder
    ensures r.Ok? ==> KeyedAhead(total, fault, Argument, DistinctNames, ArgumentValues(values + [r.value]), names + {r.value.name}, left - 1, decoder.remaining)
    ensures r.Err? ==> (total.Some? ==> !Holds(DistinctNames, Many(total.value.value))) && r.error == fault
  {
    ghost var before := decoder.remaining;
    r := GetFreshArgument(decoder, names, KeySet(DistinctNames, ArgumentValues(values)));
    if r.Ok? {
      ArgumentAccepted(total, values, left, before, r.value, decoder.remaining);
    } else {
      KeyRepeated(total, ArgumentValues(values), Argument, DistinctNames, left, before);
    }
  }

  /** Reads `count` arguments, and stops at a repeated name. */
  method GetArgumentList(decoder: Decoder, count: nat) returns (r: Result<seq<CommandValue>, SchemaError>)
    modifies decoder
    ensures var total := ParseAll(Argument, count, old(decoder.remaining));
            if r.Ok? then total == Some(Parsed(ArgumentValues(r.value), decoder.remaining)) && DistinctKeys(DistinctNames, ArgumentValues(r.value))
            else total.Some? ==> !Holds(DistinctNames, Many(total.value.value))
    ensures r.Err? ==> r.error == KeyedError(DistinctNames, Argument, count, old(decoder.remaining), [])
  {
    ghost var fault := KeyedError(DistinctNames, Argument, count, decoder.remaining, []);
    ghost var total := ParseAll(Argument, count, decoder.remaining);
    KeyedAheadStart(Argument, DistinctNames, count, decoder.remaining);
    var values: seq<CommandValue> := [];
    var names: set<Text> := {};
    var left: nat := count;
    while left > 0
      invariant KeyedAhead(total, fault, Argument, DistinctNames, ArgumentValues(values), names, left, decoder.remaining)
    {
      var next :- GetNextArgument(decoder, values, names, total, fault, left);
      left := left - 1;
      names := names + {next.name};
      values := values + [next];
    }
    KeyedAheadDone(total, fault, Argument, DistinctNames, ArgumentValues(values), names, decoder.remaining);
    r := Ok(values);
  }

  method GetArguments(decoder: Decoder) returns (r: Result<seq<CommandValue>, SchemaError>)
    modifies decoder
    ensures match Parse(Arguments, old(decoder.remaining))
            case None => r == Err(ParseError(Arguments, old(decoder.remaining)))
            case Some(p) => r.Ok? && p.value == Many(ArgumentValues(r.value)) && decoder.remaining == p.rest
  {
    ParseCheck(ArgumentsFormat, DistinctNames, decoder.remaining);
    ParseRepeat(2, MAX_COMMAND_VALUES, Argument, decoder.remaining);
    ParseDistinct(2, MAX_COMMAND_VALUES, Argument, DistinctNames, decoder.remaining);
    var count :- decoder.Number(2);
    if count > MAX_COMMAND_VALUES {
      return Err(LimitExceeded);
    }
    var values :- GetArgumentList(decoder, count);
    DistinctHolds(DistinctNames, ArgumentValues(values));
    r := Ok(values);
  }

  lemma {:induction false} DecodeRequestIsUnwrap(bytes: seq<Byte>)
    ensures Decode(CommandRunRequest, bytes) == Unwrap(Magic(CommandRunRequest), RequestBody, bytes)
  {
    assert Body(CommandRunRequest) == RequestBody;
  }

  method DecodeRequest(bytes: seq<Byte>) returns (r: Result<Request, SchemaError>)
    ensures r.Ok? <==> Decode(CommandRunRequest, bytes).Some?
    ensures r.Ok? ==> Decode(CommandRunRequest, bytes) == Some(RequestValue(r.value))
    ensures r.Err? ==> r.error == UnwrapError(Magic(CommandRunRequest), RequestBody, bytes)
  {
    DecodeRequestIsUnwrap(bytes);
    var decoder :- Decoder.Open(bytes, CommandRunRequest);
    ParsePair(Str, Arguments, decoder.remaining);
    var command :- decoder.String();
    var values :- GetArguments(decoder);
    var _ :- decoder.Finish();
    r := Ok(Request(command, values));
  }

  // ----- events -----

  datatype Event =
    | Stdout(bytes: seq<Byte>)
    | Stderr(bytes: seq<Byte>)
    | Exited(exitCode: Option<i32>, signal: Option<i32>, stdoutBytes: u64, stderrBytes: u64)

  function OptionalBits(n: Option<i32>): Value {
    match n
    case None => Tagged(0, Unit)
    case Some(n) => Tagged(1, Num(Bits32(n)))
  }

  function EventValue(event: Event): Value {
    match event
    case Stdout(bytes) => Tagged(0, Raw(bytes))
    case Stderr(bytes) => Tagged(1, Raw(bytes))
    case Exited(exitCode, signal, stdoutBytes, stderrBytes) =>
      Tagged(2, Both(OptionalBits(exitCode), Both(OptionalBits(signal), Both(Num(stdoutBytes), Num(stderrBytes)))))
  }

  /** An event is determined by its encoding, and comes back from it. */
  lemma {:induction false} EventRoundTrip(a: Event, b: Event, bytes: seq<Byte>)
    requires Encode(CommandEvent, EventValue(a)) == Some(bytes)
    ensures Decode(CommandEvent, bytes) == Some(EventValue(a))
    ensures Decode(CommandEvent, bytes) == Some(EventValue(b)) ==> a == b
  {
    DecodeEncoded(CommandEvent, EventValue(a));
  }

  const Output := Filled(8, MAX_STREAM_CHUNK_BYTES)
  const ExitFields := Pair(Optional(U32), Pair(Optional(U32), Pair(U64, U64)))
  const EventCases := [Output, Output, Exit]
  const EventBody := Choice(EventCases)

  lemma {:induction false} EventIsWrapped(event: Event)
    ensures Encode(CommandEvent, EventValue(event)) == Wrap(Magic(CommandEvent), EventBody, EventValue(event))
    ensures !Fits(EventBody, EventValue(event)) ==> Wrap(Magic(CommandEvent), EventBody, EventValue(event)) == None
  {
    assert Body(CommandEvent) == EventBody;
  }

  lemma {:induction false} FitsOutput(bytes: seq<Byte>)
    ensures Fits(Output, Raw(bytes)) <==> 1 <= |bytes| <= MAX_STREAM_CHUNK_BYTES
    ensures Fits(Output, Raw(bytes)) ==> Print(Output, Raw(bytes)) == ToBytes(|bytes|, 8) + bytes
  {
    Powers();
    FitsCheck(Block(8, MAX_STREAM_CHUNK_BYTES), LengthBetween(1, MAX_STREAM_CHUNK_BYTES), Raw(bytes));
  }

  method PutOptional(encoder: Encoder, n: Option<i32>)
    modifies encoder
    ensures Fits(Optional(U32), OptionalBits(n)) && encoder.bytes == old(encoder.bytes) + Print(Optional(U32), OptionalBits(n))
    ensures |encoder.bytes| <= |old(encoder.bytes)| + 5
  {
    Powers();
    if n.None? {
      encoder.Number(0, 1);
      assert ToBytes(0, 1) + [] == ToBytes(0, 1);
    } else {
      encoder.Number(1, 1);
      encoder.Number(Bits32(n.value), 4);
      ConcatAssociates(old(encoder.bytes), ToBytes(1, 1), ToBytes(Bits32(n.value), 4));
    }
  }

  method EncodeEvent(event: Event) returns (r: Result<seq<Byte>, SchemaError>)
    ensures r.Ok? <==> Encode(CommandEvent, EventValue(event)).Some?
    ensures r.Ok? ==> Encode(CommandEvent, EventValue(event)) == Some(r.value)
    ensures r.Err? ==> r.error == if event.Exited? then Malformed else LimitExceeded
  {
    EventIsWrapped(event);
    Powers();
    var encoder := new Encoder(CommandEvent);
    ghost var total := Whole(encoder.bytes, EventBody, EventValue(event));
    LeftChoice(total, encoder.bytes, EventCases, EventValue(event).tag, EventValue(event).value);
    if event.Exited? {
      var _ :- PutExit(encoder, event, total);
    } else {
      FitsOutput(event.bytes);
      if event.bytes == [] || |event.bytes| > MAX_STREAM_CHUNK_BYTES {
        return Err(LimitExceeded);
      }
      var code := if event.Stderr? then 1 else 0;
      encoder.Number(code, 1);
      ghost var tagged := encoder.bytes;
      encoder.Number(|event.bytes|, 8);
      ConcatAssociates(tagged, ToBytes(|event.bytes|, 8), event.bytes);
      encoder.bytes := encoder.bytes + event.bytes;
    }
    r := encoder.Finish();
  }

  /** The exit of a command has either an exit code or a signal. */
  method PutExit(encoder: Encoder, event: Event, ghost total: Option<seq<Byte>>) returns (r: Result<(), SchemaError>)
    requires event.Exited? && Left(total, encoder.bytes + ToBytes(2, 1), Exit, EventValue(event).value)
    modifies encoder
    ensures r.Ok? ==> total == Some(encoder.bytes) && |encoder.bytes| <= |old(encoder.bytes)| + 27
    ensures r.Err? ==> total == None && r.error == Malformed
  {
    ghost var v := EventValue(event).value;
    LeftCheck(total, encoder.bytes + ToBytes(2, 1), ExitFields, OneOfTwo, v);
    assert Holds(OneOfTwo, v) <==> event.exitCode.Some? != event.signal.Some?;
    if event.exitCode.Some? == event.signal.Some? {
      return Err(Malformed);
    }
    Powers();
    encoder.Number(2, 1);
    LeftPair(total, encoder.bytes, Optional(U32), Pair(Optional(U32), Pair(U64, U64)), v.first, v.second);
    PutOptional(encoder, event.exitCode);
    LeftPair(total, encoder.bytes, Optional(U32), Pair(U64, U64), v.second.first, v.second.second);
    PutOptional(encoder, event.signal);
    LeftPair(total, encoder.bytes, U64, U64, Num(event.stdoutBytes), Num(event.stderrBytes));
    encoder.Number(event.stdoutBytes, 8);
    encoder.Number(event.stderrBytes, 8);
    r := Ok(());
  }

  method GetOptional(decoder: Decoder) returns (r: Result<Option<i32>, SchemaError>)
    modifies decoder
    ensures match Parse(Optional(U32), old(decoder.remaining))
            case None => r == Err(ParseError(Optional(U32), old(decoder.remaining)))
            case Some(p) => r.Ok? && p.value == OptionalBits(r.value) && decoder.remaining == p.rest
  {
    ParseChoice([Nothing, U32], decoder.remaining);
    var tag :- decoder.Number(1);
    if tag == 0 {
      return Ok(None);
    }
    if tag != 1 {
      return Err(Malformed);
    }
    Powers();
    var bits :- decoder.Number(4);
    r := Ok(Some(Signed32(bits)));
  }

  method GetExit(decoder: Decoder) returns (r: Result<Event, SchemaError>)
    modifies decoder
    ensures match Parse(Exit, old(decoder.remaining))
            case None => r == Err(ParseError(Exit, old(decoder.remaining)))
            case Some(p) => r.Ok? && r.value.Exited? && p.value == EventValue(r.value).value && decoder.remaining == p.rest
  {
    Powers();
    ParseCheck(ExitFields, OneOfTwo, decoder.remaining);
    ParsePair(Optional(U32), Pair(Optional(U32), Pair(U64, U64)), decoder.remaining);
    var exitCode :- GetOptional(decoder);
    ParsePair(Optional(U32), Pair(U64, U64), decoder.remaining);
    var signal :- GetOptional(decoder);
    if exitCode.Some? == signal.Some? {
      return Err(Malformed);
    }
    ParsePair(U64, U64, decoder.remaining);
    var stdoutBytes :- decoder.Number(8);
    var stderrBytes :- decoder.Number(8);
    r := Ok(Exited(exitCode, signal, stdoutBytes, stderrBytes));
  }

  method GetOutput(decoder: Decoder) returns (r: Result<seq<Byte>, SchemaError>)
    modifies decoder
    ensures match Parse(Output, old(decoder.remaining))
            case None => r == Err(ParseError(Output, old(decoder.remaining)))
            case Some(p) => r.Ok? && p.value == Raw(r.value) && decoder.remaining == p.rest
  {
    ParseCheck(Block(8, MAX_STREAM_CHUNK_BYTES), LengthBetween(1, MAX_STREAM_CHUNK_BYTES), decoder.remaining);
    var bytes :- decoder.Counted(8, MAX_STREAM_CHUNK_BYTES);
    if bytes == [] {
      return Err(LimitExceeded);
    }
    r := Ok(bytes);
  }

  lemma {:induction false} DecodeEventIsUnwrap(bytes: seq<Byte>)
    ensures Decode(CommandEvent, bytes) == Unwrap(Magic(CommandEvent), EventBody, bytes)
  {
    assert Body(CommandEvent) == EventBody;
  }

  method DecodeEvent(bytes: seq<Byte>) returns (r: Result<Event, SchemaError>)
    ensures r.Ok? <==> Decode(CommandEvent, bytes).Some?
    ensures r.Ok? ==> Decode(CommandEvent, bytes) == Some(EventValue(r.value))
    ensures r.Err? ==> r.error == UnwrapError(Magic(CommandEvent), EventBody, bytes)
  {
    DecodeEventIsUnwrap(bytes);
    var decoder :- Decoder.Open(bytes, CommandEvent);
    ParseChoice(EventCases, decoder.remaining);
    var tag :- decoder.Number(1);
    var event: Event;
    if tag == 0 || tag == 1 {
      var output :- GetOutput(decoder);
      event := if tag == 0 then Stdout(output) else Stderr(output);
    } else if tag == 2 {
      event :- GetExit(decoder);
    } else {
      return Err(Malformed);
    }
    var _ :- decoder.Finish();
    r := Ok(event);
  }
}
