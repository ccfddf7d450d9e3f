/** The events of an HTTP stream and of a file stream. */
module StreamEventCodec {
  import opened Basics
  import opened Formats
  import opened Messages
  import opened Streams

  const Chunk := Check(Block(8, MAX_STREAM_CHUNK_BYTES), LengthBetween(1, MAX_STREAM_CHUNK_BYTES))

  lemma {:induction false} FitsChunk(bytes: seq<Byte>)
    ensures Fits(Chunk, Raw(bytes)) <==> 1 <= |bytes| <= MAX_STREAM_CHUNK_BYTES
    ensures Fits(Chunk, Raw(bytes)) ==> Print(Chunk, Raw(bytes)) == ToBytes(|bytes|, 8) + bytes
  {
    Powers();
    FitsCheck(Block(8, MAX_STREAM_CHUNK_BYTES), LengthBetween(1, MAX_STREAM_CHUNK_BYTES), Raw(bytes));
  }

  /** A chunk that the caller has found to be neither empty nor too long. */
  method PutChunk(encoder: Encoder, bytes: seq<Byte>, ghost total: Option<seq<Byte>>)
    requires Left(total, encoder.bytes, Chunk, Raw(bytes)) && 1 <= |bytes| <= MAX_STREAM_CHUNK_BYTES
    modifies encoder
    ensures total == Some(encoder.bytes)
  {
    FitsChunk(bytes);
    Powers();
    encoder.Number(|bytes|, 8);
    ConcatAssociates(old(encoder.bytes), ToBytes(|bytes|, 8), bytes);
    encoder.bytes := encoder.bytes + bytes;
  }

  method GetChunk(decoder: Decoder) returns (r: Result<seq<Byte>, SchemaError>)
    modifies decoder
    ensures match Parse(Chunk, old(decoder.remaining))
            case None => r == Err(ParseError(Chunk, old(decoder.remaining)))
            case Some(p) => r.Ok? && p.value == Raw(r.value) && decoder.remaining == p.rest
  {
    ParseCheck(Block(8, MAX_STREAM_CHUNK_BYTES), LengthBetween(1, MAX_STREAM_CHUNK_BYTES), decoder.remaining);
    var bytes :- decoder.Counted(8, MAX_STREAM_CHUNK_BYTES);
    if bytes == [] {
      return Err(LimitExceeded);
    }
    r := Ok(bytes);
  }

  // ----- HTTP -----

  datatype HttpEvent =
    | HttpMetadata(status: nat, finalUrl: Text, contentType: Option<Text>, etag: Option<Text>)
    | HttpChunk(bytes: seq<Byte>)
    | HttpComplete(totalBytes: u64)

  function HttpEventValue(event: HttpEvent): Value {
    match event
    case HttpMetadata(status, url, contentType, etag) =>
      Tagged(0, Both(Num(status), Both(Raw(url), Both(OptionalText(contentType), OptionalText(etag)))))
    case HttpChunk(bytes) => Tagged(1, Raw(bytes))
    case HttpComplete(totalBytes) => Tagged(2, Num(totalBytes))
  }

  const Headers := Pair(Optional(Str), Optional(Str))
  const Metadata := Pair(Status, Pair(Str, Headers))
  const HttpCases := [Metadata, Chunk, U64]
  const HttpBody := Choice(HttpCases)

  lemma {:induction false} HttpEventInjective(a: HttpEvent, b: HttpEvent)
    ensures HttpEventValue(a) == HttpEventValue(b) ==> a == b
  {
  }

  /** An event is determined by its encoding, and comes back from it. */
  lemma {:induction false} HttpEventRoundTrip(a: HttpEvent, b: HttpEvent, bytes: seq<Byte>)
    requires Encode(HttpStreamEvent, HttpEventValue(a)) == Some(bytes)
    ensures Decode(HttpStreamEvent, bytes) == Some(HttpEventValue(a))
    ensures Decode(HttpStreamEvent, bytes) == Some(HttpEventValue(b)) ==> a == b
  {
    DecodeEncoded(HttpStreamEvent, HttpEventValue(a));
    HttpEventInjective(a, b);
  }

  lemma {:induction false} HttpEventIsWrapped(event: HttpEvent)
    ensures Encode(HttpStreamEvent, HttpEventValue(event)) == Wrap(Magic(HttpStreamEvent), HttpBody, HttpEventValue(event))
    ensures !Fits(HttpBody, HttpEventValue(event)) ==> Wrap(Magic(HttpStreamEvent), HttpBody, HttpEventValue(event)) == None
  {
    assert Body(HttpStreamEvent) == HttpBody;
  }

  method PutMetadata(encoder: Encoder, event: HttpEvent, ghost total: Option<seq<Byte>>) returns (r: Result<(), SchemaError>)
    requires event.HttpMetadata? && 100 <= event.status <= 599
    requires Left(total, encoder.bytes, Metadata, HttpEventValue(event).value)
    modifies encoder
    ensures r.Ok? ==> total == Some(encoder.bytes)
    ensures r.Err? ==> total == None && r.error == LimitExceeded
  {
    Powers();
    ghost var v := HttpEventValue(event).value;
    FitsRange(2, 100, 599, event.status);
    LeftPair(total, encoder.bytes, Status, Pair(Str, Headers), v.first, v.second);
    encoder.Number(event.status, 2);
    LeftPair(total, encoder.bytes, Str, Headers, v.second.first, v.second.second);
    var _ :- encoder.String(event.finalUrl);
    LeftPair(total, encoder.bytes, Optional(Str), Optional(Str), OptionalText(event.contentType), OptionalText(event.etag));
    var _ :- encoder.OptionalString(event.contentType);
    var _ :- encoder.OptionalString(event.etag);
    r := Ok(());
  }

  lemma {:induction false} FitsHttpEvent(event: HttpEvent)
    ensures Fits(HttpBody, HttpEventValue(event)) ==> Fits(HttpCases[HttpEventValue(event).tag], HttpEventValue(event).value)
    ensures event.HttpMetadata? && Fits(Metadata, HttpEventValue(event).value) ==> 100 <= event.status <= 599
  {
    if event.HttpMetadata? {
      var v := HttpEventValue(event).value;
      FitsPair(Status, Pair(Str, Headers), v.first, v.second);
      FitsRange(2, 100, 599, event.status);
    }
  }

  /** A status out of range is malformed; every other failure is a limit. */
  method EncodeHttpEvent(event: HttpEvent) returns (r: Result<seq<Byte>, SchemaError>)
    ensures r.Ok? <==> Encode(HttpStreamEvent, HttpEventValue(event)).Some?
    ensures r.Ok? ==> Encode(HttpStreamEvent, HttpEventValue(event)) == Some(r.value)
    ensures r.Err? ==> r.error == if event.HttpMetadata? && !(100 <= event.status <= 599) then Malformed else LimitExceeded
  {
    HttpEventIsWrapped(event);
    FitsHttpEvent(event);
    Powers();
    var encoder := new Encoder(HttpStreamEvent);
    ghost var v := HttpEventValue(event);
    ghost var total := Whole(encoder.bytes, HttpBody, v);
    LeftChoice(total, encoder.bytes, HttpCases, v.tag, v.value);
    match event {
      case HttpMetadata(status, _, _, _) =>
        if !(100 <= status <= 599) {
          return Err(Malformed);
        }
        encoder.Number(0, 1);
        var _ :- PutMetadata(encoder, event, total);
      case HttpChunk(bytes) =>
        FitsChunk(bytes);
        if bytes == [] || |bytes| > MAX_STREAM_CHUNK_BYTES {
          return Err(LimitExceeded);
        }
        encoder.Number(1, 1);
        PutChunk(encoder, bytes, total);
      case HttpComplete(totalBytes) =>
        encoder.Number(2, 1);
        encoder.Number(totalBytes, 8);
    }
    r := encoder.Finish();
  }

  method GetMetadata(decoder: Decoder) returns (r: Result<HttpEvent, SchemaError>)
    modifies decoder
    ensures match Parse(Metadata, old(decoder.remaining))
            case None => r == Err(ParseError(Metadata, old(decoder.remaining)))
            case Some(p) => r.Ok? && r.value.HttpMetadata? && p.value == HttpEventValue(r.value).value && decoder.remaining == p.rest
  {
    ParsePair(Status, Pair(Str, Headers), decoder.remaining);
    ParseCheck(U16, Between(100, 599), decoder.remaining);
    var status :- decoder.Number(2);
    if !(100 <= status <= 599) {
      return Err(Malformed);
    }
    ParsePair(Str, Headers, decoder.remaining);
    var url :- decoder.String();
    ParsePair(Optional(Str), Optional(Str), decoder.remaining);
    var contentType :- decoder.OptionalString();
    var etag :- decoder.OptionalString();
    r := Ok(HttpMetadata(status, url, contentType, etag));
  }

  lemma {:induction false} DecodeHttpIsUnwrap(bytes: seq<Byte>)
    ensures Decode(HttpStreamEvent, bytes) == Unwrap(Magic(HttpStreamEvent), HttpBody, bytes)
  {
    assert Body(HttpStreamEvent) == HttpBody;
  }

  method DecodeHttpEvent(bytes: seq<Byte>) returns (r: Result<HttpEvent, SchemaError>)
    ensures r.Ok? <==> Decode(HttpStreamEvent, bytes).Some?
    ensures r.Ok? ==> Decode(HttpStreamEvent, bytes) == Some(HttpEventValue(r.value))
    ensures r.Err? ==> r.error == UnwrapError(Magic(HttpStreamEvent), HttpBody, bytes)
  {
    DecodeHttpIsUnwrap(bytes);
    var decoder :- Decoder.Open(bytes, HttpStreamEvent);
    ParseChoice(HttpCases, decoder.remaining);
    var tag :- decoder.Number(1);
    var event: HttpEvent;
    if tag == 0 {
      event :- GetMetadata(decoder);
    } else if tag == 1 {
      var chunk :- GetChunk(decoder);
      event := HttpChunk(chunk);
    } else if tag == 2 {
      Powers();
      var totalBytes :- decoder.Number(8);
      event := HttpComplete(totalBytes);
    } else {
      return Err(Malformed);
    }
    var _ :- decoder.Finish();
    r := Ok(event);
  }

  // ----- files -----

  datatype FileEvent =
    | FileMetadata(offset: u64, totalSize: u64)
    | FileChunk(offset: u64, bytes: seq<Byte>)
    | FileComplete(endOffset: u64, totalBytes: u64, eof: bool)

  function FileEventValue(event: FileEvent): Value {
    match event
    case FileMetadata(offset, totalSize) => Tagged(0, Both(Num(offset), Num(totalSize)))
    case FileChunk(offset, bytes) => Tagged(1, Both(Num(offset), Raw(bytes)))
    case FileComplete(endOffset, totalBytes, eof) => Tagged(2, Both(Num(endOffset), Both(Num(totalBytes), Num(if eof then 1 else 0))))
  }

  const FileCases := [Pair(U64, U64), Pair(U64, Chunk), Pair(U64, Pair(U64, Flag))]
  const FileBody := Choice(FileCases)

  lemma {:induction false} FileEventInjective(a: FileEvent, b: FileEvent)
    ensures FileEventValue(a) == FileEventValue(b) ==> a == b
  {
  }

  /** An event is determined by its encoding, and comes back from it. */
  lemma {:induction false} FileEventRoundTrip(a: FileEvent, b: FileEvent, bytes: seq<Byte>)
    requires Encode(FilesystemStreamEvent, FileEventValue(a)) == Some(bytes)
    ensures Decode(FilesystemStreamEvent, bytes) == Some(FileEventValue(a))
    ensures Decode(FilesystemStreamEvent, bytes) == Some(FileEventValue(b)) ==> a == b
  {
    DecodeEncoded(FilesystemStreamEvent, FileEventValue(a));
    FileEventInjective(a, b);
  }

  lemma {:induction false} FileEventIsWrapped(event: FileEvent)
    ensures Encode(FilesystemStreamEvent, FileEventValue(event)) == Wrap(Magic(FilesystemStreamEvent), FileBody, FileEventValue(event))
    ensures !Fits(FileBody, FileEventValue(event)) ==> Wrap(Magic(FilesystemStreamEvent), FileBody, FileEventValue(event)) == None
  {
    assert Body(FilesystemStreamEvent) == FileBody;
  }

  lemma {:induction false} FitsFileChunk(event: FileEvent)
    requires event.FileChunk?
    ensures Fits(FileBody, FileEventValue(event)) ==> 1 <= |event.bytes| <= MAX_STREAM_CHUNK_BYTES
  {
    FitsPair(U64, Chunk, Num(event.offset), Raw(event.bytes));
    FitsChunk(event.bytes);
  }

  /** The only failure is a chunk that is empty or too long. */
  method EncodeFileEvent(event: FileEvent) returns (r: Result<seq<Byte>, SchemaError>)
    ensures r.Ok? <==> Encode(FilesystemStreamEvent, FileEventValue(event)).Some?
    ensures r.Ok? ==> Encode(FilesystemStreamEvent, FileEventValue(event)) == Some(r.value)
    ensures r.Err? ==> r.error == LimitExceeded
  {
    FileEventIsWrapped(event);
    Powers();
    var encoder := new Encoder(FilesystemStreamEvent);
    ghost var v := FileEventValue(event);
    ghost var total := Whole(encoder.bytes, FileBody, v);
    LeftChoice(total, encoder.bytes, FileCases, v.tag, v.value);
    match event {
      case FileMetadata(offset, totalSize) =>
        encoder.Number(0, 1);
        LeftPair(total, encoder.bytes, U64, U64, Num(offset), Num(totalSize));
        encoder.Number(offset, 8);
        encoder.Number(totalSize, 8);
      case FileChunk(offset, bytes) =>
        FitsFileChunk(event);
        if bytes == [] || |bytes| > MAX_STREAM_CHUNK_BYTES {
          return Err(LimitExceeded);
        }
        encoder.Number(1, 1);
        LeftPair(total, encoder.bytes, U64, Chunk, Num(offset), Raw(bytes));
        encoder.Number(offset, 8);
        PutChunk(encoder, bytes, total);
      case FileComplete(endOffset, totalBytes, eof) =>
        encoder.Number(2, 1);
        PutComplete(encoder, event, total);
    }
    r := encoder.Finish();
  }

  method PutComplete(encoder: Encoder, event: FileEvent, ghost total: Option<seq<Byte>>)
    requires event.FileComplete? && Left(total, encoder.bytes, Pair(U64, Pair(U64, Flag)), FileEventValue(event).value)
    modifies encoder
    ensures total == Some(encoder.bytes)
  {
    Powers();
    var code := if event.eof then 1 else 0;
    FitsRange(1, 0, 1, code);
    LeftPair(total, encoder.bytes, U64, Pair(U64, Flag), Num(event.endOffset), Both(Num(event.totalBytes), Num(code)));
    encoder.Number(event.endOffset, 8);
    LeftPair(total, encoder.bytes, U64, Flag, Num(event.totalBytes), Num(code));
    encoder.Number(event.totalBytes, 8);
    encoder.Number(code, 1);
  }

  method GetFileComplete(decoder: Decoder) returns (r: Result<FileEvent, SchemaError>)
    modifies decoder
    ensures match Parse(Pair(U64, Pair(U64, Flag)), old(decoder.remaining))
            case None => r == Err(ParseError(Pair(U64, Pair(U64, Flag)), old(decoder.remaining)))
            case Some(p) => r.Ok? && r.value.FileComplete? && p.value == FileEventValue(r.value).value && decoder.remaining == p.rest
  {
    Powers();
    ParsePair(U64, Pair(U64, Flag), decoder.remaining);
    var endOffset :- decoder.Number(8);
    ParsePair(U64, Flag, decoder.remaining);
    var totalBytes :- decoder.Number(8);
    ParseCheck(U8, Between(0, 1), decoder.remaining);
    var code :- decoder.Number(1);
    if code > 1 {
      return Err(Malformed);
    }
    r := Ok(FileComplete(endOffset, totalBytes, code == 1));
  }

  lemma {:induction false} DecodeFileIsUnwrap(bytes: seq<Byte>)
    ensures Decode(FilesystemStreamEvent, bytes) == Unwrap(Magic(FilesystemStreamEvent), FileBody, bytes)
  {
    assert Body(FilesystemStreamEvent) == FileBody;
  }

  method DecodeFileEvent(bytes: seq<Byte>) returns (r: Result<FileEvent, SchemaError>)
    ensures r.Ok? <==> Decode(FilesystemStreamEvent, bytes).Some?
    ensures r.Ok? ==> Decode(FilesystemStreamEvent, bytes) == Some(FileEventValue(r.value))
    ensures r.Err? ==> r.error == UnwrapError(Magic(FilesystemStreamEvent), FileBody, bytes)
  {
    DecodeFileIsUnwrap(bytes);
    Powers();
    var decoder :- Decoder.Open(bytes, FilesystemStreamEvent);
    ParseChoice(FileCases, decoder.remaining);
    var tag :- decoder.Number(1);
    var event: FileEvent;
    if tag == 0 {
      ParsePair(U64, U64, decoder.remaining);
      var offset :- decoder.Number(8);
      var totalSize :- decoder.Number(8);
      event := FileMetadata(offset, totalSize);
    } else if tag == 1 {
      ParsePair(U64, Chunk, decoder.remaining);
      var offset :- decoder.Number(8);
      var chunk :- GetChunk(decoder);
      event := FileChunk(offset, chunk);
    } else if tag == 2 {
      event :- GetFileComplete(decoder);
    } else {
      return Err(Malformed);
    }
    var _ :- decoder.Finish();
    r := Ok(event);
  }
}
