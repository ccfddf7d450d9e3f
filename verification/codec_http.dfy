/** HTTP requests and responses. */
module HttpCodec {
  import opened Basics
  import opened Formats
  import opened Messages
  import opened Streams

  datatype Method = Get | Head | Post | Put | Patch | Delete

  /** What a request and a response have in common: an address, two optional headers and a body. */
  datatype Content = Content(url: Text, first: Option<Text>, second: Option<Text>, body: seq<Byte>)

  /** A request accepts the `first` header and describes its body in the `second`. */
  datatype Request = Request(verb: Method, content: Content)

  /** A response has a status, a content type in the `first` header and an entity tag in the `second`. */
  datatype Response = Response(status: nat, content: Content)

  function MethodCode(m: Method): nat {
    match m
    case Get => 0
    case Head => 1
    case Post => 2
    case Put => 3
    case Patch => 4
    case Delete => 5
  }

  function MethodFrom(code: nat): (m: Method)
    requires code < 6
    ensures MethodCode(m) == code
  {
    match code
    case 0 => Get
    case 1 => Head
    case 2 => Post
    case 3 => Put
    case 4 => Patch
    case _ => Delete
  }

  function ContentValue(c: Content): Value {
    Both(Raw(c.url), Both(OptionalText(c.first), Both(OptionalText(c.second), Raw(c.body))))
  }

  function RequestValue(request: Request): Value {
    Both(Num(MethodCode(request.verb)), ContentValue(request.content))
  }

  function ResponseValue(response: Response): Value {
    Both(Num(response.status), ContentValue(response.content))
  }

  const InlineBody := Block(8, MAX_HTTP_INLINE_BODY_BYTES)
  const ContentFormat := Pair(Str, Pair(Optional(Str), Pair(Optional(Str), InlineBody)))
  const RequestBody := Pair(Code(6), ContentFormat)
  const ResponseBody := Pair(Status, ContentFormat)

  lemma {:induction false} ContentInjective(a: Content, b: Content)
    ensures ContentValue(a) == ContentValue(b) ==> a == b
  {
  }

  lemma {:induction false} RequestInjective(a: Request, b: Request)
    ensures RequestValue(a) == RequestValue(b) ==> a == b
  {
    ContentInjective(a.content, b.content);
    assert MethodCode(a.verb) == MethodCode(b.verb) ==> a.verb == b.verb;
  }

  lemma {:induction false} ResponseInjective(a: Response, b: Response)
    ensures ResponseValue(a) == ResponseValue(b) ==> a == b
  {
    ContentInjective(a.content, b.content);
  }

  /** A request is determined by its encoding, comes back from it, and fits the outer broker. */
  lemma {:induction false} RequestRoundTrip(a: Request, b: Request, bytes: seq<Byte>)
    requires Encode(HttpRequest, RequestValue(a)) == Some(bytes)
    ensures Decode(HttpRequest, bytes) == Some(RequestValue(a)) && |bytes| <= BROKER_PAYLOAD_BYTES
    ensures Decode(HttpRequest, bytes) == Some(RequestValue(b)) ==> a == b
  {
    DecodeEncoded(HttpRequest, RequestValue(a));
    EncodedHttpFitsBroker(HttpRequest, RequestValue(a));
    RequestInjective(a, b);
  }

  lemma {:induction false} ResponseRoundTrip(a: Response, b: Response, bytes: seq<Byte>)
    requires Encode(HttpResponse, ResponseValue(a)) == Some(bytes)
    ensures Decode(HttpResponse, bytes) == Some(ResponseValue(a)) && |bytes| <= BROKER_PAYLOAD_BYTES
    ensures Decode(HttpResponse, bytes) == Some(ResponseValue(b)) ==> a == b
  {
    DecodeEncoded(HttpResponse, ResponseValue(a));
    EncodedHttpFitsBroker(HttpResponse, ResponseValue(a));
    ResponseInjective(a, b);
  }

  // ----- encoding -----

  method PutContent(encoder: Encoder, c: Content, ghost total: Option<seq<Byte>>) returns (r: Result<(), SchemaError>)
    requires Left(total, encoder.bytes, ContentFormat, ContentValue(c)) && |c.body| <= MAX_HTTP_INLINE_BODY_BYTES
    modifies encoder
    ensures r.Ok? ==> total == Some(encoder.bytes)
    ensures r.Err? ==> total == None && r.error == LimitExceeded
  {
    ghost var v := ContentValue(c);
    LeftPair(total, encoder.bytes, Str, Pair(Optional(Str), Pair(Optional(Str), InlineBody)), v.first, v.second);
    var _ :- encoder.String(c.url);
    LeftPair(total, encoder.bytes, Optional(Str), Pair(Optional(Str), InlineBody), v.second.first, v.second.second);
    var _ :- encoder.OptionalString(c.first);
    LeftPair(total, encoder.bytes, Optional(Str), InlineBody, OptionalText(c.second), Raw(c.body));
    var _ :- encoder.OptionalString(c.second);
    Powers();
    ghost var done := encoder.bytes;
    encoder.Number(|c.body|, 8);
    ConcatAssociates(done, ToBytes(|c.body|, 8), c.body);
    encoder.bytes := encoder.bytes + c.body;
    r := Ok(());
  }

  lemma {:induction false} FitsContent(c: Content)
    ensures Fits(ContentFormat, ContentValue(c)) ==> |c.body| <= MAX_HTTP_INLINE_BODY_BYTES
  {
    FitsPair(Str, Pair(Optional(Str), Pair(Optional(Str), InlineBody)), Raw(c.url), ContentValue(c).second);
    FitsPair(Optional(Str), Pair(Optional(Str), InlineBody), OptionalText(c.first), ContentValue(c).second.second);
    FitsPair(Optional(Str), InlineBody, OptionalText(c.second), Raw(c.body));
  }

  lemma {:induction false} RequestIsWrapped(request: Request)
    ensures Encode(HttpRequest, RequestValue(request)) == Wrap(Magic(HttpRequest), RequestBody, RequestValue(request))
    ensures !Fits(RequestBody, RequestValue(request)) ==> Wrap(Magic(HttpRequest), RequestBody, RequestValue(request)) == None
  {
    assert Body(HttpRequest) == RequestBody;
  }

  method EncodeRequest(request: Request) returns (r: Result<seq<Byte>, SchemaError>)
    ensures r.Ok? <==> Encode(HttpRequest, RequestValue(request)).Some?
    ensures r.Ok? ==> Encode(HttpRequest, RequestValue(request)) == Some(r.value)
    ensures r.Err? ==> r.error == LimitExceeded
  {
    RequestIsWrapped(request);
    FitsContent(request.content);
    FitsPair(Code(6), ContentFormat, Num(MethodCode(request.verb)), ContentValue(request.content));
    if |request.content.body| > MAX_HTTP_INLINE_BODY_BYTES {
      return Err(LimitExceeded);
    }
    var encoder := new Encoder(HttpRequest);
    ghost var total := Whole(encoder.bytes, RequestBody, RequestValue(request));
    Powers();
    FitsRange(1, 0, 5, MethodCode(request.verb));
    LeftPair(total, encoder.bytes, Code(6), ContentFormat, Num(MethodCode(request.verb)), ContentValue(request.content));
    encoder.Number(MethodCode(request.verb), 1);
    var _ :- PutContent(encoder, request.content, total);
    r := encoder.Finish();
  }

  lemma {:induction false} ResponseIsWrapped(response: Response)
    ensures Encode(HttpResponse, ResponseValue(response)) == Wrap(Magic(HttpResponse), ResponseBody, ResponseValue(response))
    ensures !Fits(ResponseBody, ResponseValue(response)) ==> Wrap(Magic(HttpResponse), ResponseBody, ResponseValue(response)) == None
  {
    assert Body(HttpResponse) == ResponseBody;
  }

  method EncodeResponse(response: Response) returns (r: Result<seq<Byte>, SchemaError>)
    requires response.status < 0x1_0000
    ensures r.Ok? <==> Encode(HttpResponse, ResponseValue(response)).Some?
    ensures r.Ok? ==> Encode(HttpResponse, ResponseValue(response)) == Some(r.value)
    ensures r.Err? ==> r.error == LimitExceeded
  {
    ResponseIsWrapped(response);
    FitsContent(response.content);
    FitsPair(Status, ContentFormat, Num(response.status), ContentValue(response.content));
    FitsRange(2, 100, 599, response.status);
    if !(100 <= response.status <= 599) || |response.content.body| > MAX_HTTP_INLINE_BODY_BYTES {
      return Err(LimitExceeded);
    }
    var encoder := new Encoder(HttpResponse);
    ghost var total := Whole(encoder.bytes, ResponseBody, ResponseValue(response));
    Powers();
    LeftPair(total, encoder.bytes, Status, ContentFormat, Num(response.status), ContentValue(response.content));
    encoder.Number(response.status, 2);
    var _ :- PutContent(encoder, response.content, total);
    r := encoder.Finish();
  }

  // ----- decoding -----

  method GetContent(decoder: Decoder) returns (r: Result<Content, SchemaError>)
    modifies decoder
    ensures match Parse(ContentFormat, old(decoder.remaining))
            case None => r == Err(ParseError(ContentFormat, old(decoder.remaining)))
            case Some(p) => r.Ok? && p.value == ContentValue(r.value) && decoder.remaining == p.rest
  {
    ParsePair(Str, Pair(Optional(Str), Pair(Optional(Str), InlineBody)), decoder.remaining);
    var url :- decoder.String();
    ParsePair(Optional(Str), Pair(Optional(Str), InlineBody), decoder.remaining);
    var first :- decoder.OptionalString();
    ParsePair(Optional(Str), InlineBody, decoder.remaining);
    var second :- decoder.OptionalString();
    var body :- decoder.Counted(8, MAX_HTTP_INLINE_BODY_BYTES);
    r := Ok(Content(url, first, second, body));
  }

  lemma {:induction false} DecodeIsUnwrap(bytes: seq<Byte>)
    ensures Decode(HttpRequest, bytes) == Unwrap(Magic(HttpRequest), RequestBody, bytes)
    ensures Decode(HttpResponse, bytes) == Unwrap(Magic(HttpResponse), ResponseBody, bytes)
  {
    assert Body(HttpRequest) == RequestBody && Body(HttpResponse) == ResponseBody;
  }

  method DecodeRequest(bytes: seq<Byte>) returns (r: Result<Request, SchemaError>)
    ensures r.Ok? <==> Decode(HttpRequest, bytes).Some?
    ensures r.Ok? ==> Decode(HttpRequest, bytes) == Some(RequestValue(r.value))
    ensures r.Err? ==> r.error == UnwrapError(Magic(HttpRequest), RequestBody, bytes)
  {
    DecodeIsUnwrap(bytes);
    var decoder :- Decoder.Open(bytes, HttpRequest);
    ParseCheck(U8, Between(0, 5), decoder.remaining);
    ParsePair(Code(6), ContentFormat, decoder.remaining);
    var code :- decoder.Number(1);
    if code >= 6 {
      return Err(Malformed);
    }
    var content :- GetContent(decoder);
    var _ :- decoder.Finish();
    r := Ok(Request(MethodFrom(code), content));
  }

  method DecodeResponse(bytes: seq<Byte>) returns (r: Result<Response, SchemaError>)
    ensures r.Ok? <==> Decode(HttpResponse, bytes).Some?
    ensures r.Ok? ==> Decode(HttpResponse, bytes) == Some(ResponseValue(r.value))
    ensures r.Err? ==> r.error == UnwrapError(Magic(HttpResponse), ResponseBody, bytes)
  {
    DecodeIsUnwrap(bytes);
    var decoder :- Decoder.Open(bytes, HttpResponse);
    ParseCheck(U16, Between(100, 599), decoder.remaining);
    ParsePair(Status, ContentFormat, decoder.remaining);
    var status :- decoder.Number(2);
    if !(100 <= status <= 599) {
      return Err(Malformed);
    }
    var content :- GetContent(decoder);
    var _ :- decoder.Finish();
    r := Ok(Response(status, content));
  }
}
