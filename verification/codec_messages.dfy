/** The messages exchanged between plugins and brokers: a magic and a body format for each kind. */
module Messages {
  import opened Basics
  import opened Formats

  datatype Kind =
    | DbusCall | DbusReply | DbusSubscription | DbusSubscriptionOpened | DbusPropertiesChanged
    | FilesystemReadFile | FilesystemFileChunk | FilesystemReadStream | FilesystemStreamOpened | FilesystemStreamEvent
    | FilesystemListDirectory | FilesystemDirectoryEntries | FilesystemWriteFile | FilesystemPath | FilesystemRename
    | FilesystemMutationResult | FilesystemWriteStream | FilesystemWriteStreamOpened | FilesystemWriteStreamChunk
    | FilesystemWriteStreamCommit | UriOpenRequest | NotificationSend | NotificationRemove
    | LocalConnect | LocalConnectionOpened | LocalSendFrame | LocalFrameEvent
    | SecretReadRequest | SecretValue | ClipboardReadRequest | ClipboardWriteRequest | ClipboardValue
    | ContextReadRequest | ContextSnapshot | ContextSubscriptionOpened | AppearancePublish
    | HttpRequest | HttpResponse | HttpStreamOpened | HttpStreamEvent
    | CommandRunRequest | CommandOpened | CommandEvent

  const MAX_PAYLOAD_BYTES := 64 * 1024
  const MAX_STRING_BYTES := 4096
  const MAX_ARGUMENTS := 32
  const MAX_PROPERTIES := 64
  const MAX_FILE_CHUNK_BYTES := 48 * 1024
  const MAX_FILE_WRITE_BYTES := 48 * 1024
  const MAX_STREAM_CHUNK_BYTES := 12 * 1024
  const MAX_FILE_STREAM_BYTES := 64 * 1024 * 1024
  const MAX_DIRECTORY_ENTRIES := 256
  const MAX_HTTP_INLINE_BODY_BYTES := 47 * 1024
  const MAX_COMMAND_VALUES := 32
  const MAX_URI_BYTES := 4096
  const MAX_NOTIFICATION_TITLE_BYTES := 256
  const MAX_NOTIFICATION_BODY_BYTES := 4096
  const MAX_SECRET_BYTES := 48 * 1024
  const MAX_SECRET_CONTENT_TYPE_BYTES := 128
  const MAX_CLIPBOARD_BYTES := 48 * 1024
  const MAX_CLIPBOARD_MIME_BYTES := 128
  const MAX_CONTEXT_FACTS := 32
  const MAX_CONTEXT_VALUE_BYTES := 256
  const BROKER_PAYLOAD_BYTES := 60 * 1024

  // ----- fields -----

  const U8 := Number(1)
  const U16 := Number(2)
  const U32 := Number(4)
  const U64 := Number(8)
  const Str := Check(Block(2, MAX_STRING_BYTES), IsUtf8)
  const Identifier := Check(U64, Between(1, U64_LIMIT - 1))
  const Flag := Check(U8, Between(0, 1))
  const Status := Check(U16, Between(100, 599))

  function StrUpTo(maximum: nat): Format {
    Check(Str, LengthBetween(0, maximum))
  }

  /** An enumeration of `count` codes from zero. */
  function Code(count: nat): Format
    requires count > 0
  {
    Check(U8, Between(0, count - 1))
  }

  function Optional(f: Format): Format {
    Choice([Nothing, f])
  }

  function Filled(prefix: nat, maximum: nat): Format {
    Check(Block(prefix, maximum), LengthBetween(1, maximum))
  }

  const Colour := Pair(U8, Pair(U8, U8))
  const FactValue := Choice([StrUpTo(MAX_CONTEXT_VALUE_BYTES), Flag])
  const Facts := Check(Repeat(2, MAX_CONTEXT_FACTS, Pair(Str, FactValue)), DistinctFirsts)
  const Argument := Choice([Pair(Str, U64), Pair(Str, Str), Pair(Str, Str), Pair(Str, Str), Pair(Str, Str)])
  const Arguments := Check(Repeat(2, MAX_COMMAND_VALUES, Argument), DistinctNames)
  const Exit := Check(Pair(Optional(U32), Pair(Optional(U32), Pair(U64, U64))), OneOfTwo)
  const PropertyValue := Choice([U8, Flag, U16, U16, U32, U32, U64, U64, Check(U64, FiniteFloat), Str])
  const Property := Pair(Str, PropertyValue)
  const Entry := Pair(Str, Pair(Code(2), U64))

  function Body(kind: Kind): Format {
    match kind
    case DbusCall => Pair(Code(2), Pair(Str, Pair(Str, Pair(Str, Pair(Str, Pair(Code(3), Repeat(2, MAX_ARGUMENTS, Str)))))))
    case DbusReply => Choice([Nothing, Str, U64])
    case DbusSubscription => Pair(Code(2), Pair(Str, Pair(Str, Pair(Str, Pair(Str, Pair(Str, Optional(Str)))))))
    case DbusSubscriptionOpened => Identifier
    case DbusPropertiesChanged => Pair(Str, Pair(Repeat(2, MAX_PROPERTIES, Property), Repeat(2, MAX_PROPERTIES, Str)))
    case FilesystemReadFile => Pair(Str, Pair(Str, Pair(U64, Check(U64, Between(1, MAX_FILE_CHUNK_BYTES)))))
    case FilesystemFileChunk => Pair(U64, Pair(U64, Pair(Flag, Block(8, MAX_FILE_CHUNK_BYTES))))
    case FilesystemReadStream => Pair(Str, Pair(Str, Pair(U64, Check(U64, Between(1, MAX_FILE_STREAM_BYTES)))))
    case FilesystemStreamOpened => Identifier
    case FilesystemStreamEvent => Choice([Pair(U64, U64), Pair(U64, Filled(8, MAX_STREAM_CHUNK_BYTES)), Pair(U64, Pair(U64, Flag))])
    case FilesystemListDirectory => Pair(Str, Pair(Str, Check(U16, Between(1, MAX_DIRECTORY_ENTRIES))))
    case FilesystemDirectoryEntries => Pair(Flag, Repeat(2, MAX_DIRECTORY_ENTRIES, Entry))
    case FilesystemWriteFile => Pair(Str, Pair(Str, Block(8, MAX_FILE_WRITE_BYTES)))
    case FilesystemPath => Pair(Str, Str)
    case FilesystemRename => Pair(Str, Pair(Str, Str))
    case FilesystemMutationResult => Pair(U64, Optional(U64))
    case FilesystemWriteStream => Pair(Str, Pair(Str, Check(U64, Between(0, MAX_FILE_STREAM_BYTES))))
    case FilesystemWriteStreamOpened => Pair(Identifier, Check(U32, Between(1, MAX_STREAM_CHUNK_BYTES)))
    case FilesystemWriteStreamChunk => Pair(Identifier, Pair(U64, Filled(4, MAX_STREAM_CHUNK_BYTES)))
    case FilesystemWriteStreamCommit => Identifier
    case UriOpenRequest => StrUpTo(MAX_URI_BYTES)
    case NotificationSend =>
      Pair(Str, Pair(Str, Pair(Code(3), Pair(StrUpTo(MAX_NOTIFICATION_TITLE_BYTES), StrUpTo(MAX_NOTIFICATION_BODY_BYTES)))))
    case NotificationRemove => Str
    case LocalConnect => Pair(Str, Str)
    case LocalConnectionOpened => Pair(Identifier, Check(U32, Between(1, MAX_STREAM_CHUNK_BYTES)))
    case LocalSendFrame => Pair(Identifier, Filled(4, MAX_STREAM_CHUNK_BYTES))
    case LocalFrameEvent => Filled(4, MAX_STREAM_CHUNK_BYTES)
    case SecretReadRequest => Str
    case SecretValue => Pair(Block(4, MAX_SECRET_BYTES), StrUpTo(MAX_SECRET_CONTENT_TYPE_BYTES))
    case ClipboardReadRequest => StrUpTo(MAX_CLIPBOARD_MIME_BYTES)
    case ClipboardWriteRequest => Pair(StrUpTo(MAX_CLIPBOARD_MIME_BYTES), Block(4, MAX_CLIPBOARD_BYTES))
    case ClipboardValue => Pair(StrUpTo(MAX_CLIPBOARD_MIME_BYTES), Block(4, MAX_CLIPBOARD_BYTES))
    case ContextReadRequest => Check(Check(Repeat(2, MAX_CONTEXT_FACTS, Str), DistinctValues), NotEmpty)
    case ContextSnapshot => Pair(Identifier, Facts)
    case ContextSubscriptionOpened => Pair(Identifier, Pair(Identifier, Facts))
    case AppearancePublish =>
      Pair(Check(Str, NotEmpty), Pair(Code(2),
           Pair(Colour, Pair(Colour, Pair(Colour, Pair(Colour, Pair(Colour, Colour)))))))
    case HttpRequest => Pair(Code(6), Pair(Str, Pair(Optional(Str), Pair(Optional(Str), Block(8, MAX_HTTP_INLINE_BODY_BYTES)))))
    case HttpResponse => Pair(Status, Pair(Str, Pair(Optional(Str), Pair(Optional(Str), Block(8, MAX_HTTP_INLINE_BODY_BYTES)))))
    case HttpStreamOpened => Identifier
    case HttpStreamEvent =>
      Choice([Pair(Status, Pair(Str, Pair(Optional(Str), Optional(Str)))), Filled(8, MAX_STREAM_CHUNK_BYTES), U64])
    case CommandRunRequest => Pair(Str, Arguments)
    case CommandOpened => Identifier
    case CommandEvent => Choice([Filled(8, MAX_STREAM_CHUNK_BYTES), Filled(8, MAX_STREAM_CHUNK_BYTES), Exit])
  }

  /** The magic of each kind as a big-endian number; the comment gives its ASCII text. */
  function MagicNumber(kind: Kind): u64 {
    match kind
    case DbusCall => 0x4F4D_4442_5553_4331 // OMDBUSC1
    case DbusReply => 0x4F4D_4442_5553_5231 // OMDBUSR1
    case DbusSubscription => 0x4F4D_4442_5553_5331 // OMDBUSS1
    case DbusSubscriptionOpened => 0x4F4D_4442_5553_4F31 // OMDBUSO1
    case DbusPropertiesChanged => 0x4F4D_4442_5553_4531 // OMDBUSE1
    case FilesystemReadFile => 0x4F4D_4653_5245_4431 // OMFSRED1
    case FilesystemFileChunk => 0x4F4D_4653_5250_4C31 // OMFSRPL1
    case FilesystemReadStream => 0x4F4D_4653_5354_5131 // OMFSSTQ1
    case FilesystemStreamOpened => 0x4F4D_4653_534F_5031 // OMFSSOP1
    case FilesystemStreamEvent => 0x4F4D_4653_5354_4531 // OMFSSTE1
    case FilesystemListDirectory => 0x4F4D_4653_4C53_5431 // OMFSLST1
    case FilesystemDirectoryEntries => 0x4F4D_4653_4449_5231 // OMFSDIR1
    case FilesystemWriteFile => 0x4F4D_4653_5752_5431 // OMFSWRT1
    case FilesystemPath => 0x4F4D_4653_5054_4831 // OMFSPTH1
    case FilesystemRename => 0x4F4D_4653_5245_4E31 // OMFSREN1
    case FilesystemMutationResult => 0x4F4D_4653_4D55_5431 // OMFSMUT1
    case FilesystemWriteStream => 0x4F4D_4653_5753_5131 // OMFSWSQ1
    case FilesystemWriteStreamOpened => 0x4F4D_4653_5753_4F31 // OMFSWSO1
    case FilesystemWriteStreamChunk => 0x4F4D_4653_5753_4331 // OMFSWSC1
    case FilesystemWriteStreamCommit => 0x4F4D_4653_5753_4D31 // OMFSWSM1
    case UriOpenRequest => 0x4F4D_5552_494F_5031 // OMURIOP1
    case NotificationSend => 0x4F4D_4E4F_5449_4631 // OMNOTIF1
    case NotificationRemove => 0x4F4D_4E4F_5449_5231 // OMNOTIR1
    case LocalConnect => 0x4F4D_4C4F_434E_5131 // OMLOCNQ1
    case LocalConnectionOpened => 0x4F4D_4C4F_434E_4F31 // OMLOCNO1
    case LocalSendFrame => 0x4F4D_4C4F_434E_5331 // OMLOCNS1
    case LocalFrameEvent => 0x4F4D_4C4F_434E_4531 // OMLOCNE1
    case SecretReadRequest => 0x4F4D_5345_4352_5131 // OMSECRQ1
    case SecretValue => 0x4F4D_5345_4352_5631 // OMSECRV1
    case ClipboardReadRequest => 0x4F4D_434C_5052_5131 // OMCLPRQ1
    case ClipboardWriteRequest => 0x4F4D_434C_5057_5131 // OMCLPWQ1
    case ClipboardValue => 0x4F4D_434C_5056_4C31 // OMCLPVL1
    case ContextReadRequest => 0x4F4D_4354_5852_5131 // OMCTXRQ1
    case ContextSnapshot => 0x4F4D_4354_5853_4E31 // OMCTXSN1
    case ContextSubscriptionOpened => 0x4F4D_4354_584F_5031 // OMCTXOP1
    case AppearancePublish => 0x4F4D_4150_5050_4231 // OMAPPPB1
    case HttpRequest => 0x4F4D_4854_5450_5131 // OMHTTPQ1
    case HttpResponse => 0x4F4D_4854_5450_5231 // OMHTTPR1
    case HttpStreamOpened => 0x4F4D_4854_5450_4F31 // OMHTTPO1
    case HttpStreamEvent => 0x4F4D_4854_5450_4531 // OMHTTPE1
    case CommandRunRequest => 0x4F4D_434D_4451_3031 // OMCMDQ01
    case CommandOpened => 0x4F4D_434D_444F_3031 // OMCMDO01
    case CommandEvent => 0x4F4D_434D_4445_3031 // OMCMDE01
  }

  function BigEndian(n: nat, width: nat): (r: seq<Byte>)
    ensures |r| == width
  {
    if width == 0 then [] else BigEndian(n / 256, width - 1) + [n % 256]
  }

  function Magic(kind: Kind): (r: seq<Byte>)
    ensures |r| == 8
  {
    BigEndian(MagicNumber(kind), 8)
  }

  // ----- encoding and decoding -----

  /** A payload: a magic, then a body in some format, and nothing after it. */
  function Wrap(magic: seq<Byte>, body: Format, v: Value): Option<seq<Byte>> {
    if !Fits(body, v) || |magic + Print(body, v)| > MAX_PAYLOAD_BYTES then None else Some(magic + Print(body, v))
  }

  function Unwrap(magic: seq<Byte>, body: Format, bytes: seq<Byte>): Option<Value> {
    if |bytes| > MAX_PAYLOAD_BYTES || !(magic <= bytes) then None
    else
      match Parse(body, bytes[|magic|..])
      case None => None
      case Some(parsed) => if parsed.rest == [] then Some(parsed.value) else None
  }

  function Encode(kind: Kind, v: Value): Option<seq<Byte>> {
    Wrap(Magic(kind), Body(kind), v)
  }

  function Decode(kind: Kind, bytes: seq<Byte>): Option<Value> {
    Unwrap(Magic(kind), Body(kind), bytes)
  }

  lemma {:induction false} Powers()
    ensures Power(1) == 256 && Power(2) == 0x1_0000 && Power(4) == U32_LIMIT && Power(8) == U64_LIMIT
  {
    assert Power(3) == 0x100_0000;
    assert Power(5) == 0x100_0000_0000;
    assert Power(6) == 0x1_0000_0000_0000;
    assert Power(7) == 0x100_0000_0000_0000;
  }

  // ----- magics -----

  function FromBigEndian(bytes: seq<Byte>): nat {
    if bytes == [] then 0 else 256 * FromBigEndian(bytes[..|bytes| - 1]) + bytes[|bytes| - 1]
  }

  lemma {:induction false} FromBigEndianBack(n: nat, width: nat)
    requires n < Power(width)
    ensures FromBigEndian(BigEndian(n, width)) == n
  {
    if width > 0 {
      FromBigEndianBack(n / 256, width - 1);
      assert BigEndian(n, width)[..width - 1] == BigEndian(n / 256, width - 1);
    }
  }

  /** The kind that a magic announces. */
  function KindFrom(magic: nat): Option<Kind> {
    if magic == 0x4F4D_4442_5553_4331 then Some(DbusCall)
    else if magic == 0x4F4D_4442_5553_5231 then Some(DbusReply)
    else if magic == 0x4F4D_4442_5553_5331 then Some(DbusSubscription)
    else if magic == 0x4F4D_4442_5553_4F31 then Some(DbusSubscriptionOpened)
    else if magic == 0x4F4D_4442_5553_4531 then Some(DbusPropertiesChanged)
    else if magic == 0x4F4D_4653_5245_4431 then Some(FilesystemReadFile)
    else if magic == 0x4F4D_4653_5250_4C31 then Some(FilesystemFileChunk)
    else if magic == 0x4F4D_4653_5354_5131 then Some(FilesystemReadStream)
    else if magic == 0x4F4D_4653_534F_5031 then Some(FilesystemStreamOpened)
    else if magic == 0x4F4D_4653_5354_4531 then Some(FilesystemStreamEvent)
    else if magic == 0x4F4D_4653_4C53_5431 then Some(FilesystemListDirectory)
    else if magic == 0x4F4D_4653_4449_5231 then Some(FilesystemDirectoryEntries)
    else if magic == 0x4F4D_4653_5752_5431 then Some(FilesystemWriteFile)
    else if magic == 0x4F4D_4653_5054_4831 then Some(FilesystemPath)
    else if magic == 0x4F4D_4653_5245_4E31 then Some(FilesystemRename)
    else if magic == 0x4F4D_4653_4D55_5431 then Some(FilesystemMutationResult)
    else if magic == 0x4F4D_4653_5753_5131 then Some(FilesystemWriteStream)
    else if magic == 0x4F4D_4653_5753_4F31 then Some(FilesystemWriteStreamOpened)
    else if magic == 0x4F4D_4653_5753_4331 then Some(FilesystemWriteStreamChunk)
    else if magic == 0x4F4D_4653_5753_4D31 then Some(FilesystemWriteStreamCommit)
    else if magic == 0x4F4D_5552_494F_5031 then Some(UriOpenRequest)
    else if magic == 0x4F4D_4E4F_5449_4631 then Some(NotificationSend)
    else if magic == 0x4F4D_4E4F_5449_5231 then Some(NotificationRemove)
    else if magic == 0x4F4D_4C4F_434E_5131 then Some(LocalConnect)
    else if magic == 0x4F4D_4C4F_434E_4F31 then Some(LocalConnectionOpened)
    else if magic == 0x4F4D_4C4F_434E_5331 then Some(LocalSendFrame)
    else if magic == 0x4F4D_4C4F_434E_4531 then Some(LocalFrameEvent)
    else if magic == 0x4F4D_5345_4352_5131 then Some(SecretReadRequest)
    else if magic == 0x4F4D_5345_4352_5631 then Some(SecretValue)
    else if magic == 0x4F4D_434C_5052_5131 then Some(ClipboardReadRequest)
    else if magic == 0x4F4D_434C_5057_5131 then Some(ClipboardWriteRequest)
    else if magic == 0x4F4D_434C_5056_4C31 then Some(ClipboardValue)
    else if magic == 0x4F4D_4354_5852_5131 then Some(ContextReadRequest)
    else if magic == 0x4F4D_4354_5853_4E31 then Some(ContextSnapshot)
    else if magic == 0x4F4D_4354_584F_5031 then Some(ContextSubscriptionOpened)
    else if magic == 0x4F4D_4150_5050_4231 then Some(AppearancePublish)
    else if magic == 0x4F4D_4854_5450_5131 then Some(HttpRequest)
    else if magic == 0x4F4D_4854_5450_5231 then Some(HttpResponse)
    else if magic == 0x4F4D_4854_5450_4F31 then Some(HttpStreamOpened)
    else if magic == 0x4F4D_4854_5450_4531 then Some(HttpStreamEvent)
    else if magic == 0x4F4D_434D_4451_3031 then Some(CommandRunRequest)
    else if magic == 0x4F4D_434D_444F_3031 then Some(CommandOpened)
    else if magic == 0x4F4D_434D_4445_3031 then Some(CommandEvent)
    else None
  }

  lemma {:induction false} KindFromMagic(kind: Kind)
    ensures KindFrom(MagicNumber(kind)) == Some(kind)
  {
  }

  lemma {:induction false} KindOfMagic(kind: Kind)
    ensures KindFrom(FromBigEndian(Magic(kind))) == Some(kind)
  {
    Powers();
    FromBigEndianBack(MagicNumber(kind), 8);
    KindFromMagic(kind);
  }

  /** Different kinds have different magics. */
  lemma {:induction false} MagicIsUnique(a: Kind, b: Kind)
    requires Magic(a) == Magic(b)
    ensures a == b
  {
    KindOfMagic(a);
    KindOfMagic(b);
  }

  // ----- the laws of every message -----

  lemma {:induction false} UnwrapWrapped(magic: seq<Byte>, body: Format, v: Value)
    requires Wrap(magic, body, v).Some?
    ensures Unwrap(magic, body, Wrap(magic, body, v).value) == Some(v)
  {
    FramedExactly(magic, body, v, Wrap(magic, body, v).value);
  }

  lemma {:induction false} WrapUnwrapped(magic: seq<Byte>, body: Format, bytes: seq<Byte>)
    requires Unwrap(magic, body, bytes).Some?
    ensures Wrap(magic, body, Unwrap(magic, body, bytes).value) == Some(bytes)
  {
    FramedExactly(magic, body, Unwrap(magic, body, bytes).value, bytes);
  }

  lemma {:induction false} UnwrapPrefixFree(magic: seq<Byte>, body: Format, bytes: seq<Byte>, more: seq<Byte>)
    requires Unwrap(magic, body, bytes).Some? && Unwrap(magic, body, bytes + more).Some?
    ensures more == []
  {
    assert (bytes + more)[|magic|..] == bytes[|magic|..] + more;
    PrefixFree(body, bytes[|magic|..], more);
  }

  /** Decoding what was encoded gives it back. */
  lemma {:induction false} DecodeEncoded(kind: Kind, v: Value)
    requires Encode(kind, v).Some?
    ensures Decode(kind, Encode(kind, v).value) == Some(v)
  {
    UnwrapWrapped(Magic(kind), Body(kind), v);
  }

  /** Encoding what was decoded gives back the bytes, for every message but the request for context
      facts, which its decoder keeps as a set and its encoder writes in order. */
  lemma {:induction false} EncodeDecoded(kind: Kind, bytes: seq<Byte>)
    requires kind != ContextReadRequest && Decode(kind, bytes).Some?
    ensures Encode(kind, Decode(kind, bytes).value) == Some(bytes)
  {
    WrapUnwrapped(Magic(kind), Body(kind), bytes);
  }

  lemma {:induction false} SamePrefix(x: seq<Byte>, y: seq<Byte>, bytes: seq<Byte>, more: seq<Byte>)
    requires |x| == |y| && x <= bytes && y <= bytes + more
    ensures x == y
  {
    assert (bytes + more)[..|y|] == bytes[..|x|];
  }

  /** No accepted message continues another accepted message, of the same kind or of another; in
      particular nothing is accepted under two magics. */
  lemma {:induction false} MessagesArePrefixFree(a: Kind, b: Kind, bytes: seq<Byte>, more: seq<Byte>)
    requires Decode(a, bytes).Some? && Decode(b, bytes + more).Some?
    ensures a == b && more == []
  {
    SamePrefix(Magic(a), Magic(b), bytes, more);
    MagicIsUnique(a, b);
    UnwrapPrefixFree(Magic(a), Body(a), bytes, more);
  }

  lemma {:induction false} HttpBodyBound(kind: Kind)
    requires kind.HttpRequest? || kind.HttpResponse?
    ensures 8 + MaxLength(Body(kind)) <= BROKER_PAYLOAD_BYTES
  {
    var text := Optional(Str);
    assert MaxLength(Str) == 2 + MAX_STRING_BYTES;
    assert MaxLength(text) == 3 + MAX_STRING_BYTES;
    var body := Block(8, MAX_HTTP_INLINE_BODY_BYTES);
    assert MaxLength(Pair(text, Pair(text, body))) == 2 * (3 + MAX_STRING_BYTES) + 8 + MAX_HTTP_INLINE_BODY_BYTES;
    assert MaxLength(Pair(Str, Pair(text, Pair(text, body)))) == 2 + MAX_STRING_BYTES + 2 * (3 + MAX_STRING_BYTES) + 8 + MAX_HTTP_INLINE_BODY_BYTES;
    assert MaxLength(Code(6)) == 1 && MaxLength(Status) == 2;
  }

  lemma {:induction false} WrapBound(magic: seq<Byte>, body: Format, v: Value, limit: nat)
    requires Fits(body, v) && |magic| + MaxLength(body) <= limit <= MAX_PAYLOAD_BYTES
    ensures Wrap(magic, body, v).Some? && |Wrap(magic, body, v).value| <= limit
  {
    LengthBound(body, v);
  }

  /** Every encodable HTTP request or response fits the payload of the outer broker. */
  lemma {:induction false} HttpFitsBroker(kind: Kind, v: Value)
    requires kind.HttpRequest? || kind.HttpResponse?
    requires Fits(Body(kind), v)
    ensures Encode(kind, v).Some? && |Encode(kind, v).value| <= BROKER_PAYLOAD_BYTES
  {
    HttpBodyBound(kind);
    WrapBound(Magic(kind), Body(kind), v, BROKER_PAYLOAD_BYTES);
  }

  lemma {:induction false} WrapFits(magic: seq<Byte>, body: Format, v: Value)
    requires Wrap(magic, body, v).Some?
    ensures Fits(body, v)
  {
  }

  lemma {:induction false} EncodedHttpFitsBroker(kind: Kind, v: Value)
    requires kind.HttpRequest? || kind.HttpResponse?
    requires Encode(kind, v).Some?
    ensures |Encode(kind, v).value| <= BROKER_PAYLOAD_BYTES
  {
    WrapFits(Magic(kind), Body(kind), v);
    HttpFitsBroker(kind, v);
  }
}
