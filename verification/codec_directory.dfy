/** The reply that lists a directory. */
module DirectoryCodec {
  import opened Basics
  import opened Formats
  import opened Messages
  import opened Streams

  datatype EntryKind = RegularFile | Directory

  datatype DirectoryEntry = DirectoryEntry(name: Text, kind: EntryKind, size: u64)

  datatype DirectoryEntries = DirectoryEntries(entries: seq<DirectoryEntry>, truncated: bool)

  function KindCode(kind: EntryKind): nat {
    if kind.Directory? then 1 else 0
  }

  function EntryValue(entry: DirectoryEntry): Value {
    Both(Raw(entry.name), Both(Num(KindCode(entry.kind)), Num(entry.size)))
  }

  function EntryValues(entries: seq<DirectoryEntry>): (r: seq<Value>)
    ensures |r| == |entries|
  {
    if entries == [] then [] else EntryValues(entries[..|entries| - 1]) + [EntryValue(entries[|entries| - 1])]
  }

  function DirectoryValue(d: DirectoryEntries): Value {
    Both(Num(if d.truncated then 1 else 0), Many(EntryValues(d.entries)))
  }

  lemma {:induction false} EntryValueAt(entries: seq<DirectoryEntry>, i: nat)
    requires i < |entries|
    ensures EntryValues(entries)[i] == EntryValue(entries[i])
  {
    if i < |entries| - 1 {
      EntryValueAt(entries[..|entries| - 1], i);
    }
  }

  lemma {:induction false} EntriesInjective(a: seq<DirectoryEntry>, b: seq<DirectoryEntry>)
    requires EntryValues(a) == EntryValues(b)
    ensures a == b
  {
    assert |a| == |EntryValues(a)| == |b|;
    forall i | 0 <= i < |a| ensures a[i] == b[i] {
      EntryValueAt(a, i);
      EntryValueAt(b, i);
    }
  }

  /** A listing is determined by its encoding, and comes back from it. */
  lemma {:induction false} DirectoryRoundTrip(a: DirectoryEntries, b: DirectoryEntries, bytes: seq<Byte>)
    requires Encode(FilesystemDirectoryEntries, DirectoryValue(a)) == Some(bytes)
    ensures Decode(FilesystemDirectoryEntries, bytes) == Some(DirectoryValue(a))
    ensures Decode(FilesystemDirectoryEntries, bytes) == Some(DirectoryValue(b)) ==> a == b
  {
    DecodeEncoded(FilesystemDirectoryEntries, DirectoryValue(a));
    if DirectoryValue(a) == DirectoryValue(b) {
      EntriesInjective(a.entries, b.entries);
    }
  }

  const Entries := Repeat(2, MAX_DIRECTORY_ENTRIES, Entry)
  const DirectoryBody := Pair(Flag, Entries)

  // ----- encoding -----

  method PutEntry(encoder: Encoder, entry: DirectoryEntry) returns (r: Result<(), SchemaError>)
    modifies encoder
    ensures r.Ok? <==> Fits(Entry, EntryValue(entry))
    ensures r.Ok? ==> encoder.bytes == old(encoder.bytes) + Print(Entry, EntryValue(entry))
    ensures r.Err? ==> r.error == LimitExceeded
  {
    Powers();
    var v := EntryValue(entry);
    FitsPair(Str, Pair(Code(2), U64), v.first, v.second);
    FitsPair(Code(2), U64, v.second.first, v.second.second);
    FitsRange(1, 0, 1, KindCode(entry.kind));
    var _ :- encoder.String(entry.name);
    ghost var named := encoder.bytes;
    encoder.Number(KindCode(entry.kind), 1);
    encoder.Number(entry.size, 8);
    ConcatAssociates(named, ToBytes(KindCode(entry.kind), 1), ToBytes(entry.size, 8));
    ConcatAssociates(old(encoder.bytes), Print(Str, Raw(entry.name)), ToBytes(KindCode(entry.kind), 1) + ToBytes(entry.size, 8));
    r := Ok(());
  }

  ghost predicate EntriesLeft(total: Option<seq<Byte>>, done: seq<Byte>, entries: seq<DirectoryEntry>, i: nat)
    requires i <= |entries|
  {
    LeftAll(total, done, Entry, EntryValues(entries)[i..], Nothing, Unit)
  }

  lemma {:induction false} NextEntry(total: Option<seq<Byte>>, done: seq<Byte>, entries: seq<DirectoryEntry>, i: nat)
    requires i < |entries| && EntriesLeft(total, done, entries, i)
    ensures Fits(Entry, EntryValue(entries[i])) ==> EntriesLeft(total, done + Print(Entry, EntryValue(entries[i])), entries, i + 1)
    ensures !Fits(Entry, EntryValue(entries[i])) ==> total == None
  {
    var rest := EntryValues(entries)[i..];
    EntryValueAt(entries, i);
    assert rest[0] == EntryValue(entries[i]) && rest[1..] == EntryValues(entries)[i + 1..];
    LeftNext(total, done, Entry, rest, Nothing, Unit);
  }

  method PutEntries(encoder: Encoder, entries: seq<DirectoryEntry>, ghost total: Option<seq<Byte>>) returns (r: Result<(), SchemaError>)
    requires Left(total, encoder.bytes, Entries, Many(EntryValues(entries))) && |entries| <= MAX_DIRECTORY_ENTRIES
    modifies encoder
    ensures r.Ok? ==> total == Some(encoder.bytes)
    ensures r.Err? ==> total == None && r.error == LimitExceeded
  {
    Powers();
    LeftRepeatLast(total, encoder.bytes, Entries, EntryValues(entries));
    encoder.Number(|entries|, 2);
    assert EntryValues(entries)[0..] == EntryValues(entries);
    var i := 0;
    while i < |entries|
      invariant 0 <= i <= |entries|
      invariant EntriesLeft(total, encoder.bytes, entries, i)
    {
      NextEntry(total, encoder.bytes, entries, i);
      var _ :- PutEntry(encoder, entries[i]);
      i := i + 1;
    }
    assert EntryValues(entries)[i..] == [];
    LeftNone(total, encoder.bytes, Entry, Nothing, Unit);
    LeftNothing(total, encoder.bytes);
    r := Ok(());
  }

  lemma {:induction false} DirectoryIsWrapped(d: DirectoryEntries)
    ensures Encode(FilesystemDirectoryEntries, DirectoryValue(d)) == Wrap(Magic(FilesystemDirectoryEntries), DirectoryBody, DirectoryValue(d))
    ensures Fits(DirectoryBody, DirectoryValue(d)) ==> |d.entries| <= MAX_DIRECTORY_ENTRIES
    ensures !Fits(DirectoryBody, DirectoryValue(d)) ==> Wrap(Magic(FilesystemDirectoryEntries), DirectoryBody, DirectoryValue(d)) == None
  {
    assert Body(FilesystemDirectoryEntries) == DirectoryBody;
    FitsPair(Flag, Entries, DirectoryValue(d).first, DirectoryValue(d).second);
  }

  /** Every failure is a limit: too many entries, a name too long, or too large a payload. */
  method EncodeDirectory(d: DirectoryEntries) returns (r: Result<seq<Byte>, SchemaError>)
    ensures r.Ok? <==> Encode(FilesystemDirectoryEntries, DirectoryValue(d)).Some?
    ensures r.Ok? ==> Encode(FilesystemDirectoryEntries, DirectoryValue(d)) == Some(r.value)
    ensures r.Err? ==> r.error == LimitExceeded
  {
    DirectoryIsWrapped(d);
    if |d.entries| > MAX_DIRECTORY_ENTRIES {
      return Err(LimitExceeded);
    }
    var encoder := new Encoder(FilesystemDirectoryEntries);
    ghost var total := Whole(encoder.bytes, DirectoryBody, DirectoryValue(d));
    Powers();
    var code := if d.truncated then 1 else 0;
    FitsRange(1, 0, 1, code);
    LeftPair(total, encoder.bytes, Flag, Entries, Num(code), Many(EntryValues(d.entries)));
    encoder.Number(code, 1);
    var _ :- PutEntries(encoder, d.entries, total);
    r := encoder.Finish();
  }

  // ----- decoding -----

  method GetEntry(decoder: Decoder) returns (r: Result<DirectoryEntry, SchemaError>)
    modifies decoder
    ensures match Parse(Entry, old(decoder.remaining))
            case None => r == Err(ParseError(Entry, old(decoder.remaining)))
            case Some(p) => r.Ok? && p.value == EntryValue(r.value) && decoder.remaining == p.rest
  {
    ParsePair(Str, Pair(Code(2), U64), decoder.remaining);
    var name :- decoder.String();
    ParsePair(Code(2), U64, decoder.remaining);
    ParseCheck(U8, Between(0, 1), decoder.remaining);
    var code :- decoder.Number(1);
    if code > 1 {
      return Err(Malformed);
    }
    Powers();
    var size :- decoder.Number(8);
    r := Ok(DirectoryEntry(name, if code == 1 then Directory else RegularFile, size));
  }

  /** One step of the loop: a fault is the fault of the whole list, an entry moves on to the rest. */
  lemma {:induction false} EntryStep(total: Option<Parsed<seq<Value>>>, fault: SchemaError, entries: seq<DirectoryEntry>, left: nat, before: seq<Byte>)
    requires Ahead(total, EntryValues(entries), Entry, left, before) && left > 0 && fault == AllError(Entry, left, before)
    ensures Parse(Entry, before).None? ==> total == None && fault == ParseError(Entry, before)
    ensures Parse(Entry, before).Some? ==>
              var p := Parse(Entry, before).value;
              Ahead(total, EntryValues(entries) + [p.value], Entry, left - 1, p.rest) && fault == AllError(Entry, left - 1, p.rest)
  {
    AllErrorNext(Entry, left, before);
    AheadNext(total, EntryValues(entries), Entry, left, before);
  }

  lemma {:induction false} MoreEntries(entries: seq<DirectoryEntry>, entry: DirectoryEntry)
    ensures EntryValues(entries + [entry]) == EntryValues(entries) + [EntryValue(entry)]
  {
    assert (entries + [entry])[..|entries|] == entries;
  }

  /** What is left to read, and the fault should it fail. */
  ghost predicate EntriesAhead(total: Option<Parsed<seq<Value>>>, fault: SchemaError, entries: seq<DirectoryEntry>, left: nat, bytes: seq<Byte>) {
    Ahead(total, EntryValues(entries), Entry, left, bytes) && fault == AllError(Entry, left, bytes)
  }

  method GetNext(decoder: Decoder, entries: seq<DirectoryEntry>, ghost total: Option<Parsed<seq<Value>>>, ghost fault: SchemaError, ghost left: nat)
    returns (r: Result<seq<DirectoryEntry>, SchemaError>)
    requires left > 0 && EntriesAhead(total, fault, entries, left, decoder.remaining)
    modifies decoder
    ensures r.Ok? ==> EntriesAhead(total, fault, r.value, left - 1, decoder.remaining)
    ensures r.Err? ==> total == None && r.error == fault
  {
    EntryStep(total, fault, entries, left, decoder.remaining);
    var next :- GetEntry(decoder);
    MoreEntries(entries, next);
    r := Ok(entries + [next]);
  }

  /** Reads `count` entries. */
  method GetAll(decoder: Decoder, count: nat) returns (r: Result<seq<DirectoryEntry>, SchemaError>)
    modifies decoder
    ensures match ParseAll(Entry, count, old(decoder.remaining))
            case None => r == Err(AllError(Entry, count, old(decoder.remaining)))
            case Some(p) => r.Ok? && p.value == EntryValues(r.value) && decoder.remaining == p.rest
  {
    ghost var fault := AllError(Entry, count, decoder.remaining);
    ghost var total := ParseAll(Entry, count, decoder.remaining);
    AheadStart(Entry, count, decoder.remaining);
    var entries: seq<DirectoryEntry> := [];
    var left: nat := count;
    while left > 0
      invariant EntriesAhead(total, fault, entries, left, decoder.remaining)
    {
      entries :- GetNext(decoder, entries, total, fault, left);
      left := left - 1;
    }
    AheadDone(total, EntryValues(entries), Entry, decoder.remaining);
    r := Ok(entries);
  }

  method GetEntries(decoder: Decoder) returns (r: Result<seq<DirectoryEntry>, SchemaError>)
    modifies decoder
    ensures match Parse(Entries, old(decoder.remaining))
            case None => r == Err(ParseError(Entries, old(decoder.remaining)))
            case Some(p) => r.Ok? && p.value == Many(EntryValues(r.value)) && decoder.remaining == p.rest
  {
    ParseRepeat(2, MAX_DIRECTORY_ENTRIES, Entry, decoder.remaining);
    var count :- decoder.Number(2);
    if count > MAX_DIRECTORY_ENTRIES {
      return Err(LimitExceeded);
    }
    r := GetAll(decoder, count);
  }

  method GetDirectory(decoder: Decoder) returns (r: Result<DirectoryEntries, SchemaError>)
    modifies decoder
    ensures match Parse(DirectoryBody, old(decoder.remaining))
            case None => r == Err(ParseError(DirectoryBody, old(decoder.remaining)))
            case Some(p) => r.Ok? && p.value == DirectoryValue(r.value) && decoder.remaining == p.rest
  {
    ParsePair(Flag, Entries, decoder.remaining);
    ParseCheck(U8, Between(0, 1), decoder.remaining);
    var code :- decoder.Number(1);
    if code > 1 {
      return Err(Malformed);
    }
    var entries :- GetEntries(decoder);
    r := Ok(DirectoryEntries(entries, code == 1));
  }

  lemma {:induction false} DecodeIsUnwrap(bytes: seq<Byte>)
    ensures Decode(FilesystemDirectoryEntries, bytes) == Unwrap(Magic(FilesystemDirectoryEntries), DirectoryBody, bytes)
  {
    assert Body(FilesystemDirectoryEntries) == DirectoryBody;
  }

  method DecodeDirectory(bytes: seq<Byte>) returns (r: Result<DirectoryEntries, SchemaError>)
    ensures r.Ok? <==> Decode(FilesystemDirectoryEntries, bytes).Some?
    ensures r.Ok? ==> Decode(FilesystemDirectoryEntries, bytes) == Some(DirectoryValue(r.value))
    ensures r.Err? ==> r.error == UnwrapError(Magic(FilesystemDirectoryEntries), DirectoryBody, bytes)
  {
    DecodeIsUnwrap(bytes);
    var decoder :- Decoder.Open(bytes, FilesystemDirectoryEntries);
    var d :- GetDirectory(decoder);
    var _ :- decoder.Finish();
    r := Ok(d);
  }
}
