/** Asset bundles: a magic, a count, and named files. */
module AssetBundles {
  import opened Basics
  import opened Formats
  import opened Messages
  import opened Streams
  import opened Keyed

  const MAX_ASSETS := 64
  const MAX_ASSET_FILE_BYTES := 1024 * 1024
  const MAX_ASSET_BUNDLE_BYTES := 8 * 1024 * 1024
  const MAX_ASSET_ID_BYTES := 64

  /** The eight bytes OTBAS001. */
  function BundleMagic(): (r: seq<Byte>)
    ensures |r| == 8
  {
    BigEndian(0x4F54_4241_5330_3031, 8)
  }

  datatype Asset = Asset(id: Text, bytes: seq<Byte>)

  datatype BundleError = TooManyAssets | UnboundedId | DuplicateId | FileTooLarge | BundleTooLarge | InvalidMagic | InvalidUtf8 | Truncated | TrailingBytes

  const AssetId := Check(Check(Block(2, MAX_ASSET_ID_BYTES), LengthBetween(1, MAX_ASSET_ID_BYTES)), IsUtf8)
  const AssetFile := Block(4, MAX_ASSET_FILE_BYTES)
  const AssetFormat := Pair(AssetId, AssetFile)
  const AssetList := Repeat(4, MAX_ASSETS, AssetFormat)
  const BundleBody := Check(AssetList, DistinctFirsts)

  function AssetValue(asset: Asset): Value {
    Both(Raw(asset.id), Raw(asset.bytes))
  }

  function AssetValues(assets: seq<Asset>): (r: seq<Value>)
    ensures |r| == |assets|
  {
    if assets == [] then [] else AssetValues(assets[..|assets| - 1]) + [AssetValue(assets[|assets| - 1])]
  }

  /** The bytes of a bundle, if its assets are bounded and distinct and it is not too large. */
  function BundleOf(assets: seq<Asset>): Option<seq<Byte>> {
    var v := Many(AssetValues(assets));
    if !Fits(BundleBody, v) || |BundleMagic() + Print(BundleBody, v)| > MAX_ASSET_BUNDLE_BYTES then None
    else Some(BundleMagic() + Print(BundleBody, v))
  }

  /** The bytes are a complete bundle of these assets. */
  ghost predicate IsBundle(bytes: seq<Byte>, assets: seq<Asset>) {
    && |bytes| <= MAX_ASSET_BUNDLE_BYTES && BundleMagic() <= bytes
    && Parse(BundleBody, bytes[8..]) == Some(Parsed(Many(AssetValues(assets)), []))
  }

  lemma {:induction false} AssetValueAt(assets: seq<Asset>, i: nat)
    requires i < |assets|
    ensures AssetValues(assets)[i] == AssetValue(assets[i])
  {
    if i < |assets| - 1 {
      AssetValueAt(assets[..|assets| - 1], i);
    }
  }

  lemma {:induction false} AssetsInjective(a: seq<Asset>, b: seq<Asset>)
    requires AssetValues(a) == AssetValues(b)
    ensures a == b
  {
    assert |a| == |AssetValues(a)| == |b|;
    forall i | 0 <= i < |a| ensures a[i] == b[i] {
      AssetValueAt(a, i);
      AssetValueAt(b, i);
    }
  }

  /** Decoding inverts encoding and encoding inverts decoding. */
  lemma {:induction false} BundleRoundTrip(assets: seq<Asset>, bytes: seq<Byte>)
    ensures BundleOf(assets) == Some(bytes) <==> IsBundle(bytes, assets)
  {
    FramedExactly(BundleMagic(), BundleBody, Many(AssetValues(assets)), bytes);
  }

  /** A bundle determines its assets, and no bundle continues another. */
  lemma {:induction false} BundlesArePrefixFree(bytes: seq<Byte>, more: seq<Byte>, a: seq<Asset>, b: seq<Asset>)
    requires IsBundle(bytes, a) && IsBundle(bytes + more, b)
    ensures more == [] && a == b
  {
    assert (bytes + more)[8..] == bytes[8..] + more;
    PrefixFree(BundleBody, bytes[8..], more);
    assert bytes + more == bytes;
    AssetsInjective(a, b);
  }

  // ----- encoding -----

  ghost predicate AssetsLeft(total: Option<seq<Byte>>, done: seq<Byte>, assets: seq<Asset>, i: nat, ids: set<Text>)
    requires i <= |assets|
  {
    && KeyedLeft(total, done, AssetFormat, DistinctFirsts, AssetValues(assets), i)
    && Names(ids, KeySet(DistinctFirsts, AssetValues(assets)[..i]))
  }

  lemma {:induction false} FitsAsset(asset: Asset)
    ensures Fits(AssetFormat, AssetValue(asset)) <==> 1 <= |asset.id| <= MAX_ASSET_ID_BYTES && |asset.bytes| <= MAX_ASSET_FILE_BYTES
    ensures Fits(AssetFormat, AssetValue(asset)) ==>
              Print(AssetFormat, AssetValue(asset)) ==
              (ToBytes(|asset.id|, 2) + asset.id) + (ToBytes(|asset.bytes|, 4) + asset.bytes)
  {
    Powers();
    FitsPair(AssetId, AssetFile, Raw(asset.id), Raw(asset.bytes));
    var sized := Check(Block(2, MAX_ASSET_ID_BYTES), LengthBetween(1, MAX_ASSET_ID_BYTES));
    FitsCheck(sized, IsUtf8, Raw(asset.id));
    FitsCheck(Block(2, MAX_ASSET_ID_BYTES), LengthBetween(1, MAX_ASSET_ID_BYTES), Raw(asset.id));
  }

  lemma {:induction false} NextAsset(total: Option<seq<Byte>>, done: seq<Byte>, assets: seq<Asset>, i: nat, ids: set<Text>)
    requires i < |assets| && AssetsLeft(total, done, assets, i, ids)
    ensures assets[i].id in ids || !Fits(AssetFormat, AssetValue(assets[i])) ==> total == None
    ensures assets[i].id !in ids && Fits(AssetFormat, AssetValue(assets[i])) ==>
              AssetsLeft(total, done + Print(AssetFormat, AssetValue(assets[i])), assets, i + 1, ids + {assets[i].id})
  {
    AssetValueAt(assets, i);
    KeyedNext(total, done, AssetFormat, DistinctFirsts, AssetValues(assets), i);
  }

  /** Whatever is still to be printed only makes the output longer. */
  lemma {:induction false} OutputGrows(total: Option<seq<Byte>>, done: seq<Byte>, assets: seq<Asset>, i: nat, ids: set<Text>)
    requires i <= |assets| && AssetsLeft(total, done, assets, i, ids)
    ensures total.Some? ==> |done| <= |total.value|
  {
  }

  function Uncut(assets: seq<Asset>): (total: Option<seq<Byte>>)
    ensures BundleOf(assets) == if total.Some? && |total.value| <= MAX_ASSET_BUNDLE_BYTES then total else None
  {
    var v := Many(AssetValues(assets));
    if Fits(BundleBody, v) then Some(BundleMagic() + Print(BundleBody, v)) else None
  }

  lemma {:induction false} StartAssets(assets: seq<Asset>)
    ensures |assets| > MAX_ASSETS ==> Uncut(assets) == None
    ensures |assets| <= MAX_ASSETS ==> AssetsLeft(Uncut(assets), BundleMagic() + ToBytes(|assets|, 4), assets, 0, {})
  {
    Powers();
    var values := AssetValues(assets);
    FitsCheck(AssetList, DistinctFirsts, Many(values));
    assert Left(Uncut(assets), BundleMagic(), BundleBody, Many(values));
    if |assets| <= MAX_ASSETS {
      KeyedStart(Uncut(assets), BundleMagic(), AssetList, DistinctFirsts, values);
    }
  }

  /** The bytes of a bundle up to its first `i` assets. */
  function SizeOf(assets: seq<Asset>, i: nat): nat
    requires i <= |assets|
  {
    if i == 0 then 12 else SizeOf(assets, i - 1) + 6 + |assets[i - 1].id| + |assets[i - 1].bytes|
  }

  function Ids(assets: seq<Asset>): set<Text> {
    set i | 0 <= i < |assets| :: assets[i].id
  }

  /** What is wrong with the asset at `i`, after the ones before it. */
  function Defect(assets: seq<Asset>, i: nat): Option<BundleError>
    requires i < |assets|
  {
    var asset := assets[i];
    if asset.id == [] || |asset.id| > MAX_ASSET_ID_BYTES then Some(UnboundedId)
    else if asset.id in Ids(assets[..i]) then Some(DuplicateId)
    else if |asset.bytes| > MAX_ASSET_FILE_BYTES then Some(FileTooLarge)
    else if SizeOf(assets, i + 1) > MAX_ASSET_BUNDLE_BYTES then Some(BundleTooLarge)
    else None
  }

  ghost predicate IsFirstDefect(assets: seq<Asset>, k: nat, error: BundleError) {
    && k < |assets| && Defect(assets, k) == Some(error)
    && forall i :: 0 <= i < k ==> Defect(assets, i) == None
  }

  lemma {:induction false} MoreIds(assets: seq<Asset>, i: nat)
    requires i < |assets|
    ensures Ids(assets[..i + 1]) == Ids(assets[..i]) + {assets[i].id}
  {
    var front, longer := assets[..i], assets[..i + 1];
    assert longer == front + [assets[i]];
    forall id ensures id in Ids(longer) <==> id in Ids(front) + {assets[i].id} {
      if id in Ids(front) {
        var j :| 0 <= j < |front| && front[j].id == id;
        assert longer[j].id == id;
      }
      if id == assets[i].id {
        assert longer[i].id == id;
      }
    }
  }

  /** The assets before `i` have no defect, and these are their ids and their size. */
  ghost predicate Flawless(assets: seq<Asset>, i: nat, ids: set<Text>, size: nat)
    requires i <= |assets|
  {
    && size == SizeOf(assets, i) && ids == Ids(assets[..i])
    && forall j :: 0 <= j < i ==> Defect(assets, j) == None
  }

  lemma {:induction false} DefectNext(assets: seq<Asset>, i: nat, ids: set<Text>, size: nat)
    requires i < |assets| && Flawless(assets, i, ids, size)
    ensures var asset := assets[i];
            var more := size + 6 + |asset.id| + |asset.bytes|;
            if asset.id == [] || |asset.id| > MAX_ASSET_ID_BYTES then IsFirstDefect(assets, i, UnboundedId)
            else if asset.id in ids then IsFirstDefect(assets, i, DuplicateId)
            else if |asset.bytes| > MAX_ASSET_FILE_BYTES then IsFirstDefect(assets, i, FileTooLarge)
            else if more > MAX_ASSET_BUNDLE_BYTES then IsFirstDefect(assets, i, BundleTooLarge)
            else Flawless(assets, i + 1, ids + {asset.id}, more)
  {
    MoreIds(assets, i);
  }

  /** `encode_asset_bundle`: a failure names the first defect of the first defective asset. */
  method EncodeBundle(assets: seq<Asset>) returns (r: Result<seq<Byte>, BundleError>)
    ensures r.Ok? <==> BundleOf(assets).Some?
    ensures r.Ok? ==> BundleOf(assets) == Some(r.value)
    ensures r.Err? && |assets| > MAX_ASSETS ==> r.error == TooManyAssets
    ensures r.Err? && |assets| <= MAX_ASSETS ==> exists k :: IsFirstDefect(assets, k, r.error)
  {
    ghost var total := Uncut(assets);
    StartAssets(assets);
    if |assets| > MAX_ASSETS {
      return Err(TooManyAssets);
    }
    var output := BundleMagic() + ToBytes(|assets|, 4);
    var ids: set<Text> := {};
    var i := 0;
    while i < |assets|
      invariant 0 <= i <= |assets|
      invariant AssetsLeft(total, output, assets, i, ids)
      invariant |output| <= MAX_ASSET_BUNDLE_BYTES && Flawless(assets, i, ids, |output|)
    {
      var asset := assets[i];
      NextAsset(total, output, assets, i, ids);
      DefectNext(assets, i, ids, |output|);
      FitsAsset(asset);
      if asset.id == [] || |asset.id| > MAX_ASSET_ID_BYTES {
        return Err(UnboundedId);
      }
      if asset.id in ids {
        return Err(DuplicateId);
      }
      if |asset.bytes| > MAX_ASSET_FILE_BYTES {
        return Err(FileTooLarge);
      }
      ids := ids + {asset.id};
      output := Append(output, asset);
      i := i + 1;
      if |output| > MAX_ASSET_BUNDLE_BYTES {
        OutputGrows(total, output, assets, i, ids);
        return Err(BundleTooLarge);
      }
    }
    KeyedEnd(total, output, AssetFormat, DistinctFirsts, AssetValues(assets));
    r := Ok(output);
  }

  method Append(output: seq<Byte>, asset: Asset) returns (r: seq<Byte>)
    requires Fits(AssetFormat, AssetValue(asset))
    ensures r == output + Print(AssetFormat, AssetValue(asset)) && |r| == |output| + 6 + |asset.id| + |asset.bytes|
  {
    FitsAsset(asset);
    var first, second := ToBytes(|asset.id|, 2), ToBytes(|asset.bytes|, 4);
    r := output + first;
    r := r + asset.id;
    r := r + second;
    r := r + asset.bytes;
    ConcatAssociates(output, first, asset.id);
    ConcatAssociates(output + (first + asset.id), second, asset.bytes);
    ConcatAssociates(output, first + asset.id, second + asset.bytes);
  }

  // ----- decoding -----

  /** A cursor over the bytes of a bundle. */
  class Input {
    const bytes: seq<Byte>
    var offset: nat

    ghost predicate Valid()
      reads this
    {
      offset <= |bytes|
    }

    ghost function Remaining(): seq<Byte>
      requires Valid()
      reads this
    {
      bytes[offset..]
    }

    constructor (bytes: seq<Byte>)
      ensures this.bytes == bytes && Valid() && Remaining() == bytes && offset == 0
    {
      this.bytes := bytes;
      offset := 0;
    }

    method Take(length: nat) returns (r: Result<seq<Byte>, BundleError>)
      requires Valid()
      modifies this
      ensures Valid()
      ensures match ParseTaken(length, old(Remaining()))
              case None => r == Err(Truncated)
              case Some(p) => r == Ok(p.value) && Remaining() == p.rest
    {
      var end := offset + length;
      if end > |bytes| {
        return Err(Truncated);
      }
      assert Remaining()[..length] == bytes[offset..end] && Remaining()[length..] == bytes[end..];
      r := Ok(bytes[offset..end]);
      offset := end;
    }

    /** `u16` and `u32`: a little-endian number of the given width. */
    method Number(width: nat) returns (r: Result<nat, BundleError>)
      requires Valid()
      modifies this
      ensures Valid()
      ensures match ParseNumber(width, old(Remaining()))
              case None => r == Err(Truncated)
              case Some(n) => r == Ok(n.value) && Remaining() == n.rest
    {
      var taken :- Take(width);
      r := Ok(FromBytes(taken));
    }
  }

  // The first fault met in the bytes of an id, of an asset, of a list of assets and of a bundle.

  function IdError(bytes: seq<Byte>): BundleError {
    match ParseNumber(2, bytes)
    case None => Truncated
    case Some(n) =>
      if n.value == 0 || n.value > MAX_ASSET_ID_BYTES then UnboundedId
      else if ParseTaken(n.value, n.rest).None? then Truncated
      else InvalidUtf8
  }

  function AssetError(bytes: seq<Byte>, known: set<Value>): BundleError {
    match Parse(AssetId, bytes)
    case None => IdError(bytes)
    case Some(id) =>
      if id.value in known then DuplicateId
      else
        match ParseNumber(4, id.rest)
        case None => Truncated
        case Some(n) => if n.value > MAX_ASSET_FILE_BYTES then FileTooLarge else Truncated
  }

  function AssetsError(count: nat, bytes: seq<Byte>, known: set<Value>): BundleError {
    if count == 0 then TrailingBytes
    else
      var parsed := Parse(AssetFormat, bytes);
      if parsed.Some? && FirstOf(parsed.value.value) !in known
      then AssetsError(count - 1, parsed.value.rest, known + {FirstOf(parsed.value.value)})
      else AssetError(bytes, known)
  }

  function BundleFault(bytes: seq<Byte>): BundleError {
    if |bytes| > MAX_ASSET_BUNDLE_BYTES then BundleTooLarge
    else if |bytes| < 8 then Truncated
    else if bytes[..8] != BundleMagic() then InvalidMagic
    else
      match ParseNumber(4, bytes[8..])
      case None => Truncated
      case Some(n) => if n.value > MAX_ASSETS then TooManyAssets else AssetsError(n.value, n.rest, {})
  }

  method GetId(input: Input) returns (r: Result<Text, BundleError>)
    requires input.Valid()
    modifies input
    ensures input.Valid()
    ensures match Parse(AssetId, old(input.Remaining()))
            case None => r == Err(IdError(old(input.Remaining())))
            case Some(p) => r.Ok? && p.value == Raw(r.value) && input.Remaining() == p.rest
  {
    ghost var start := input.Remaining();
    var sized := Check(Block(2, MAX_ASSET_ID_BYTES), LengthBetween(1, MAX_ASSET_ID_BYTES));
    ParseCheck(sized, IsUtf8, start);
    ParseCheck(Block(2, MAX_ASSET_ID_BYTES), LengthBetween(1, MAX_ASSET_ID_BYTES), start);
    var length :- input.Number(2);
    if length == 0 || length > MAX_ASSET_ID_BYTES {
      return Err(UnboundedId);
    }
    var id :- input.Take(length);
    if !Utf8(id) {
      return Err(InvalidUtf8);
    }
    r := Ok(id);
  }

  method GetAsset(input: Input, ids: set<Text>, ghost known: set<Value>) returns (r: Result<Asset, BundleError>)
    requires input.Valid() && Names(ids, known)
    modifies input
    ensures input.Valid()
    ensures r.Ok? ==> Parse(AssetFormat, old(input.Remaining())) == Some(Parsed(AssetValue(r.value), input.Remaining()))
    ensures r.Ok? ==> Raw(r.value.id) !in known && Names(ids + {r.value.id}, known + {Raw(r.value.id)})
    ensures r.Err? && Parse(AssetFormat, old(input.Remaining())).Some? ==> FirstOf(Parse(AssetFormat, old(input.Remaining())).value.value) in known
    ensures r.Err? ==> r.error == AssetError(old(input.Remaining()), known)
  {
    ParsePair(AssetId, AssetFile, input.Remaining());
    var id :- GetId(input);
    if id in ids {
      return Err(DuplicateId);
    }
    var length :- input.Number(4);
    if length > MAX_ASSET_FILE_BYTES {
      return Err(FileTooLarge);
    }
    var bytes :- input.Take(length);
    r := Ok(Asset(id, bytes));
  }

  lemma {:induction false} AssetAccepted(total: Option<Parsed<seq<Value>>>, assets: seq<Asset>, left: nat, before: seq<Byte>, asset: Asset, after: seq<Byte>)
    requires Ahead(total, AssetValues(assets), AssetFormat, left, before) && left > 0
    requires Parse(AssetFormat, before) == Some(Parsed(AssetValue(asset), after))
    requires DistinctKeys(DistinctFirsts, AssetValues(assets)) && Raw(asset.id) !in KeySet(DistinctFirsts, AssetValues(assets))
    ensures Ahead(total, AssetValues(assets + [asset]), AssetFormat, left - 1, after)
    ensures DistinctKeys(DistinctFirsts, AssetValues(assets + [asset]))
    ensures KeySet(DistinctFirsts, AssetValues(assets + [asset])) == KeySet(DistinctFirsts, AssetValues(assets)) + {Raw(asset.id)}
    ensures var known := KeySet(DistinctFirsts, AssetValues(assets));
            AssetsError(left, before, known) == AssetsError(left - 1, after, known + {Raw(asset.id)})
  {
    KeyAccepted(total, AssetValues(assets), AssetFormat, DistinctFirsts, left, before, AssetValue(asset), after);
    assert (assets + [asset])[..|assets|] == assets;
  }

  lemma {:induction false} AssetRefused(left: nat, before: seq<Byte>, known: set<Value>)
    requires left > 0
    requires Parse(AssetFormat, before).Some? ==> FirstOf(Parse(AssetFormat, before).value.value) in known
    ensures AssetsError(left, before, known) == AssetError(before, known)
  {
  }

  /** What is left to read after `assets`, with the set of their ids, and the fault should it fail. */
  ghost predicate AssetsAhead(total: Option<Parsed<seq<Value>>>, fault: BundleError, assets: seq<Asset>, ids: set<Text>, left: nat, bytes: seq<Byte>) {
    var known := KeySet(DistinctFirsts, AssetValues(assets));
    && DistinctKeys(DistinctFirsts, AssetValues(assets)) && Names(ids, known)
    && Ahead(total, AssetValues(assets), AssetFormat, left, bytes) && fault == AssetsError(left, bytes, known)
  }

  lemma {:induction false} AssetsAheadStart(count: nat, bytes: seq<Byte>)
    ensures AssetsAhead(ParseAll(AssetFormat, count, bytes), AssetsError(count, bytes, {}), [], {}, count, bytes)
  {
    AheadStart(AssetFormat, count, bytes);
  }

  lemma {:induction false} AssetsAheadDone(total: Option<Parsed<seq<Value>>>, fault: BundleError, assets: seq<Asset>, ids: set<Text>, bytes: seq<Byte>)
    requires AssetsAhead(total, fault, assets, ids, 0, bytes)
    ensures total == Some(Parsed(AssetValues(assets), bytes)) && DistinctKeys(DistinctFirsts, AssetValues(assets)) && fault == TrailingBytes
  {
    AheadDone(total, AssetValues(assets), AssetFormat, bytes);
  }

  /** Reads the next asset and moves on, or fails as the whole list does. */
  method GetNextAsset(input: Input, assets: seq<Asset>, ids: set<Text>, ghost total: Option<Parsed<seq<Value>>>, ghost fault: BundleError, ghost left: nat)
    returns (r: Result<Asset, BundleError>)
    requires input.Valid() && left > 0 && AssetsAhead(total, fault, assets, ids, left, input.Remaining())
    modifies input
    ensures input.Valid()
    ensures r.Ok? ==> AssetsAhead(total, fault, assets + [r.value], ids + {r.value.id}, left - 1, input.Remaining())
    ensures r.Err? ==> (total.Some? ==> !Holds(DistinctFirsts, Many(total.value.value))) && r.error == fault
  {
    ghost var before := input.Remaining();
    r := GetAsset(input, ids, KeySet(DistinctFirsts, AssetValues(assets)));
    if r.Ok? {
      AssetAccepted(total, assets, left, before, r.value, input.Remaining());
    } else {
      KeyRepeated(total, AssetValues(assets), AssetFormat, DistinctFirsts, left, before);
      AssetRefused(left, before, KeySet(DistinctFirsts, AssetValues(assets)));
    }
  }

  /** Reads the assets that are left. */
  method GetAllAssets(input: Input, count: nat, ghost total: Option<Parsed<seq<Value>>>, ghost fault: BundleError) returns (r: Result<seq<Asset>, BundleError>)
    requires input.Valid() && AssetsAhead(total, fault, [], {}, count, input.Remaining())
    modifies input
    ensures input.Valid()
    ensures r.Ok? ==> total == Some(Parsed(AssetValues(r.value), input.Remaining())) && DistinctKeys(DistinctFirsts, AssetValues(r.value)) && fault == TrailingBytes
    ensures r.Err? ==> (total.Some? ==> !Holds(DistinctFirsts, Many(total.value.value))) && r.error == fault
  {
    var assets: seq<Asset> := [];
    var ids: set<Text> := {};
    var left: nat := count;
    while left > 0
      invariant input.Valid()
      invariant AssetsAhead(total, fault, assets, ids, left, input.Remaining())
    {
      var next :- GetNextAsset(input, assets, ids, total, fault, left);
      left := left - 1;
      ids := ids + {next.id};
      assets := assets + [next];
    }
    AssetsAheadDone(total, fault, assets, ids, input.Remaining());
    r := Ok(assets);
  }

  method GetAssets(input: Input, count: nat) returns (r: Result<seq<Asset>, BundleError>)
    requires input.Valid()
    modifies input
    ensures input.Valid()
    ensures var total := ParseAll(AssetFormat, count, old(input.Remaining()));
            if r.Ok? then total == Some(Parsed(AssetValues(r.value), input.Remaining())) && DistinctKeys(DistinctFirsts, AssetValues(r.value))
            else (total.Some? ==> !Holds(DistinctFirsts, Many(total.value.value))) && r.error == AssetsError(count, old(input.Remaining()), {})
    ensures r.Ok? ==> AssetsError(count, old(input.Remaining()), {}) == TrailingBytes
  {
    ghost var fault := AssetsError(count, input.Remaining(), {});
    ghost var total := ParseAll(AssetFormat, count, input.Remaining());
    AssetsAheadStart(count, input.Remaining());
    r := GetAllAssets(input, count, total, fault);
  }

  /** `decode_asset_bundle` */
  method DecodeBundle(bytes: seq<Byte>) returns (r: Result<seq<Asset>, BundleError>)
    ensures r.Ok? ==> IsBundle(bytes, r.value)
    ensures r.Err? ==> r.error == BundleFault(bytes) && forall assets :: !IsBundle(bytes, assets)
  {
    if |bytes| > MAX_ASSET_BUNDLE_BYTES {
      return Err(BundleTooLarge);
    }
    var input := new Input(bytes);
    var magic :- input.Take(8);
    if magic != BundleMagic() {
      return Err(InvalidMagic);
    }
    ParseCheck(AssetList, DistinctFirsts, input.Remaining());
    ParseRepeat(4, MAX_ASSETS, AssetFormat, input.Remaining());
    var count :- input.Number(4);
    if count > MAX_ASSETS {
      return Err(TooManyAssets);
    }
    var assets :- GetAssets(input, count);
    DistinctHolds(DistinctFirsts, AssetValues(assets));
    if input.offset != |bytes| {
      return Err(TrailingBytes);
    }
    r := Ok(assets);
  }
}
