/** Piece CIDs: reading the commitment out of a CIDv1, sizing the Fr32 tree that holds a payload, and building
    the PieceCID v2 (FRC-0069) that carries the commitment, the tree height and the padding. */
module PieceCid {
  import opened Wrappers
  import opened Positional
  import opened Uvarint
  import opened Base32

  const CID_VERSION := 1
  const CODEC_RAW := 0x55
  const CODEC_FIL_COMMITMENT_UNSEALED := 0xF101
  const MH_FR32_SHA256_TRUNC254_PADBINTREE := 0x1011
  const MH_SHA2_256_TRUNC254_PADDED := 0x1012

  datatype CidError =
    | BadText(text: Base32.Error)
    | BadVarint(varint: Uvarint.Error)
    | UnsupportedVersion
    | UnexpectedCodec
    | UnexpectedMultihash
    | UnexpectedDigestSize
    | TruncatedCid
    | TrailingBytes
    | PayloadTooSmall
    | InvalidPadding
    | HeightNotAByte

  function ReadText(cid: string): Result<seq<byte>, CidError> {
    match Base32.DecodeCid(cid)
    case Ok(data) => Ok(data)
    case Err(e) => Err(BadText(e))
  }

  function ReadVarint(data: seq<byte>, offset: nat): Result<Decoded, CidError> {
    match Uvarint.Decode(data, offset)
    case Ok(d) => Ok(d)
    case Err(e) => Err(BadVarint(e))
  }

  /** Python's `data[start:start + length]`, which stops at the end of the data. */
  function Slice(data: seq<byte>, start: nat, length: nat): (s: seq<byte>) {
    if start >= |data| then []
    else if start + length >= |data| then data[start..]
    else data[start..start + length]
  }

  /** All four varints are read before any of them is checked. */
  function ExtractFromBytes(data: seq<byte>): Result<seq<byte>, CidError> {
    var version :- ReadVarint(data, 0);
    var codec :- ReadVarint(data, version.end);
    var mhCode :- ReadVarint(data, codec.end);
    var digestSize :- ReadVarint(data, mhCode.end);
    if version.value != CID_VERSION then Err(UnsupportedVersion)
    else if codec.value != CODEC_FIL_COMMITMENT_UNSEALED then Err(UnexpectedCodec)
    else if mhCode.value != MH_SHA2_256_TRUNC254_PADDED then Err(UnexpectedMultihash)
    else if digestSize.value != 32 then Err(UnexpectedDigestSize)
    else
      var digest := Slice(data, digestSize.end, digestSize.value);
      if |digest| != digestSize.value then Err(TruncatedCid)
      else if digestSize.end + digestSize.value != |data| then Err(TrailingBytes)
      else Ok(digest)
  }

  function ExtractCommitment(cid: string): (r: Result<seq<byte>, CidError>)
    ensures r.Ok? ==> |r.value| == 32
  {
    var data :- ReadText(cid);
    ExtractFromBytes(data)
  }

  /** The bytes are the four varints of a CIDv1 CommP, in any spelling, and a digest of 32 bytes. */
  ghost predicate IsCommP(data: seq<byte>, digest: seq<byte>, version: seq<byte>, codec: seq<byte>, mhCode: seq<byte>,
                          size: seq<byte>)
  {
    && Spells(version, CID_VERSION) && Spells(codec, CODEC_FIL_COMMITMENT_UNSEALED)
    && Spells(mhCode, MH_SHA2_256_TRUNC254_PADDED) && Spells(size, 32)
    && |digest| == 32 && data == version + codec + mhCode + size + digest
  }

  lemma FiveParts(a: seq<byte>, b: seq<byte>, c: seq<byte>, d: seq<byte>, e: seq<byte>)
    ensures a + b + c + d + e == [] + a + (b + c + d + e)
    ensures a + b + c + d + e == a + b + (c + d + e)
    ensures a + b + c + d + e == (a + b + c) + (d + e)
  {
  }

  lemma ExtractSteps(data: seq<byte>, o1: nat, o2: nat, o3: nat, o4: nat)
    requires Decode(data, 0) == Ok(Decoded(CID_VERSION, o1))
    requires Decode(data, o1) == Ok(Decoded(CODEC_FIL_COMMITMENT_UNSEALED, o2))
    requires Decode(data, o2) == Ok(Decoded(MH_SHA2_256_TRUNC254_PADDED, o3))
    requires Decode(data, o3) == Ok(Decoded(32, o4)) && |data| == o4 + 32
    ensures ExtractFromBytes(data) == Ok(data[o4..])
  {
    hide Decode;
  }

  lemma CommPIsRead(data: seq<byte>, digest: seq<byte>, version: seq<byte>, codec: seq<byte>, mhCode: seq<byte>,
                    size: seq<byte>)
    requires IsCommP(data, digest, version, codec, mhCode, size)
    ensures ExtractFromBytes(data) == Ok(digest)
  {
    hide Decode, Spells, ExtractFromBytes;
    var p2, p3, p4 := version + codec, version + codec + mhCode, version + codec + mhCode + size;
    FiveParts(version, codec, mhCode, size, digest);
    SpellingIsRead([], version, codec + mhCode + size + digest, CID_VERSION);
    SpellingIsRead(version, codec, mhCode + size + digest, CODEC_FIL_COMMITMENT_UNSEALED);
    SpellingIsRead(p2, mhCode, size + digest, MH_SHA2_256_TRUNC254_PADDED);
    SpellingIsRead(p3, size, digest, 32);
    ExtractSteps(data, |version|, |p2|, |p3|, |p4|);
    assert data[|p4|..] == digest;
  }

  lemma ExtractedInSteps(data: seq<byte>) returns (o1: nat, o2: nat, o3: nat, o4: nat)
    requires ExtractFromBytes(data).Ok?
    ensures Decode(data, 0) == Ok(Decoded(CID_VERSION, o1))
    ensures Decode(data, o1) == Ok(Decoded(CODEC_FIL_COMMITMENT_UNSEALED, o2))
    ensures Decode(data, o2) == Ok(Decoded(MH_SHA2_256_TRUNC254_PADDED, o3))
    ensures Decode(data, o3) == Ok(Decoded(32, o4)) && |data| == o4 + 32
    ensures ExtractFromBytes(data).value == data[o4..]
  {
    hide Decode;
    o1 := Decode(data, 0).value.end;
    o2 := Decode(data, o1).value.end;
    o3 := Decode(data, o2).value.end;
    o4 := Decode(data, o3).value.end;
  }

  lemma ReadIsCommP(data: seq<byte>) returns (version: seq<byte>, codec: seq<byte>, mhCode: seq<byte>, size: seq<byte>)
    requires ExtractFromBytes(data).Ok?
    ensures IsCommP(data, ExtractFromBytes(data).value, version, codec, mhCode, size)
  {
    hide Decode, Spells, ExtractFromBytes;
    var o1, o2, o3, o4 := ExtractedInSteps(data);
    ReadIsSpelling(data, 0);
    ReadIsSpelling(data, o1);
    ReadIsSpelling(data, o2);
    ReadIsSpelling(data, o3);
    version, codec, mhCode, size := data[0..o1], data[o1..o2], data[o2..o3], data[o3..o4];
    assert data == version + codec + mhCode + size + data[o4..];
  }

  ghost predicate HasCommP(data: seq<byte>, digest: seq<byte>) {
    exists version, codec, mhCode, size :: IsCommP(data, digest, version, codec, mhCode, size)
  }

  /** Exactly what the reader accepts, and what it returns. */
  lemma ReadsExactlyCommP(data: seq<byte>, digest: seq<byte>)
    ensures ExtractFromBytes(data) == Ok(digest) <==> HasCommP(data, digest)
  {
    hide ExtractFromBytes, IsCommP;
    if ExtractFromBytes(data) == Ok(digest) {
      var version, codec, mhCode, size := ReadIsCommP(data);
      assert IsCommP(data, digest, version, codec, mhCode, size);
    }
    if HasCommP(data, digest) {
      var version, codec, mhCode, size :| IsCommP(data, digest, version, codec, mhCode, size);
      CommPIsRead(data, digest, version, codec, mhCode, size);
    }
  }

  /** A CID is refused for what is wrong with it. */
  lemma RefusedCids(data: seq<byte>)
    requires ExtractFromBytes(data).Err?
    ensures var version := Decode(data, 0);
            var codec := if version.Ok? then Decode(data, version.value.end) else version;
            var mhCode := if codec.Ok? then Decode(data, codec.value.end) else codec;
            var size := if mhCode.Ok? then Decode(data, mhCode.value.end) else mhCode;
            match ExtractFromBytes(data).error
            case BadVarint(e) => size == Err(e)
            case UnsupportedVersion => version.Ok? && version.value.value != 1
            case UnexpectedCodec => codec.Ok? && codec.value.value != 0xF101
            case UnexpectedMultihash => mhCode.Ok? && mhCode.value.value != 0x1012
            case UnexpectedDigestSize => size.Ok? && size.value.value != 32
            case TruncatedCid => size.Ok? && |data| < size.value.end + 32
            case TrailingBytes => size.Ok? && |data| > size.value.end + 32
            case _ => false
  {
    hide Decode;
  }

  // ---- the Fr32 tree ----

  datatype Tree = Tree(height: nat, padding: nat)

  /** Payload bytes that a tree of `32 << height` bytes holds: 127 of every whole 128. */
  function Capacity(height: nat): nat {
    ShiftLeft(32, height) / 128 * 127
  }

  function Fr32Size(payload: nat): nat {
    var size := payload * 128 / 127;
    if size * 127 != payload * 128 then size + 1 else size
  }

  function TreeHeight(payload: nat): nat {
    var size := Fr32Size(payload);
    if size <= 32 then 0 else BitLengthLeast(size - 1, 5); BitLength(size - 1) - 5
  }

  function TreeFor(payload: int): Result<Tree, CidError> {
    if payload < 127 then Err(PayloadTooSmall)
    else
      var height := TreeHeight(payload);
      var padding := Capacity(height) - payload;
      if padding < 0 then Err(InvalidPadding) else Ok(Tree(height, padding))
  }

  function PaddedPieceSize(payload: int): Result<nat, CidError> {
    var tree :- TreeFor(payload);
    Ok(ShiftLeft(32, tree.height))
  }

  lemma Fr32SizeIsCeiling(payload: nat, x: nat)
    ensures Fr32Size(payload) <= x <==> payload * 128 <= 127 * x
  {
  }

  lemma WholeBlocks(quarter: nat)
    ensures 32 * (4 * quarter) / 128 * 127 == 127 * quarter
  {
  }

  lemma CapacityHolds(payload: nat, height: nat)
    requires payload >= 127
    ensures Capacity(height) >= payload <==> Fr32Size(payload) <= Pow(2, height + 5)
    ensures height >= 2 ==> Capacity(height) == 127 * Pow(2, height - 2)
    ensures height >= 2 ==> ShiftLeft(32, height) == 128 * Pow(2, height - 2)
  {
    var x := Pow(2, height);
    PowAdd(2, height, 5);
    assert Pow(2, 5) == 32;
    Fr32SizeIsCeiling(payload, 32 * x);
    if height < 2 {
      assert Pow(2, 0) == 1 && Pow(2, 1) == 2;
      hide Pow, Fr32Size;
    } else {
      PowAdd(2, height - 2, 2);
      assert Pow(2, 2) == 4;
      hide Pow, Fr32Size;
      assert x == 4 * Pow(2, height - 2);
      WholeBlocks(Pow(2, height - 2));
    }
  }

  /** The tree is optimal: a tree of height `k` holds the payload exactly when `k` is at least the chosen height. */
  lemma HeightIsLeast(payload: nat, k: nat)
    requires payload >= 127
    ensures Capacity(k) >= payload <==> TreeHeight(payload) <= k
  {
    CapacityHolds(payload, k);
    Fr32SizeIsCeiling(payload, 32);
    BitLengthLeast(Fr32Size(payload) - 1, k + 5);
  }

  /** Sizing never fails from 127 bytes up, so the negative-padding error is unreachable; the padding is what the
      payload leaves of the capacity, and less than half of it. */
  lemma TreeIsExact(payload: int)
    ensures TreeFor(payload).Ok? <==> payload >= 127
    ensures TreeFor(payload).Err? ==> TreeFor(payload).error == PayloadTooSmall
    ensures TreeFor(payload).Ok? ==>
              var t := TreeFor(payload).value;
              payload == Capacity(t.height) - t.padding && 2 * t.padding < Capacity(t.height)
  {
    if payload >= 127 {
      var h := TreeHeight(payload);
      HeightIsLeast(payload, h);
      CapacityHolds(payload, h);
      HeightIsLeast(payload, 1);
      CapacityHolds(payload, 1);
      Fr32SizeIsCeiling(payload, 64);
      assert Pow(2, 6) == 64;
      HeightIsLeast(payload, h - 1);
      CapacityHolds(payload, h - 1);
      if h == 2 {
        assert Pow(2, 0) == 1;
      }
    }
  }

  /** Sizes of pieces: the powers of two from 128 bytes up. */
  ghost predicate IsPieceSize(size: nat) {
    exists k :: 7 <= k && size == Pow(2, k)
  }

  /** A piece of this size is the least that holds the payload, of 127 bytes at least, in 127 of every 128 bytes. */
  ghost predicate IsLeastSizeFor(size: nat, payload: int) {
    && payload >= 127 && IsPieceSize(size) && payload <= size / 128 * 127
    && forall other: nat :: IsPieceSize(other) && payload <= other / 128 * 127 ==> size <= other
  }

  lemma SizeOfHeight(height: nat)
    requires height >= 2
    ensures ShiftLeft(32, height) == Pow(2, height + 5) == 128 * Pow(2, height - 2)
    ensures Capacity(height) == Pow(2, height + 5) / 128 * 127
  {
    PowAdd(2, height, 5);
    assert Pow(2, 5) == 32;
    CapacityHolds(127, height);
  }

  /** The size that a payload implies is the least size of a piece that holds it; below 127 bytes there is none. */
  lemma ImpliedSizeIsLeast(payload: int, size: nat)
    ensures PaddedPieceSize(payload) == Ok(size) <==> IsLeastSizeFor(size, payload)
    ensures payload < 127 ==> PaddedPieceSize(payload) == Err(PayloadTooSmall)
    ensures payload >= 127 ==> PaddedPieceSize(payload).Ok?
  {
    TreeIsExact(payload);
    if payload >= 127 {
      var h := TreeHeight(payload);
      hide TreeHeight, Pow, Capacity, ShiftLeft;
      AtLeastTwo(payload);
      SizeOfHeight(h);
      HeightIsLeast(payload, h);
      var implied := Pow(2, h + 5);
      assert IsPieceSize(implied);
      forall other: nat | IsPieceSize(other) && payload <= other / 128 * 127
        ensures implied <= other
      {
        var k :| 7 <= k && other == Pow(2, k);
        SizeOfHeight(k - 5);
        HeightIsLeast(payload, k - 5);
        PowMonotone(2, h + 5, k);
      }
    }
  }

  lemma AtLeastTwo(payload: int)
    requires payload >= 127
    ensures TreeHeight(payload) >= 2
  {
    HeightIsLeast(payload, 1);
    assert Pow(2, 1) == 2;
  }

  lemma HeightIsMonotone(small: nat, large: nat)
    requires 127 <= small <= large
    ensures TreeHeight(small) <= TreeHeight(large)
  {
    HeightIsLeast(large, TreeHeight(large));
    HeightIsLeast(small, TreeHeight(large));
  }

  // ---- PieceCID v2 ----

  function V2Digest(commitment: seq<byte>, tree: Tree): seq<byte>
    requires tree.height < 256
  {
    Encode(tree.padding) + [tree.height] + commitment
  }

  function V2Bytes(commitment: seq<byte>, tree: Tree): seq<byte>
    requires tree.height < 256
  {
    var digest := V2Digest(commitment, tree);
    var multihash := Encode(MH_FR32_SHA256_TRUNC254_PADBINTREE) + Encode(|digest|) + digest;
    Encode(CID_VERSION) + Encode(CODEC_RAW) + multihash
  }

  /** The height is written as one byte, which fails for the trees of astronomically large payloads. */
  function PieceCidV1ToV2(cid: string, payload: int): Result<string, CidError> {
    var commitment :- ExtractCommitment(cid);
    var tree :- TreeFor(payload);
    if tree.height >= 256 then Err(HeightNotAByte)
    else Ok(EncodeCid(V2Bytes(commitment, tree)))
  }

  lemma Flattened(a: seq<byte>, b: seq<byte>, c: seq<byte>, d: seq<byte>, e: seq<byte>, f: seq<byte>, g: seq<byte>)
    ensures a + b + (c + d + (e + f + g)) == (a + b + c) + d + e + f + g
  {
  }

  lemma V2BytesLayout(commitment: seq<byte>, tree: Tree)
    requires |commitment| == 32 && tree.height < 256
    ensures V2Bytes(commitment, tree)
         == [0x01, 0x55, 0x91, 0x20] + Encode(|Encode(tree.padding)| + 33) + Encode(tree.padding) + [tree.height]
            + commitment
  {
    LeadingBytes();
    hide Encode;
    var length, padding := |V2Digest(commitment, tree)|, Encode(tree.padding);
    assert length == |padding| + 33;
    Flattened([0x01], [0x55], [0x91, 0x20], Encode(length), padding, [tree.height], commitment);
    assert [0x01] + [0x55] + [0x91, 0x20] == [0x01, 0x55, 0x91, 0x20];
  }

  /** Byte for byte: version 1, the raw codec 0x55, the multihash code 0x1011 in its two bytes, the length of what
      follows, the padding, the height and the commitment. */
  lemma V2Layout(cid: string, payload: int)
    requires PieceCidV1ToV2(cid, payload).Ok?
    ensures var tree, commitment := TreeFor(payload).value, ExtractCommitment(cid).value;
            && tree.height < 256
            && PieceCidV1ToV2(cid, payload).value
               == EncodeCid([0x01, 0x55, 0x91, 0x20] + Encode(|Encode(tree.padding)| + 33) + Encode(tree.padding)
                            + [tree.height] + commitment)
  {
    hide ExtractFromBytes, TreeFor, Encode, EncodeCid, V2Bytes;
    V2BytesLayout(ExtractCommitment(cid).value, TreeFor(payload).value);
  }

  lemma LeadingBytes()
    ensures Encode(CID_VERSION) == [0x01] && Encode(CODEC_RAW) == [0x55]
    ensures Encode(MH_FR32_SHA256_TRUNC254_PADBINTREE) == [0x91, 0x20]
  {
    assert Encode(0x20) == [0x20];
  }

  /** The payloads that have a PieceCID v2, for a CIDv1 whose commitment can be read. */
  lemma ConvertiblePayloads(cid: string, payload: int)
    ensures PieceCidV1ToV2(cid, payload).Ok? <==>
              ExtractCommitment(cid).Ok? && 127 <= payload <= 127 * Pow(2, 253)
  {
    hide ExtractCommitment, V2Bytes, EncodeCid, TreeHeight;
    TreeIsExact(payload);
    if payload >= 127 {
      HeightIsLeast(payload, 255);
      CapacityHolds(payload, 255);
    }
  }

  datatype Piece = Piece(commitment: seq<byte>, payload: int)

  /** Reads a PieceCID v2 back with the same varint and base32 decoders. */
  function ParseV2(cid: string): Result<Piece, CidError> {
    var data :- ReadText(cid);
    ParseV2Bytes(data)
  }

  function ParseV2Bytes(data: seq<byte>): Result<Piece, CidError> {
    var version :- ReadVarint(data, 0);
    var codec :- ReadVarint(data, version.end);
    var mhCode :- ReadVarint(data, codec.end);
    var digestSize :- ReadVarint(data, mhCode.end);
    var padding :- ReadVarint(data, digestSize.end);
    if version.value != CID_VERSION then Err(UnsupportedVersion)
    else if codec.value != CODEC_RAW then Err(UnexpectedCodec)
    else if mhCode.value != MH_FR32_SHA256_TRUNC254_PADBINTREE then Err(UnexpectedMultihash)
    else if |data| != padding.end + 33 then Err(TruncatedCid)
    else if |data| != digestSize.end + digestSize.value then Err(UnexpectedDigestSize)
    else Ok(Piece(data[padding.end + 1..], Capacity(data[padding.end]) - padding.value))
  }

  lemma ReadEncoded(data: seq<byte>, pre: seq<byte>, v: nat, suffix: seq<byte>)
    requires data == pre + Encode(v) + suffix
    ensures ReadVarint(data, |pre|)
         == if v < LIMIT then Ok(Decoded(v, |pre| + |Encode(v)|)) else Err(BadVarint(Overflow))
  {
    RoundTrip(pre, v, suffix);
  }

  /** A tree height that fits in a byte bounds the padding, hence the length of its varint. */
  lemma {:induction false} EncodeLength(v: nat, groups: nat)
    requires groups > 0 && v < Pow(2, 7 * groups)
    ensures |Encode(v)| <= groups
  {
    if v >= 128 {
      assert Pow(2, 7) == 128;
      assert groups > 1;
      PowAdd(2, 7, 7 * (groups - 1));
      EncodeLength(v / 128, groups - 1);
    }
  }

  lemma DigestLength(commitment: seq<byte>, tree: Tree)
    requires |commitment| == 32 && tree.height < 256 && tree.padding < Capacity(tree.height)
    ensures |V2Digest(commitment, tree)| == |Encode(tree.padding)| + 33 < 128
  {
    HeightBoundsCapacity(tree.height);
    EncodeLength(tree.padding, 38);
  }

  lemma HeightBoundsCapacity(height: nat)
    requires height < 256
    ensures Capacity(height) <= Pow(2, 266)
  {
    PowMonotone(2, height, 255);
    PowAdd(2, 255, 11);
    assert Pow(2, 11) == 2048;
    assert Capacity(height) <= ShiftLeft(32, height);
  }

  lemma ParseSteps(data: seq<byte>, e: nat, length: nat, padding: Result<Decoded, CidError>)
    requires ReadVarint(data, 0).Ok? && ReadVarint(data, 0).value.value == CID_VERSION
    requires var o1 := ReadVarint(data, 0).value.end;
             && ReadVarint(data, o1).Ok? && ReadVarint(data, o1).value.value == CODEC_RAW
             && var o2 := ReadVarint(data, o1).value.end;
             && ReadVarint(data, o2).Ok? && ReadVarint(data, o2).value.value == MH_FR32_SHA256_TRUNC254_PADBINTREE
             && var o3 := ReadVarint(data, o2).value.end;
             && ReadVarint(data, o3) == Ok(Decoded(length, e))
    requires |data| == e + length && ReadVarint(data, e) == padding
    requires padding.Ok? ==> |data| == padding.value.end + 33
    ensures ParseV2Bytes(data)
         == if padding.Err? then Err(padding.error)
            else Ok(Piece(data[padding.value.end + 1..], Capacity(data[padding.value.end]) - padding.value.value))
  {
    hide ReadVarint, Capacity;
  }

  lemma Regrouped(e0: seq<byte>, e1: seq<byte>, e2: seq<byte>, e3: seq<byte>, e4: seq<byte>, tail: seq<byte>)
    ensures var data := e0 + e1 + (e2 + e3 + (e4 + tail));
            && data == [] + e0 + (e1 + e2 + e3 + e4 + tail)
            && data == e0 + e1 + (e2 + e3 + e4 + tail)
            && data == (e0 + e1) + e2 + (e3 + e4 + tail)
            && data == (e0 + e1 + e2) + e3 + (e4 + tail)
            && data == (e0 + e1 + e2 + e3) + e4 + tail
  {
  }

  lemma HeadOfTail(pre: seq<byte>, head: byte, rest: seq<byte>)
    ensures (pre + ([head] + rest))[|pre|] == head && (pre + ([head] + rest))[|pre| + 1..] == rest
  {
  }

  lemma ReadsBuilt(e4v: nat, length: nat, tail: seq<byte>)
    requires length < LIMIT
    ensures var e0, e1 := Encode(CID_VERSION), Encode(CODEC_RAW);
            var e2, e3 := Encode(MH_FR32_SHA256_TRUNC254_PADBINTREE), Encode(length);
            var data := e0 + e1 + (e2 + e3 + (Encode(e4v) + tail));
            var o1, o2, o3, o4 := |e0|, |e0 + e1|, |e0 + e1 + e2|, |e0 + e1 + e2 + e3|;
            && ReadVarint(data, 0) == Ok(Decoded(CID_VERSION, o1))
            && ReadVarint(data, o1) == Ok(Decoded(CODEC_RAW, o2))
            && ReadVarint(data, o2) == Ok(Decoded(MH_FR32_SHA256_TRUNC254_PADBINTREE, o3))
            && ReadVarint(data, o3) == Ok(Decoded(length, o4))
            && ReadVarint(data, o4) == if e4v < LIMIT then Ok(Decoded(e4v, o4 + |Encode(e4v)|))
                                       else Err(BadVarint(Overflow))
  {
    SmallBelowLimit();
    hide Encode, ReadVarint;
    var e0, e1 := Encode(CID_VERSION), Encode(CODEC_RAW);
    var e2, e3, e4 := Encode(MH_FR32_SHA256_TRUNC254_PADBINTREE), Encode(length), Encode(e4v);
    var data := e0 + e1 + (e2 + e3 + (e4 + tail));
    Regrouped(e0, e1, e2, e3, e4, tail);
    ReadEncoded(data, e0 + e1 + e2 + e3, e4v, tail);
    ReadEncoded(data, e0 + e1 + e2, length, e4 + tail);
    ReadEncoded(data, e0 + e1, MH_FR32_SHA256_TRUNC254_PADBINTREE, e3 + e4 + tail);
    ReadEncoded(data, e0, CODEC_RAW, e2 + e3 + e4 + tail);
    ReadEncoded(data, [], CID_VERSION, e1 + e2 + e3 + e4 + tail);
  }

  lemma ParseConcatenated(length: nat, padding: nat, height: nat, commitment: seq<byte>)
    requires |commitment| == 32 && height < 256 && length == |Encode(padding)| + 33 < LIMIT
    ensures var data := Encode(CID_VERSION) + Encode(CODEC_RAW)
                        + (Encode(MH_FR32_SHA256_TRUNC254_PADBINTREE) + Encode(length)
                           + (Encode(padding) + ([height] + commitment)));
            ParseV2Bytes(data) == if padding < LIMIT then Ok(Piece(commitment, Capacity(height) - padding))
                                  else Err(BadVarint(Overflow))
  {
    hide Encode, Capacity, ReadVarint, ParseV2Bytes;
    var tail := [height] + commitment;
    var e0, e1, e2 := Encode(CID_VERSION), Encode(CODEC_RAW), Encode(MH_FR32_SHA256_TRUNC254_PADBINTREE);
    var e3, e4 := Encode(length), Encode(padding);
    var data, prefix := e0 + e1 + (e2 + e3 + (e4 + tail)), e0 + e1 + e2 + e3;
    ReadsBuilt(padding, length, tail);
    Regrouped(e0, e1, e2, e3, e4, tail);
    HeadOfTail(prefix + e4, height, commitment);
    assert |data| == |prefix| + length && |prefix + e4| == |prefix| + |e4|;
    ParseSteps(data, |prefix|, length, ReadVarint(data, |prefix|));
  }

  lemma DigestInTwo(commitment: seq<byte>, tree: Tree)
    requires tree.height < 256
    ensures V2Digest(commitment, tree) == Encode(tree.padding) + ([tree.height] + commitment)
  {
    hide Encode;
  }

  lemma BytesWithDigest(commitment: seq<byte>, tree: Tree, digest: seq<byte>)
    requires tree.height < 256 && digest == V2Digest(commitment, tree)
    ensures V2Bytes(commitment, tree)
         == Encode(CID_VERSION) + Encode(CODEC_RAW)
            + (Encode(MH_FR32_SHA256_TRUNC254_PADBINTREE) + Encode(|digest|) + digest)
  {
    hide Encode, V2Digest;
  }

  lemma ParseBuilt(commitment: seq<byte>, tree: Tree)
    requires |commitment| == 32 && tree.height < 256 && tree.padding < Capacity(tree.height)
    ensures ParseV2Bytes(V2Bytes(commitment, tree))
         == if tree.padding < LIMIT then Ok(Piece(commitment, Capacity(tree.height) - tree.padding))
            else Err(BadVarint(Overflow))
  {
    DigestLength(commitment, tree);
    SmallBelowLimit();
    hide Encode, Capacity, ParseV2Bytes, V2Digest, V2Bytes;
    var digest := Encode(tree.padding) + ([tree.height] + commitment);
    DigestInTwo(commitment, tree);
    BytesWithDigest(commitment, tree, digest);
    ParseConcatenated(|digest|, tree.padding, tree.height, commitment);
  }

  /** Inverse with its exact bound: the string built from a commitment and a payload parses back to both exactly
      when the padding is one that the varint decoder accepts. */
  lemma V2RoundTrip(cid: string, payload: int)
    requires PieceCidV1ToV2(cid, payload).Ok?
    ensures ParseV2(PieceCidV1ToV2(cid, payload).value)
         == if TreeFor(payload).value.padding < LIMIT
            then Ok(Piece(ExtractCommitment(cid).value, payload)) else Err(BadVarint(Overflow))
  {
    hide Capacity, TreeHeight, ExtractFromBytes, ParseV2Bytes, V2Bytes, EncodeCid, DecodeCid;
    var commitment, tree := ExtractCommitment(cid).value, TreeFor(payload).value;
    TreeIsExact(payload);
    ParseBuilt(commitment, tree);
    CidRoundTrip(V2Bytes(commitment, tree));
  }

  lemma SmallBelowLimit()
    ensures LIMIT > 0xFFFF
  {
    PowMonotone(2, 17, 70);
    PowAdd(2, 10, 7);
    assert Pow(2, 10) == 1024 && Pow(2, 7) == 128;
  }

  /** Distinct commitments or payload sizes have distinct PieceCID v2 strings, however large the padding. */
  lemma V2Injective(cid: string, payload: int, cid': string, payload': int)
    requires PieceCidV1ToV2(cid, payload).Ok? && PieceCidV1ToV2(cid', payload').Ok?
    requires PieceCidV1ToV2(cid, payload) == PieceCidV1ToV2(cid', payload')
    ensures ExtractCommitment(cid) == ExtractCommitment(cid') && payload == payload'
  {
    hide Encode, Capacity, TreeHeight, EncodeCid, ExtractFromBytes;
    var c, t := ExtractCommitment(cid).value, TreeFor(payload).value;
    var c', t' := ExtractCommitment(cid').value, TreeFor(payload').value;
    EncodeCidInjective(V2Bytes(c, t), V2Bytes(c', t'));
    SameBytes(c, t, c', t');
    TreeIsExact(payload);
    TreeIsExact(payload');
  }

  lemma SameBytes(c: seq<byte>, t: Tree, c': seq<byte>, t': Tree)
    requires t.height < 256 && t'.height < 256 && V2Bytes(c, t) == V2Bytes(c', t')
    ensures c == c' && t == t'
  {
    hide Encode;
    var d, d' := V2Digest(c, t), V2Digest(c', t');
    var h := Encode(CID_VERSION) + Encode(CODEC_RAW) + Encode(MH_FR32_SHA256_TRUNC254_PADBINTREE);
    assert V2Bytes(c, t) == h + (Encode(|d|) + d);
    assert V2Bytes(c', t') == h + (Encode(|d'|) + d');
    assert Encode(|d|) + d == V2Bytes(c, t)[|h|..] == Encode(|d'|) + d';
    PrefixFree(|d|, |d'|, d, d');
    var r, r' := [t.height] + c, [t'.height] + c';
    assert d == Encode(t.padding) + r && d' == Encode(t'.padding) + r';
    PrefixFree(t.padding, t'.padding, r, r');
    assert r[0] == t.height && r'[0] == t'.height && r[1..] == c && r'[1..] == c';
  }
}
