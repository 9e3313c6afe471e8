/** Which pieces of a deal are submitted to Curio, and under which PieceCID v2 and identifier: the rows of an accepted
    manifest that are not accepted yet, each under an identifier of its own. */
module SubmitDdo {
  import opened Wrappers
  import opened Positional
  import opened PieceSetCommitment
  import Uvarint
  import Base32
  import PieceCid
  import CurioIdentifier

  datatype SubmitError =
    | MissingMetadata(row: PieceSetRow)
    | SizeMismatch(row: PieceSetRow, implied: nat)
    | BadPiece(row: PieceSetRow, cause: PieceCid.CidError)

  datatype Submission = Submission(row: PieceSetRow, cidV2: string, identifier: string)

  /** The part of an identifier's seed hash that is used, as a function of the PieceCID v2; the chain, the market and
      the deal are fixed. */
  type SeedHash = string -> nat

  function Identifier(hash: SeedHash, cidV2: string): string {
    CurioIdentifier.Ulid(hash(cidV2))
  }

  // ---- the two readers of a CIDv1 ----

  lemma FixedPrefixIsMinimal()
    ensures Uvarint.Encode(1) + Uvarint.Encode(0xF101) + Uvarint.Encode(0x1012) + Uvarint.Encode(32) == COMMP_CID_PREFIX
    ensures |Uvarint.Encode(1)| == 1 && |Uvarint.Encode(0xF101)| == 3 && |Uvarint.Encode(0x1012)| == 2 &&
            |Uvarint.Encode(32)| == 1
  {
    assert Uvarint.Encode(0xF101) == [0x81] + Uvarint.Encode(482);
    assert Uvarint.Encode(482) == [0xe2] + Uvarint.Encode(3);
    assert Uvarint.Encode(0x1012) == [0x92] + Uvarint.Encode(32);
  }

  lemma Regrouped(e0: seq<byte>, e1: seq<byte>, e2: seq<byte>, e3: seq<byte>, rest: seq<byte>)
    ensures e0 + e1 + e2 + e3 + rest == [] + e0 + (e1 + e2 + e3 + rest)
    ensures e0 + e1 + e2 + e3 + rest == e0 + e1 + (e2 + e3 + rest)
    ensures e0 + e1 + e2 + e3 + rest == e0 + e1 + e2 + (e3 + rest)
  {
  }

  /** What the fixed-prefix check of a piece set accepts, the four-varint reader accepts with the same digest. */
  lemma PrefixImpliesVarints(data: seq<byte>)
    requires CommPDigest(data).Some?
    ensures PieceCid.ExtractFromBytes(data) == Ok(CommPDigest(data).value)
  {
    hide Uvarint.Encode;
    FixedPrefixIsMinimal();
    PieceCid.SmallBelowLimit();
    var digest := CommPDigest(data).value;
    var e0, e1, e2, e3 := Uvarint.Encode(1), Uvarint.Encode(0xF101), Uvarint.Encode(0x1012), Uvarint.Encode(32);
    assert data == e0 + e1 + e2 + e3 + digest;
    Regrouped(e0, e1, e2, e3, digest);
    hide CommPDigest;
    PieceCid.ReadEncoded(data, [], 1, e1 + e2 + e3 + digest);
    PieceCid.ReadEncoded(data, e0, 0xF101, e2 + e3 + digest);
    PieceCid.ReadEncoded(data, e0 + e1, 0x1012, e3 + digest);
    PieceCid.ReadEncoded(data, e0 + e1 + e2, 32, digest);
  }

  lemma MinimalVarintsArePrefix(data: seq<byte>)
    requires PieceCid.ExtractFromBytes(data).Ok?
    ensures |data| >= 39
    ensures |data| == 39 ==> CommPDigest(data).Some?
  {
    FixedPrefixIsMinimal();
    var o1 := Uvarint.Decode(data, 0).value.end;
    var o2 := Uvarint.Decode(data, o1).value.end;
    var o3 := Uvarint.Decode(data, o2).value.end;
    var o4 := Uvarint.Decode(data, o3).value.end;
    hide Uvarint.Encode, Uvarint.DecodeGroups;
    Uvarint.DecodedIsMinimal(data, 0);
    Uvarint.DecodedIsMinimal(data, o1);
    Uvarint.DecodedIsMinimal(data, o2);
    Uvarint.DecodedIsMinimal(data, o3);
    if |data| == 39 {
      assert data[..o4] == data[0..o1] + data[o1..o2] + data[o2..o3] + data[o3..o4];
    }
  }

  /** The fixed-prefix check accepts exactly the 39-byte CIDs that the four-varint reader accepts, with the same digest;
      the longer ones that only the latter accepts spell some varint with more bytes than it needs. */
  lemma ReadersAgree(data: seq<byte>)
    ensures CommPDigest(data).Some? <==> PieceCid.ExtractFromBytes(data).Ok? && |data| == 39
    ensures CommPDigest(data).Some? ==> PieceCid.ExtractFromBytes(data) == Ok(CommPDigest(data).value)
    ensures PieceCid.ExtractFromBytes(data).Ok? ==> |data| >= 39
  {
    hide PieceCid.ExtractFromBytes;
    if CommPDigest(data).Some? {
      PrefixImpliesVarints(data);
    }
    if PieceCid.ExtractFromBytes(data).Ok? {
      MinimalVarintsArePrefix(data);
    }
  }

  /** A CIDv1 whose first varint is written in two bytes is read by one and refused by the other. */
  lemma LongVarintOnlyReadByOne(digest: seq<byte>)
    requires |digest| == 32
    ensures var data := [0x81, 0x00] + COMMP_CID_PREFIX[1..] + digest;
            PieceCid.ExtractFromBytes(data) == Ok(digest) && CommPDigest(data) == None
  {
    var data: seq<byte> := [0x81, 0x00] + COMMP_CID_PREFIX[1..] + digest;
    var version: seq<byte> := [0x81, 0x00];
    var codec: seq<byte>, mhCode: seq<byte>, size: seq<byte> := [0x81, 0xe2, 0x03], [0x92, 0x20], [0x20];
    ShortSpellings();
    assert data == version + codec + mhCode + size + digest;
    hide Uvarint.Spells;
    PieceCid.CommPIsRead(data, digest, version, codec, mhCode, size);
  }

  lemma ShortSpellings()
    ensures Uvarint.Spells([0x81, 0x00], 1) && Uvarint.Spells([0x81, 0xe2, 0x03], 0xF101)
    ensures Uvarint.Spells([0x92, 0x20], 0x1012) && Uvarint.Spells([0x20], 32)
  {
    assert Uvarint.DecodeGroups([0x81, 0x00], 1, 1) == Ok(Uvarint.Decoded(0, 2));
    assert Uvarint.DecodeGroups([0x81, 0xe2, 0x03], 2, 2) == Ok(Uvarint.Decoded(3, 3));
    assert Uvarint.DecodeGroups([0x81, 0xe2, 0x03], 1, 1) == Ok(Uvarint.Decoded(482, 3));
    assert Uvarint.DecodeGroups([0x92, 0x20], 1, 1) == Ok(Uvarint.Decoded(32, 2));
  }

  // ---- the pieces to submit ----

  /** The manifest as a dictionary; a repeated key keeps the last piece. */
  function Metadata(pieces: seq<ManifestPiece>): (table: map<(string, int), ManifestPiece>)
    ensures forall k :: k in table ==> table[k] in pieces && table[k].pieceCid == k.0 && table[k].pieceSize == k.1
    ensures forall p :: p in pieces ==> (p.pieceCid, p.pieceSize) in table
  {
    if pieces == [] then map[]
    else
      var last := pieces[|pieces| - 1];
      Metadata(pieces[..|pieces| - 1])[(last.pieceCid, last.pieceSize) := last]
  }

  function SubmissionFor(table: map<(string, int), ManifestPiece>, hash: SeedHash, row: PieceSetRow)
    : Result<Submission, SubmitError>
  {
    if (row.pieceCid, row.paddedSize) !in table then Err(MissingMetadata(row))
    else
      var fileSize := table[(row.pieceCid, row.paddedSize)].fileSize;
      match PieceCid.PaddedPieceSize(fileSize)
      case Err(e) => Err(BadPiece(row, e))
      case Ok(implied) =>
        if implied != row.paddedSize then Err(SizeMismatch(row, implied))
        else match PieceCid.PieceCidV1ToV2(row.pieceCid, fileSize) {
          case Err(e) => Err(BadPiece(row, e))
          case Ok(cidV2) => Ok(Submission(row, cidV2, Identifier(hash, cidV2)))
        }
  }

  /** Submissions for the rows that are not accepted yet, in order; the first row that fails stops the command. */
  function SubmissionsFor(table: map<(string, int), ManifestPiece>, hash: SeedHash, rows: seq<PieceSetRow>,
                          accepted: set<nat>)
    : Result<seq<Submission>, SubmitError>
  {
    if rows == [] then Ok([])
    else
      var before :- SubmissionsFor(table, hash, rows[..|rows| - 1], accepted);
      var row := rows[|rows| - 1];
      if row.index in accepted then Ok(before)
      else
        var s :- SubmissionFor(table, hash, row);
        Ok(before + [s])
  }

  lemma MetadataStep(pieces: seq<ManifestPiece>, i: nat)
    requires i < |pieces|
    ensures Metadata(pieces[..i + 1]) == Metadata(pieces[..i])[(pieces[i].pieceCid, pieces[i].pieceSize) := pieces[i]]
  {
    assert pieces[..i + 1][..i] == pieces[..i];
  }

  method BuildMetadata(pieces: seq<ManifestPiece>) returns (table: map<(string, int), ManifestPiece>)
    ensures table == Metadata(pieces)
  {
    table := map[];
    assert Metadata(pieces[..0]) == map[];
    hide Metadata;
    for i := 0 to |pieces|
      invariant table == Metadata(pieces[..i])
    {
      MetadataStep(pieces, i);
      table := table[(pieces[i].pieceCid, pieces[i].pieceSize) := pieces[i]];
    }
    assert pieces[..|pieces|] == pieces;
  }

  method PiecesToSubmit(ps: PieceSet, pieces: seq<ManifestPiece>, hash: SeedHash, accepted: set<nat>)
    returns (r: Result<seq<Submission>, SubmitError>)
    ensures r == SubmissionsFor(Metadata(pieces), hash, ps.rows, accepted)
  {
    hide SubmissionFor, Metadata;
    var table := BuildMetadata(pieces);
    var rows := ps.rows;
    var toSubmit: seq<Submission> := [];
    for i := 0 to |rows|
      invariant SubmissionsFor(table, hash, rows[..i], accepted) == Ok(toSubmit)
    {
      assert rows[..i + 1][..i] == rows[..i];
      if rows[i].index in accepted {
        continue;
      }
      var s := SubmissionFor(table, hash, rows[i]);
      if s.Err? {
        FailureStops(table, hash, rows, accepted, i + 1);
        return Err(s.error);
      }
      toSubmit := toSubmit + [s.value];
    }
    assert rows[..|rows|] == rows;
    return Ok(toSubmit);
  }

  lemma {:induction false} FailureStops(table: map<(string, int), ManifestPiece>, hash: SeedHash,
                                        rows: seq<PieceSetRow>, accepted: set<nat>, n: nat)
    requires n <= |rows| && SubmissionsFor(table, hash, rows[..n], accepted).Err?
    ensures SubmissionsFor(table, hash, rows, accepted) == SubmissionsFor(table, hash, rows[..n], accepted)
  {
    if n == |rows| {
      assert rows[..n] == rows;
    } else {
      assert rows[..|rows| - 1][..n] == rows[..n];
      FailureStops(table, hash, rows[..|rows| - 1], accepted, n);
    }
  }

  lemma RowHasPiece(decode: Multibase, pieces: seq<ManifestPiece>, i: nat) returns (j: nat)
    requires PieceSetOf(decode, pieces).Ok? && i < |PieceSetOf(decode, pieces).value.rows|
    ensures var row := PieceSetOf(decode, pieces).value.rows[i];
            && j < |pieces| && ParsePiece(decode, pieces[j]) == Ok(Parsed(row.pieceCid, row.digest, row.paddedSize))
  {
    AcceptedManifests(decode, pieces);
    var parsed, sorted := ParseAll(decode, pieces).value, Canonical(decode, pieces);
    SortIsOrderedPermutation(parsed);
    hide Sort, ParseAll, PieceSetOf, TreeOf, LeavesOf, TotalSize, Keys, StrictlyAscending, Ascending, Contents;
    assert sorted[i] in multiset(parsed);
    j :| 0 <= j < |parsed| && parsed[j] == sorted[i];
  }

  lemma KeysIdentifyPieces(decode: Multibase, pieces: seq<ManifestPiece>, j: nat, k: nat)
    requires PieceSetOf(decode, pieces).Ok? && j < |pieces| && k < |pieces|
    requires KeyOf(ParsePiece(decode, pieces[j]).value) == KeyOf(ParsePiece(decode, pieces[k]).value)
    ensures pieces[j] == pieces[k]
  {
    AcceptedManifests(decode, pieces);
    var keys := Keys(ParseAll(decode, pieces).value);
    assert keys[j] == keys[k];
  }

  /** The only piece of the manifest with a digest and size. */
  ghost predicate OnlyPieceOf(decode: Multibase, pieces: seq<ManifestPiece>, key: Key, p: ManifestPiece) {
    forall q :: q in pieces && ParsePiece(decode, q).Ok? && KeyOf(ParsePiece(decode, q).value) == key ==> q == p
  }

  lemma PieceIsOnly(decode: Multibase, pieces: seq<ManifestPiece>, j: nat)
    requires PieceSetOf(decode, pieces).Ok? && j < |pieces|
    ensures ParsePiece(decode, pieces[j]).Ok?
    ensures OnlyPieceOf(decode, pieces, KeyOf(ParsePiece(decode, pieces[j]).value), pieces[j])
  {
    PieceParses(decode, pieces, j);
    hide PieceSetOf, ParsePiece;
    forall q | q in pieces && ParsePiece(decode, q).Ok? &&
      KeyOf(ParsePiece(decode, q).value) == KeyOf(ParsePiece(decode, pieces[j]).value)
      ensures q == pieces[j]
    {
      var k :| 0 <= k < |pieces| && pieces[k] == q;
      KeysIdentifyPieces(decode, pieces, j, k);
    }
  }

  /** Every row of an accepted manifest finds its own metadata: the missing-metadata error cannot occur, and the piece
      found is the only one of the manifest with the row's digest and size. */
  lemma MetadataIsFound(decode: Multibase, pieces: seq<ManifestPiece>, i: nat)
    requires PieceSetOf(decode, pieces).Ok? && i < |PieceSetOf(decode, pieces).value.rows|
    ensures var row := PieceSetOf(decode, pieces).value.rows[i];
            && (row.pieceCid, row.paddedSize) in Metadata(pieces)
            && var p := Metadata(pieces)[(row.pieceCid, row.paddedSize)];
            && ParsePiece(decode, p) == Ok(Parsed(row.pieceCid, row.digest, row.paddedSize))
            && OnlyPieceOf(decode, pieces, Key(row.digest, row.paddedSize), p)
  {
    var j := RowHasPiece(decode, pieces, i);
    PieceIsOnly(decode, pieces, j);
    hide PieceSetOf, Metadata, CommPDigest, OnlyPieceOf;
    var row := PieceSetOf(decode, pieces).value.rows[i];
    assert pieces[j] in pieces && pieces[j].pieceCid == row.pieceCid && pieces[j].pieceSize == row.paddedSize;
    var p := Metadata(pieces)[(row.pieceCid, row.paddedSize)];
    var m :| 0 <= m < |pieces| && pieces[m] == p;
    PieceParses(decode, pieces, m);
    SameReading(decode, pieces[j], p);
    KeysIdentifyPieces(decode, pieces, j, m);
  }

  lemma SameReading(decode: Multibase, p: ManifestPiece, q: ManifestPiece)
    requires p.pieceCid == q.pieceCid && p.pieceSize == q.pieceSize
    ensures ParsePiece(decode, p) == ParsePiece(decode, q)
  {
  }

  lemma PieceParses(decode: Multibase, pieces: seq<ManifestPiece>, m: nat)
    requires PieceSetOf(decode, pieces).Ok? && m < |pieces|
    ensures ParsePiece(decode, pieces[m]).Ok?
  {
  }

  /** Both decoders give one reading of each CID of the manifest that both accept. */
  ghost predicate DecodersAgree(decode: Multibase, pieces: seq<ManifestPiece>) {
    forall p :: p in pieces && decode(p.pieceCid).Some? && Base32.DecodeCid(p.pieceCid).Ok? ==>
      decode(p.pieceCid).value == Base32.DecodeCid(p.pieceCid).value
  }

  lemma SubmissionMeans(decode: Multibase, pieces: seq<ManifestPiece>, hash: SeedHash, i: nat)
    requires PieceSetOf(decode, pieces).Ok? && i < |PieceSetOf(decode, pieces).value.rows| &&
             DecodersAgree(decode, pieces)
    requires SubmissionFor(Metadata(pieces), hash, PieceSetOf(decode, pieces).value.rows[i]).Ok?
    ensures var row := PieceSetOf(decode, pieces).value.rows[i];
            var s := SubmissionFor(Metadata(pieces), hash, row).value;
            var fileSize := Metadata(pieces)[(row.pieceCid, row.paddedSize)].fileSize;
            && PieceCid.PieceCidV1ToV2(row.pieceCid, fileSize) == Ok(s.cidV2)
            && PieceCid.ExtractCommitment(row.pieceCid) == Ok(row.digest)
            && PieceCid.PaddedPieceSize(fileSize) == Ok(row.paddedSize)
            && s.row == row && s.identifier == Identifier(hash, s.cidV2)
  {
    hide PieceSetOf, PieceCid.ExtractFromBytes, PieceCid.TreeFor, PieceCid.V2Bytes, Base32.DecodeCid, Base32.EncodeCid;
    MetadataIsFound(decode, pieces, i);
    var row := PieceSetOf(decode, pieces).value.rows[i];
    PrefixImpliesVarints(decode(row.pieceCid).value);
  }

  lemma LeastSizeHolds(size: nat, payload: int)
    requires PieceCid.IsLeastSizeFor(size, payload)
    ensures 127 <= payload <= size
  {
  }

  lemma ConvertsExactlyWhen(decode: Multibase, cid: string, payload: nat)
    requires decode(cid).Some? && CommPDigest(decode(cid).value).Some? && 127 <= payload <= MAX_UINT64
    requires Base32.DecodeCid(cid).Ok? ==> decode(cid).value == Base32.DecodeCid(cid).value
    ensures PieceCid.PieceCidV1ToV2(cid, payload).Ok? <==> Base32.DecodeCid(cid).Ok?
    ensures Base32.DecodeCid(cid).Err? ==>
              PieceCid.PieceCidV1ToV2(cid, payload) == Err(PieceCid.BadText(Base32.DecodeCid(cid).error))
  {
    hide CommPDigest, PieceCid.ExtractFromBytes, PieceCid.TreeFor, PieceCid.V2Bytes, Base32.DecodeCid;
    PrefixImpliesVarints(decode(cid).value);
    LargestSize();
    PieceCid.ConvertiblePayloads(cid, payload);
  }

  lemma LargestSize()
    ensures MAX_UINT64 <= 127 * Pow(2, 253)
  {
    hide Pow;
    PowMonotone(2, 64, 253);
    PowAdd(2, 32, 32);
    PowAdd(2, 16, 16);
    PowAdd(2, 8, 8);
    TwoToTheEighth();
  }

  lemma TwoToTheEighth()
    ensures Pow(2, 8) == 0x100
  {
  }

  lemma NoSubmission(table: map<(string, int), ManifestPiece>, hash: SeedHash, row: PieceSetRow)
    requires (row.pieceCid, row.paddedSize) in table
    ensures var fileSize := table[(row.pieceCid, row.paddedSize)].fileSize;
            var r := SubmissionFor(table, hash, row);
            match PieceCid.PaddedPieceSize(fileSize)
            case Err(e) => r == Err(BadPiece(row, e))
            case Ok(implied) =>
              if implied != row.paddedSize then r == Err(SizeMismatch(row, implied))
              else if PieceCid.PieceCidV1ToV2(row.pieceCid, fileSize).Err?
              then r == Err(BadPiece(row, PieceCid.PieceCidV1ToV2(row.pieceCid, fileSize).error)) else r.Ok?
  {
    hide PieceCid.PaddedPieceSize, PieceCid.PieceCidV1ToV2;
  }

  /** What becomes of a row of an accepted manifest: it is submitted exactly when its size is the least of a piece that
      holds the file, and the base32 decoder reads its CID; otherwise the first thing that is wrong is reported. */
  lemma RowIsSubmittedExactlyWhen(decode: Multibase, pieces: seq<ManifestPiece>, hash: SeedHash, i: nat)
    requires PieceSetOf(decode, pieces).Ok? && i < |PieceSetOf(decode, pieces).value.rows| &&
             DecodersAgree(decode, pieces)
    ensures var row := PieceSetOf(decode, pieces).value.rows[i];
            var r := SubmissionFor(Metadata(pieces), hash, row);
            && (row.pieceCid, row.paddedSize) in Metadata(pieces)
            && var fileSize := Metadata(pieces)[(row.pieceCid, row.paddedSize)].fileSize;
            && (r.Ok? <==> PieceCid.IsLeastSizeFor(row.paddedSize, fileSize) && Base32.DecodeCid(row.pieceCid).Ok?)
            && (r.Err? ==>
                  if fileSize < 127 then r.error == BadPiece(row, PieceCid.PayloadTooSmall)
                  else if PieceCid.IsLeastSizeFor(row.paddedSize, fileSize)
                  then r.error == BadPiece(row, PieceCid.BadText(Base32.DecodeCid(row.pieceCid).error))
                  else && r.error.SizeMismatch? && r.error.row == row
                       && PieceCid.IsLeastSizeFor(r.error.implied, fileSize))
  {
    MetadataIsFound(decode, pieces, i);
    var row := PieceSetOf(decode, pieces).value.rows[i];
    var fileSize := Metadata(pieces)[(row.pieceCid, row.paddedSize)].fileSize;
    AbiRanges(decode, pieces, i);
    hide PieceSetOf, Metadata, SubmissionFor, CommPDigest, PieceCid.PaddedPieceSize, PieceCid.PieceCidV1ToV2,
         PieceCid.IsLeastSizeFor, Base32.DecodeCid;
    NoSubmission(Metadata(pieces), hash, row);
    PieceCid.ImpliedSizeIsLeast(fileSize, row.paddedSize);
    if PieceCid.IsLeastSizeFor(row.paddedSize, fileSize) {
      LeastSizeHolds(row.paddedSize, fileSize);
      ConvertsExactlyWhen(decode, row.pieceCid, fileSize);
    } else if fileSize >= 127 {
      PieceCid.ImpliedSizeIsLeast(fileSize, PieceCid.PaddedPieceSize(fileSize).value);
    }
  }

  lemma DistinctRowKeys(decode: Multibase, pieces: seq<ManifestPiece>, i: nat, j: nat)
    requires PieceSetOf(decode, pieces).Ok? && i < j < |PieceSetOf(decode, pieces).value.rows|
    ensures var rows := PieceSetOf(decode, pieces).value.rows;
            rows[i].digest != rows[j].digest || rows[i].paddedSize != rows[j].paddedSize
  {
    AcceptedManifests(decode, pieces);
    var keys, rows := Keys(Canonical(decode, pieces)), PieceSetOf(decode, pieces).value.rows;
    assert keys[i] == Key(rows[i].digest, rows[i].paddedSize) && keys[j] == Key(rows[j].digest, rows[j].paddedSize);
    KeyLessTotal(keys[i], keys[i]);
  }

  /** Distinct rows get distinct PieceCIDs v2: rows of one digest differ in size, and then so do the file sizes, each
      of which must imply its row's size. */
  lemma DistinctRowsDistinctCids(decode: Multibase, pieces: seq<ManifestPiece>, hash: SeedHash, i: nat, j: nat)
    requires PieceSetOf(decode, pieces).Ok? && i < j < |PieceSetOf(decode, pieces).value.rows| &&
             DecodersAgree(decode, pieces)
    requires SubmissionFor(Metadata(pieces), hash, PieceSetOf(decode, pieces).value.rows[i]).Ok?
    requires SubmissionFor(Metadata(pieces), hash, PieceSetOf(decode, pieces).value.rows[j]).Ok?
    ensures SubmissionFor(Metadata(pieces), hash, PieceSetOf(decode, pieces).value.rows[i]).value.cidV2
         != SubmissionFor(Metadata(pieces), hash, PieceSetOf(decode, pieces).value.rows[j]).value.cidV2
  {
    hide SubmissionFor, PieceSetOf, PieceCid.PieceCidV1ToV2, PieceCid.PaddedPieceSize, Metadata;
    DistinctRowKeys(decode, pieces, i, j);
    MetadataIsFound(decode, pieces, i);
    MetadataIsFound(decode, pieces, j);
    SubmissionMeans(decode, pieces, hash, i);
    SubmissionMeans(decode, pieces, hash, j);
    var rows := PieceSetOf(decode, pieces).value.rows;
    var fi := Metadata(pieces)[(rows[i].pieceCid, rows[i].paddedSize)].fileSize;
    var fj := Metadata(pieces)[(rows[j].pieceCid, rows[j].paddedSize)].fileSize;
    if PieceCid.PieceCidV1ToV2(rows[i].pieceCid, fi) == PieceCid.PieceCidV1ToV2(rows[j].pieceCid, fj) {
      PieceCid.V2Injective(rows[i].pieceCid, fi, rows[j].pieceCid, fj);
    }
  }

  function Pending(rows: seq<PieceSetRow>, accepted: set<nat>): (pending: seq<PieceSetRow>) {
    if rows == [] then []
    else
      var row := rows[|rows| - 1];
      Pending(rows[..|rows| - 1], accepted) + if row.index in accepted then [] else [row]
  }

  lemma SubmissionForRow(table: map<(string, int), ManifestPiece>, hash: SeedHash, row: PieceSetRow)
    ensures SubmissionFor(table, hash, row).Ok? ==> SubmissionFor(table, hash, row).value.row == row
  {
  }

  /** `subs` are the submissions of the rows `pending`, which lie in order among `rows`. */
  ghost predicate InTurn(subs: seq<Submission>, pending: seq<PieceSetRow>, rows: seq<PieceSetRow>,
                        table: map<(string, int), ManifestPiece>, hash: SeedHash)
  {
    && |subs| == |pending|
    && (forall i :: 0 <= i < |subs| ==>
          && subs[i].row == pending[i] && SubmissionFor(table, hash, pending[i]) == Ok(subs[i])
          && subs[i].row.index < |rows| && rows[subs[i].row.index] == subs[i].row)
    && (forall i, j :: 0 <= i < j < |subs| ==> subs[i].row.index < subs[j].row.index)
  }

  lemma OneMoreInTurn(subs: seq<Submission>, pending: seq<PieceSetRow>, rows: seq<PieceSetRow>, row: PieceSetRow,
                  table: map<(string, int), ManifestPiece>, hash: SeedHash)
    requires InTurn(subs, pending, rows, table, hash)
    ensures InTurn(subs, pending, rows + [row], table, hash)
    ensures row.index == |rows| && SubmissionFor(table, hash, row).Ok? ==>
              InTurn(subs + [SubmissionFor(table, hash, row).value], pending + [row], rows + [row], table, hash)
  {
    SubmissionForRow(table, hash, row);
    hide SubmissionFor;
  }

  lemma {:induction false} SubmissionsArePending(table: map<(string, int), ManifestPiece>, hash: SeedHash,
                                                 rows: seq<PieceSetRow>, accepted: set<nat>)
    requires forall i :: 0 <= i < |rows| ==> rows[i].index == i
    requires SubmissionsFor(table, hash, rows, accepted).Ok?
    ensures InTurn(SubmissionsFor(table, hash, rows, accepted).value, Pending(rows, accepted), rows, table, hash)
  {
    if rows != [] {
      hide SubmissionFor, InTurn;
      var init, row := rows[..|rows| - 1], rows[|rows| - 1];
      assert rows == init + [row];
      SubmissionsArePending(table, hash, init, accepted);
      OneMoreInTurn(SubmissionsFor(table, hash, init, accepted).value, Pending(init, accepted), init, row, table, hash);
      assert Pending(init, accepted) + [] == Pending(init, accepted);
    }
  }

  /** The submissions of an accepted manifest are its rows that are not accepted yet, in order, each under the
      identifier of a PieceCID v2 that no other submission has. */
  lemma SubmissionsAreDistinct(decode: Multibase, pieces: seq<ManifestPiece>, hash: SeedHash, accepted: set<nat>)
    requires PieceSetOf(decode, pieces).Ok? && DecodersAgree(decode, pieces)
    requires SubmissionsFor(Metadata(pieces), hash, PieceSetOf(decode, pieces).value.rows, accepted).Ok?
    ensures var rows := PieceSetOf(decode, pieces).value.rows;
            var subs := SubmissionsFor(Metadata(pieces), hash, rows, accepted).value;
            && |subs| == |Pending(rows, accepted)|
            && (forall i :: 0 <= i < |subs| ==> subs[i].row == Pending(rows, accepted)[i])
            && (forall i :: 0 <= i < |subs| ==> subs[i].identifier == Identifier(hash, subs[i].cidV2))
            && (forall i, j :: 0 <= i < j < |subs| ==> subs[i].cidV2 != subs[j].cidV2)
  {
    AcceptedManifests(decode, pieces);
    var rows := PieceSetOf(decode, pieces).value.rows;
    assert forall i :: 0 <= i < |rows| ==> rows[i].index == i;
    hide PieceSetOf, SubmissionsFor, SubmissionFor, Pending, Metadata;
    SubmissionsArePending(Metadata(pieces), hash, rows, accepted);
    var subs := SubmissionsFor(Metadata(pieces), hash, rows, accepted).value;
    forall i | 0 <= i < |subs|
      ensures subs[i].identifier == Identifier(hash, subs[i].cidV2)
    {
      SubmissionMeans(decode, pieces, hash, subs[i].row.index);
    }
    forall i, j | 0 <= i < j < |subs|
      ensures subs[i].cidV2 != subs[j].cidV2
    {
      DistinctRowsDistinctCids(decode, pieces, hash, subs[i].row.index, subs[j].row.index);
    }
  }
}
