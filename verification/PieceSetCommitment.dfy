/** The piece-set commitment: a Merkle tree over the canonically sorted pieces of a manifest.
    Keccak is symbolic, one free constructor for each hash domain, so that equal hashes have equal preimages. */
module PieceSetCommitment {
  import opened Wrappers
  import opened Positional
  import opened Lists

  const MAX_UINT32: nat := 0xFFFF_FFFF
  const MAX_UINT64: nat := 0xFFFF_FFFF_FFFF_FFFF
  const COMMP_CID_PREFIX: seq<byte> := [0x01, 0x81, 0xe2, 0x03, 0x92, 0x20, 0x20]

  datatype Hash =
    | Leaf(index: nat, digest: seq<byte>, paddedSize: nat)
    | Empty
    | Node(left: Hash, right: Hash)
    | Commitment(count: nat, sizeBytes: nat, root: Hash)

  /** A piece of a manifest. */
  datatype ManifestPiece = ManifestPiece(pieceCid: string, pieceSize: int, fileSize: int)

  datatype Parsed = Parsed(pieceCid: string, digest: seq<byte>, size: nat)

  datatype PieceSetRow = PieceSetRow(index: nat, pieceCid: string, digest: seq<byte>, paddedSize: nat)

  datatype PieceSet = PieceSet(rows: seq<PieceSetRow>, sizeBytes: nat, levels: seq<seq<Hash>>) {
    predicate HasRoot() {
      levels != [] && |levels[|levels| - 1]| == 1
    }
  }

  datatype PieceSetError =
    | InvalidCid(cid: string)
    | UnsupportedCid(cid: string)
    | InvalidSize(cid: string, size: int)
    | EmptySet
    | TooManyPieces
    | DuplicatePiece(cid: string, size: int)

  /** `multibase.decode`, or `None` where it raises. */
  type Multibase = string -> Option<seq<byte>>

  // ---- parsing ----

  function CommPDigest(data: seq<byte>): Option<seq<byte>> {
    if |data| != |COMMP_CID_PREFIX| + 32 || !(COMMP_CID_PREFIX <= data) then None
    else Some(data[|COMMP_CID_PREFIX|..])
  }

  function ParsePiece(decode: Multibase, piece: ManifestPiece): Result<Parsed, PieceSetError> {
    var cid, size := piece.pieceCid, piece.pieceSize;
    match decode(cid)
    case None => Err(InvalidCid(cid))
    case Some(data) =>
      match CommPDigest(data)
      case None => Err(UnsupportedCid(cid))
      case Some(digest) =>
        if !(0 < size <= MAX_UINT64) then Err(InvalidSize(cid, size))
        else Ok(Parsed(cid, digest, size))
  }

  function ParseAll(decode: Multibase, pieces: seq<ManifestPiece>): (r: Result<seq<Parsed>, PieceSetError>)
    ensures r.Ok? ==> |r.value| == |pieces|
    ensures r.Ok? <==> forall i :: 0 <= i < |pieces| ==> ParsePiece(decode, pieces[i]).Ok?
    ensures r.Ok? ==> forall i :: 0 <= i < |pieces| ==> r.value[i] == ParsePiece(decode, pieces[i]).value
  {
    if pieces == [] then Ok([])
    else
      var first :- ParsePiece(decode, pieces[0]);
      var rest :- ParseAll(decode, pieces[1..]);
      Ok([first] + rest)
  }

  /** The CID is that of a piece commitment with this digest, written behind the seven bytes of its CIDv1. */
  ghost predicate IsPieceCid(decode: Multibase, cid: string, digest: seq<byte>) {
    |digest| == 32 && decode(cid) == Some([0x01, 0x81, 0xe2, 0x03, 0x92, 0x20, 0x20] + digest)
  }

  /** Exactly which pieces are accepted, with sizes of 1 to 2^64 - 1, what is kept of them, and what is wrong with any
      other. */
  lemma AcceptedPieces(decode: Multibase, piece: ManifestPiece, digest: seq<byte>)
    ensures IsPieceCid(decode, piece.pieceCid, digest) ==>
              ParsePiece(decode, piece) == if 1 <= piece.pieceSize <= 18_446_744_073_709_551_615
                                           then Ok(Parsed(piece.pieceCid, digest, piece.pieceSize))
                                           else Err(InvalidSize(piece.pieceCid, piece.pieceSize))
    ensures ParsePiece(decode, piece).Ok? ==>
              var p := ParsePiece(decode, piece).value;
              && 1 <= piece.pieceSize <= 18_446_744_073_709_551_615
              && IsPieceCid(decode, piece.pieceCid, p.digest)
              && p.pieceCid == piece.pieceCid && p.size == piece.pieceSize
    ensures ParsePiece(decode, piece) == Err(InvalidCid(piece.pieceCid)) <==> decode(piece.pieceCid).None?
    ensures ParsePiece(decode, piece) == Err(UnsupportedCid(piece.pieceCid)) <==>
              decode(piece.pieceCid).Some? && forall d :: !IsPieceCid(decode, piece.pieceCid, d)
  {
    if decode(piece.pieceCid).Some? {
      var data := decode(piece.pieceCid).value;
      if CommPDigest(data).Some? {
        assert data == COMMP_CID_PREFIX + CommPDigest(data).value;
        assert IsPieceCid(decode, piece.pieceCid, CommPDigest(data).value);
      }
      forall d | IsPieceCid(decode, piece.pieceCid, d)
        ensures CommPDigest(data) == Some(d)
      {
        assert data[7..] == d;
      }
    }
  }

  // ---- canonical order ----

  datatype Key = Key(digest: seq<byte>, size: nat)

  function KeyOf(p: Parsed): Key {
    Key(p.digest, p.size)
  }

  /** The order of byte strings. */
  predicate BytesLess(a: seq<byte>, b: seq<byte>) {
    b != [] && (a == [] || a[0] < b[0] || (a[0] == b[0] && BytesLess(a[1..], b[1..])))
  }

  predicate KeyLess(a: Key, b: Key) {
    BytesLess(a.digest, b.digest) || (a.digest == b.digest && a.size < b.size)
  }

  /** A stable sort by key. */
  function Sort(ps: seq<Parsed>): (s: seq<Parsed>)
    ensures |s| == |ps|
  {
    if ps == [] then [] else Insert(ps[0], Sort(ps[1..]))
  }

  function Insert(p: Parsed, s: seq<Parsed>): (t: seq<Parsed>)
    ensures |t| == |s| + 1
  {
    if s == [] || !KeyLess(KeyOf(s[0]), KeyOf(p)) then [p] + s else [s[0]] + Insert(p, s[1..])
  }

  /** The later piece of the first neighbours with equal keys. */
  function FirstDuplicate(s: seq<Parsed>, from: nat): Option<Parsed>
    requires from > 0
    decreases |s| - from
  {
    if from >= |s| then None
    else if KeyOf(s[from - 1]) == KeyOf(s[from]) then Some(s[from])
    else FirstDuplicate(s, from + 1)
  }

  function Keys(s: seq<Parsed>): (keys: seq<Key>)
    ensures |keys| == |s|
  {
    seq(|s|, i requires 0 <= i < |s| => KeyOf(s[i]))
  }

  predicate Ascending(keys: seq<Key>) {
    forall i, j :: 0 <= i < j < |keys| ==> !KeyLess(keys[j], keys[i])
  }

  predicate StrictlyAscending(keys: seq<Key>) {
    forall i, j :: 0 <= i < j < |keys| ==> KeyLess(keys[i], keys[j])
  }

  /** The canonical order is that of the digests as big-endian numbers, and of the sizes among equal digests. */
  lemma CanonicalOrder(a: Key, b: Key)
    requires |a.digest| == |b.digest|
    ensures KeyLess(a, b) <==>
              var x, y := FromDigits(256, a.digest), FromDigits(256, b.digest);
              x < y || (x == y && a.size < b.size)
  {
    BytesLessIsNumeric(a.digest, b.digest);
    BytesLessIsNumeric(b.digest, a.digest);
    BytesLessTotal(a.digest, b.digest);
  }

  lemma {:induction false} BytesLessIsNumeric(a: seq<byte>, b: seq<byte>)
    requires |a| == |b|
    ensures BytesLess(a, b) <==> FromDigits(256, a) < FromDigits(256, b)
  {
    if a != [] {
      hide FromDigits, Pow;
      FirstDigit(a);
      FirstDigit(b);
      FromDigitsBound(256, a[1..]);
      FromDigitsBound(256, b[1..]);
      BytesLessIsNumeric(a[1..], b[1..]);
      HighDigitDecides(Pow(256, |a| - 1), a[0], FromDigits(256, a[1..]), b[0], FromDigits(256, b[1..]));
    }
  }

  lemma HighDigitDecides(weight: nat, x: nat, low: nat, y: nat, low': nat)
    requires low < weight && low' < weight
    ensures x * weight + low < y * weight + low' <==> x < y || (x == y && low < low')
  {
    if x < y {
      MulMonotone(weight, x + 1, y);
    } else if y < x {
      MulMonotone(weight, y + 1, x);
    }
  }

  lemma FirstDigit(a: seq<byte>)
    requires a != []
    ensures FromDigits(256, a) == a[0] * Pow(256, |a| - 1) + FromDigits(256, a[1..])
  {
    var head: seq<nat> := [a[0]];
    assert FromDigits(256, head) == a[0];
    hide FromDigits, Pow;
    assert a == head + a[1..];
    FromDigitsConcat(256, head, a[1..]);
  }

  lemma {:induction false} BytesLessTotal(a: seq<byte>, b: seq<byte>)
    ensures a == b || BytesLess(a, b) || BytesLess(b, a)
    ensures !(BytesLess(a, b) && BytesLess(b, a)) && !BytesLess(a, a)
  {
    if a != [] {
      BytesLessTotal(a[1..], a[1..]);
    }
    if a != [] && b != [] && a[0] == b[0] {
      BytesLessTotal(a[1..], b[1..]);
      assert a == [a[0]] + a[1..] && b == [b[0]] + b[1..];
    }
  }

  lemma {:induction false} BytesLessTransitive(a: seq<byte>, b: seq<byte>, c: seq<byte>)
    requires BytesLess(a, b) && BytesLess(b, c)
    ensures BytesLess(a, c)
  {
    if a != [] && a[0] == b[0] == c[0] {
      BytesLessTransitive(a[1..], b[1..], c[1..]);
    }
  }

  lemma KeyLessTotal(a: Key, b: Key)
    ensures a == b || KeyLess(a, b) || KeyLess(b, a)
    ensures !(KeyLess(a, b) && KeyLess(b, a)) && !KeyLess(a, a)
  {
    BytesLessTotal(a.digest, b.digest);
  }

  lemma KeyLessTransitive(a: Key, b: Key, c: Key)
    requires (!KeyLess(b, a) && KeyLess(b, c)) || (KeyLess(a, b) && !KeyLess(c, b))
    ensures KeyLess(a, c)
  {
    KeyLessTotal(a, b);
    KeyLessTotal(b, c);
    BytesLessTotal(b.digest, b.digest);
    if BytesLess(a.digest, b.digest) && BytesLess(b.digest, c.digest) {
      BytesLessTransitive(a.digest, b.digest, c.digest);
    }
  }

  lemma {:induction false} InsertAdds(p: Parsed, s: seq<Parsed>)
    ensures multiset(Insert(p, s)) == multiset(s) + multiset{p}
  {
    if s == [] || !KeyLess(KeyOf(s[0]), KeyOf(p)) {
    } else {
      InsertAdds(p, s[1..]);
      assert s == [s[0]] + s[1..];
    }
  }

  lemma Prepend(k: Key, keys: seq<Key>)
    requires Ascending(keys) && forall j :: 0 <= j < |keys| ==> !KeyLess(keys[j], k)
    ensures Ascending([k] + keys)
  {
    var all := [k] + keys;
    forall i, j | 0 <= i < j < |all|
      ensures !KeyLess(all[j], all[i])
    {
      assert all[j] == keys[j - 1];
    }
  }

  lemma InsertStaysAbove(p: Parsed, s: seq<Parsed>, least: Key)
    requires !KeyLess(KeyOf(p), least) && forall j :: 0 <= j < |s| ==> !KeyLess(Keys(s)[j], least)
    ensures forall j :: 0 <= j < |Insert(p, s)| ==> !KeyLess(Keys(Insert(p, s))[j], least)
  {
    hide KeyLess;
    InsertAdds(p, s);
    forall j | 0 <= j < |Insert(p, s)|
      ensures !KeyLess(Keys(Insert(p, s))[j], least)
    {
      assert Insert(p, s)[j] in multiset(Insert(p, s));
      assert Insert(p, s)[j] == p || exists k :: 0 <= k < |s| && s[k] == Insert(p, s)[j] && Keys(s)[k] == KeyOf(s[k]);
    }
  }

  lemma {:induction false} InsertKeepsOrder(p: Parsed, s: seq<Parsed>)
    requires Ascending(Keys(s))
    ensures Ascending(Keys(Insert(p, s)))
  {
    hide KeyLess;
    var keys := Keys(s);
    if s == [] || !KeyLess(KeyOf(s[0]), KeyOf(p)) {
      forall j | 0 <= j < |keys|
        ensures !KeyLess(keys[j], KeyOf(p))
      {
        if j > 0 && KeyLess(keys[j], KeyOf(p)) {
          KeyLessTransitive(keys[0], keys[j], KeyOf(p));
        }
      }
      Prepend(KeyOf(p), keys);
      assert Keys([p] + s) == [KeyOf(p)] + keys;
    } else {
      var rest := s[1..];
      var inserted := Insert(p, rest);
      assert Keys(rest) == keys[1..];
      InsertKeepsOrder(p, rest);
      KeyLessTotal(keys[0], KeyOf(p));
      InsertStaysAbove(p, rest, keys[0]);
      Prepend(keys[0], Keys(inserted));
      assert Keys([s[0]] + inserted) == [keys[0]] + Keys(inserted);
    }
  }

  lemma {:induction false} SortIsOrderedPermutation(ps: seq<Parsed>)
    ensures Ascending(Keys(Sort(ps))) && multiset(Sort(ps)) == multiset(ps)
  {
    if ps == [] {
    } else {
      SortIsOrderedPermutation(ps[1..]);
      InsertKeepsOrder(ps[0], Sort(ps[1..]));
      InsertAdds(ps[0], Sort(ps[1..]));
      assert ps == [ps[0]] + ps[1..] && Sort(ps) == Insert(ps[0], Sort(ps[1..]));
      hide Ascending, Keys, Insert, Sort;
    }
  }

  lemma {:induction false} NoDuplicateFound(s: seq<Parsed>, from: nat)
    requires from > 0
    ensures FirstDuplicate(s, from).None?
       <==> forall i {:trigger s[i]} :: from <= i < |s| ==> KeyOf(s[i - 1]) != KeyOf(s[i])
    decreases |s| - from
  {
    if from < |s| && KeyOf(s[from - 1]) != KeyOf(s[from]) {
      NoDuplicateFound(s, from + 1);
    }
  }

  /** In an ordered list, looking at neighbours is enough to find any duplicate. */
  lemma NeighboursSuffice(s: seq<Parsed>)
    requires Ascending(Keys(s))
    ensures FirstDuplicate(s, 1).None? <==> Distinct(Keys(s))
    ensures FirstDuplicate(s, 1).None? ==> StrictlyAscending(Keys(s))
  {
    var keys := Keys(s);
    NoDuplicateFound(s, 1);
    if FirstDuplicate(s, 1).None? {
      forall i, j | 0 <= i < j < |s|
        ensures KeyLess(keys[i], keys[j]) && keys[i] != keys[j]
      {
        assert keys[i] == KeyOf(s[i]) && keys[i + 1] == KeyOf(s[i + 1]) && keys[j] == KeyOf(s[j]);
        assert KeyOf(s[i + 1 - 1]) != KeyOf(s[i + 1]);
        KeyLessTotal(keys[i], keys[i + 1]);
        KeyLessTotal(keys[i], keys[j]);
        KeyLessTotal(keys[i], keys[i]);
        if i + 1 < j {
          KeyLessTransitive(keys[i], keys[i + 1], keys[j]);
        }
      }
    } else {
      var i :| 1 <= i < |s| && KeyOf(s[i - 1]) == KeyOf(s[i]);
      assert keys[i - 1] == keys[i];
    }
  }

  /** A set has one strictly ascending list. */
  lemma {:induction false} CanonicalList(a: seq<Key>, b: seq<Key>)
    requires StrictlyAscending(a) && StrictlyAscending(b) && Elements(a) == Elements(b)
    ensures a == b
  {
    HeadInSet(a);
    HeadInSet(b);
    if a == [] || b == [] {
    } else {
      FirstIsLeast(a, b);
      FirstIsLeast(b, a);
      KeyLessTotal(a[0], b[0]);
      TailSet(a);
      TailSet(b);
      CanonicalList(a[1..], b[1..]);
      assert a == [a[0]] + a[1..] && b == [b[0]] + b[1..];
    }
  }

  lemma HeadInSet(a: seq<Key>)
    ensures a != [] <==> Elements(a) != {}
    ensures a != [] ==> a[0] in Elements(a)
  {
    if a != [] {
      assert a[0] in a;
      assert a[0] in Elements(a);
    }
  }

  lemma FirstIsLeast(a: seq<Key>, b: seq<Key>)
    requires StrictlyAscending(a) && a != [] && b != [] && Elements(a) == Elements(b)
    ensures !KeyLess(b[0], a[0])
  {
    assert b[0] in Elements(a);
    var i :| 0 <= i < |a| && a[i] == b[0];
    KeyLessTotal(a[0], a[i]);
  }

  lemma TailSet(a: seq<Key>)
    requires StrictlyAscending(a) && a != []
    ensures Elements(a[1..]) == Elements(a) - {a[0]}
  {
    forall k | k in Elements(a[1..])
      ensures k != a[0]
    {
      var i :| 0 <= i < |a[1..]| && a[1..][i] == k;
      KeyLessTotal(a[0], a[i + 1]);
    }
  }

  // ---- the tree ----

  function Pairs(level: seq<Hash>): (up: seq<Hash>)
    requires |level| % 2 == 0
    ensures |up| == |level| / 2
  {
    seq(|level| / 2, i requires 0 <= i < |level| / 2 => Node(level[2 * i], level[2 * i + 1]))
  }

  function Levels(level: seq<Hash>, depth: nat): (levels: seq<seq<Hash>>)
    requires |level| == Pow(2, depth)
    ensures |levels| == depth + 1 && |levels[depth]| == 1
    decreases depth
  {
    if depth == 0 then [level] else [level] + Levels(Pairs(level), depth - 1)
  }

  function RootOf(level: seq<Hash>, depth: nat): Hash
    requires |level| == Pow(2, depth)
    decreases depth
  {
    if depth == 0 then level[0] else RootOf(Pairs(level), depth - 1)
  }

  /** The least depth whose width takes `n` leaves. */
  function Depth(n: nat): nat {
    if n == 0 then 0 else BitLength(n - 1)
  }

  lemma DepthIsLeast(n: nat, k: nat)
    ensures Pow(2, k) >= n <==> Depth(n) <= k
  {
    if n > 0 {
      BitLengthLeast(n - 1, k);
    }
  }

  function Padded(leaves: seq<Hash>): (level: seq<Hash>)
    ensures |level| == Pow(2, Depth(|leaves|)) >= |leaves|
    ensures forall i :: 0 <= i < |level| ==> level[i] == if i < |leaves| then leaves[i] else Empty
  {
    DepthIsLeast(|leaves|, Depth(|leaves|));
    leaves + seq(Pow(2, Depth(|leaves|)) - |leaves|, i => Empty)
  }

  function TreeOf(leaves: seq<Hash>): (levels: seq<seq<Hash>>)
    ensures |levels| == Depth(|leaves|) + 1 && |levels[Depth(|leaves|)]| == 1
  {
    Levels(Padded(leaves), Depth(|leaves|))
  }

  lemma SeqAssociates<T>(a: seq<T>, b: seq<T>, c: seq<T>)
    ensures a + (b + c) == (a + b) + c
  {
  }

  lemma LevelsFrom(levels: seq<seq<Hash>>, depth: nat)
    requires levels != [] && depth > 0 && |levels[|levels| - 1]| == Pow(2, depth)
    ensures var up := Pairs(levels[|levels| - 1]);
            && |up| == Pow(2, depth - 1)
            && var more := levels + [up];
            && more[..|more| - 1] + Levels(up, depth - 1)
               == levels[..|levels| - 1] + Levels(levels[|levels| - 1], depth)
  {
    var before, level := levels[..|levels| - 1], levels[|levels| - 1];
    var up := Pairs(level);
    assert Levels(level, depth) == [level] + Levels(up, depth - 1);
    SeqAssociates(before, [level], Levels(up, depth - 1));
    assert (levels + [up])[..|levels|] == before + [level];
  }

  lemma PaddedToDepth(leaves: seq<Hash>, depth: nat, width: nat)
    requires width == Pow(2, depth) >= |leaves| && depth == Depth(|leaves|)
    ensures var level := leaves + seq(width - |leaves|, i => Empty);
            |level| == Pow(2, depth) && Levels(level, depth) == TreeOf(leaves)
  {
    hide Levels;
    assert leaves + seq(width - |leaves|, i => Empty) == Padded(leaves);
  }

  lemma PowDoubles(depth: nat)
    ensures Pow(2, 0) == 1 && Pow(2, depth + 1) == 2 * Pow(2, depth)
  {
  }

  /** The least power of two that is not below the number of leaves. */
  method PaddedWidth(leaves: nat) returns (width: nat, ghost depth: nat)
    ensures width == Pow(2, depth) >= leaves && depth == Depth(leaves)
  {
    hide Pow, Depth;
    width, depth := 1, 0;
    PowDoubles(0);
    while width < leaves
      invariant width == Pow(2, depth) && depth <= Depth(leaves)
      decreases Depth(leaves) - depth
    {
      DepthIsLeast(leaves, depth);
      PowDoubles(depth);
      width := width * 2;
      depth := depth + 1;
    }
    DepthIsLeast(leaves, depth);
  }

  method BuildTree(leaves: seq<Hash>) returns (levels: seq<seq<Hash>>)
    ensures levels == TreeOf(leaves)
  {
    hide Pow, Depth, Levels, TreeOf, Pairs;
    var width, depth := PaddedWidth(|leaves|);
    PaddedToDepth(leaves, depth, width);
    levels := [leaves + seq(width - |leaves|, i => Empty)];
    while |levels[|levels| - 1]| > 1
      invariant levels != [] && |levels[|levels| - 1]| == Pow(2, depth)
      invariant levels[..|levels| - 1] + Levels(levels[|levels| - 1], depth) == TreeOf(leaves)
      decreases depth
    {
      PowZero(depth);
      LevelsFrom(levels, depth);
      levels := levels + [Pairs(levels[|levels| - 1])];
      depth := depth - 1;
    }
    PowIsOne(depth);
    LastOfLevels(levels[|levels| - 1]);
  }

  lemma LastOfLevels(level: seq<Hash>)
    requires |level| == Pow(2, 0)
    ensures Levels(level, 0) == [level]
  {
  }

  lemma PowZero(depth: nat)
    requires Pow(2, depth) > 1
    ensures depth > 0 && Pow(2, depth) % 2 == 0
  {
  }

  lemma PowIsOne(depth: nat)
    requires Pow(2, depth) <= 1
    ensures depth == 0
  {
  }

  function LeafOf(row: PieceSetRow): Hash {
    Leaf(row.index, row.digest, row.paddedSize)
  }

  function LeavesOf(rows: seq<PieceSetRow>): (leaves: seq<Hash>)
    ensures |leaves| == |rows|
  {
    seq(|rows|, i requires 0 <= i < |rows| => LeafOf(rows[i]))
  }

  function Enumerate(s: seq<Parsed>): (rows: seq<PieceSetRow>)
    ensures |rows| == |s|
    ensures forall i :: 0 <= i < |s| ==> rows[i] == PieceSetRow(i, s[i].pieceCid, s[i].digest, s[i].size)
  {
    seq(|s|, i requires 0 <= i < |s| => PieceSetRow(i, s[i].pieceCid, s[i].digest, s[i].size))
  }

  function TotalSize(s: seq<Parsed>): nat {
    if s == [] then 0 else TotalSize(s[..|s| - 1]) + s[|s| - 1].size
  }

  function PieceSetOf(decode: Multibase, pieces: seq<ManifestPiece>): (r: Result<PieceSet, PieceSetError>)
    ensures r.Ok? ==> r.value.HasRoot()
  {
    var parsed :- ParseAll(decode, pieces);
    var sorted := Sort(parsed);
    if sorted == [] then Err(EmptySet)
    else if |sorted| > MAX_UINT32 then Err(TooManyPieces)
    else match FirstDuplicate(sorted, 1) {
      case Some(p) => Err(DuplicatePiece(p.pieceCid, p.size))
      case None =>
        var rows := Enumerate(sorted);
        Ok(PieceSet(rows, TotalSize(sorted), TreeOf(LeavesOf(rows))))
    }
  }

  lemma TotalWithNext(s: seq<Parsed>, i: nat)
    requires i < |s|
    ensures TotalSize(s[..0]) == 0 && TotalSize(s[..i + 1]) == TotalSize(s[..i]) + s[i].size
  {
    assert s[..i + 1][..i] == s[..i];
  }

  method NewPieceSet(decode: Multibase, pieces: seq<ManifestPiece>) returns (r: Result<PieceSet, PieceSetError>)
    ensures r == PieceSetOf(decode, pieces)
  {
    hide ParseAll, Sort, TreeOf;
    var parsed :- ParseAll(decode, pieces);
    var sorted := Sort(parsed);
    if sorted == [] {
      return Err(EmptySet);
    }
    if |sorted| > MAX_UINT32 {
      return Err(TooManyPieces);
    }
    for i := 1 to |sorted|
      invariant FirstDuplicate(sorted, 1) == FirstDuplicate(sorted, i)
    {
      if KeyOf(sorted[i - 1]) == KeyOf(sorted[i]) {
        return Err(DuplicatePiece(sorted[i].pieceCid, sorted[i].size));
      }
    }
    var rows := Enumerate(sorted);
    hide TotalSize, Enumerate;
    var sizeBytes := 0;
    TotalWithNext(sorted, 0);
    for i := 0 to |sorted|
      invariant sizeBytes == TotalSize(sorted[..i])
    {
      TotalWithNext(sorted, i);
      sizeBytes := sizeBytes + rows[i].paddedSize;
    }
    assert sorted[..|sorted|] == sorted;
    var levels := BuildTree(LeavesOf(rows));
    return Ok(PieceSet(rows, sizeBytes, levels));
  }

  /** The pieces of an accepted manifest, in canonical order. */
  ghost function Canonical(decode: Multibase, pieces: seq<ManifestPiece>): (s: seq<Parsed>)
    requires ParseAll(decode, pieces).Ok?
  {
    Sort(ParseAll(decode, pieces).value)
  }

  /** What a manifest commits to. */
  ghost function Contents(decode: Multibase, pieces: seq<ManifestPiece>): set<Key>
    requires ParseAll(decode, pieces).Ok?
  {
    Elements(Keys(ParseAll(decode, pieces).value))
  }

  lemma SortedContents(decode: Multibase, pieces: seq<ManifestPiece>)
    requires ParseAll(decode, pieces).Ok?
    ensures Elements(Keys(Canonical(decode, pieces))) == Contents(decode, pieces)
    ensures Ascending(Keys(Canonical(decode, pieces)))
  {
    var parsed, sorted := ParseAll(decode, pieces).value, Canonical(decode, pieces);
    SortIsOrderedPermutation(parsed);
    SameKeys(sorted, parsed);
    SameKeys(parsed, sorted);
  }

  lemma SameKeys(a: seq<Parsed>, b: seq<Parsed>)
    requires multiset(a) == multiset(b)
    ensures Elements(Keys(a)) <= Elements(Keys(b))
  {
    forall k | k in Elements(Keys(a))
      ensures k in Elements(Keys(b))
    {
      var i :| 0 <= i < |a| && Keys(a)[i] == k;
      assert a[i] in multiset(b);
      var j :| 0 <= j < |b| && b[j] == a[i];
      assert Keys(b)[j] == k;
    }
  }

  lemma DistinctUnderPermutation(a: seq<Parsed>, b: seq<Parsed>)
    requires multiset(a) == multiset(b) && Distinct(Keys(a))
    ensures Distinct(Keys(b))
  {
    forall i, j | 0 <= i < j < |b|
      ensures Keys(b)[i] != Keys(b)[j]
    {
      if KeyOf(b[i]) == KeyOf(b[j]) {
        assert b[i] in multiset(a) && b[j] in multiset(a);
        var k :| 0 <= k < |a| && a[k] == b[i];
        var l :| 0 <= l < |a| && a[l] == b[j];
        assert Keys(a)[k] == Keys(a)[l];
        OccursTwice(b, i, j);
        OccursOnce(a, k);
      }
    }
  }

  lemma OccursTwice<T>(s: seq<T>, i: nat, j: nat)
    requires i < j < |s|
    ensures s[i] == s[j] ==> multiset(s)[s[i]] >= 2
  {
    assert s == s[..j] + s[j..];
    assert s[i] in s[..j] && s[j] in s[j..];
  }

  lemma OccursOnce(a: seq<Parsed>, k: nat)
    requires k < |a| && Distinct(Keys(a))
    ensures multiset(a)[a[k]] == 1
  {
    assert a == a[..k] + [a[k]] + a[k + 1..];
    forall i | 0 <= i < |a| && i != k
      ensures a[i] != a[k]
    {
      assert Keys(a)[i] != Keys(a)[k];
    }
  }

  /** A manifest is accepted exactly when every piece parses, there are 1 to 2^32 - 1 of them, and no two have the
      same digest and size; and then what is committed to has each piece once, in one canonical order. */
  lemma AcceptedManifests(decode: Multibase, pieces: seq<ManifestPiece>)
    ensures PieceSetOf(decode, pieces).Ok? <==>
              && (forall i :: 0 <= i < |pieces| ==> ParsePiece(decode, pieces[i]).Ok?)
              && 1 <= |pieces| <= 4_294_967_295
              && Distinct(Keys(ParseAll(decode, pieces).value))
    ensures PieceSetOf(decode, pieces).Ok? ==>
              var s := Canonical(decode, pieces);
              && StrictlyAscending(Keys(s)) && Elements(Keys(s)) == Contents(decode, pieces)
              && PieceSetOf(decode, pieces).value
                 == PieceSet(Enumerate(s), TotalSize(s), TreeOf(LeavesOf(Enumerate(s))))
  {
    if ParseAll(decode, pieces).Ok? {
      var parsed := ParseAll(decode, pieces).value;
      var sorted := Canonical(decode, pieces);
      SortIsOrderedPermutation(parsed);
      SortedContents(decode, pieces);
      NeighboursSuffice(sorted);
      if Distinct(Keys(parsed)) {
        DistinctUnderPermutation(parsed, sorted);
      } else if Distinct(Keys(sorted)) {
        DistinctUnderPermutation(sorted, parsed);
      }
    }
  }

  /** The error names piece `i`, which shares digest and size with piece `j`. */
  ghost predicate NamesDuplicate(pieces: seq<ManifestPiece>, parsed: seq<Parsed>, cid: string, size: int, i: nat,
                                 j: nat)
  {
    && i < |pieces| == |parsed| && j < |parsed| && i != j && Keys(parsed)[i] == Keys(parsed)[j]
    && pieces[i].pieceCid == cid && pieces[i].pieceSize == size
  }

  ghost predicate FirstBadPiece(decode: Multibase, pieces: seq<ManifestPiece>, i: nat)
    requires i < |pieces|
  {
    ParsePiece(decode, pieces[i]).Err? && forall j :: 0 <= j < i ==> ParsePiece(decode, pieces[j]).Ok?
  }

  lemma {:induction false} FirstBadPieceIsNamed(decode: Multibase, pieces: seq<ManifestPiece>) returns (i: nat)
    requires ParseAll(decode, pieces).Err?
    ensures i < |pieces| && FirstBadPiece(decode, pieces, i) &&
            ParsePiece(decode, pieces[i]).error == ParseAll(decode, pieces).error
  {
    hide ParsePiece;
    if ParsePiece(decode, pieces[0]).Err? {
      i := 0;
    } else {
      var k := FirstBadPieceIsNamed(decode, pieces[1..]);
      i := k + 1;
      assert pieces[i] == pieces[1..][k] && forall j :: 1 <= j < i ==> pieces[j] == pieces[1..][j - 1];
    }
  }

  ghost predicate NamesBadPiece(decode: Multibase, pieces: seq<ManifestPiece>, error: PieceSetError) {
    exists i :: 0 <= i < |pieces| && FirstBadPiece(decode, pieces, i) && ParsePiece(decode, pieces[i]).error == error
  }

  /** What is wrong with a manifest whose pieces all parse. */
  ghost predicate Explains(error: PieceSetError, pieces: seq<ManifestPiece>, parsed: seq<Parsed>) {
    match error
    case EmptySet => pieces == []
    case TooManyPieces => |pieces| > MAX_UINT32
    case DuplicatePiece(cid, size) => exists i, j :: NamesDuplicate(pieces, parsed, cid, size, i, j)
    case _ => false
  }

  /** A manifest is refused for what is wrong with it: its first piece that does not parse, no pieces or too many, or a
      piece of it whose digest and size are not its own. */
  lemma RefusedManifests(decode: Multibase, pieces: seq<ManifestPiece>)
    requires PieceSetOf(decode, pieces).Err?
    ensures ParseAll(decode, pieces).Err? ==> NamesBadPiece(decode, pieces, PieceSetOf(decode, pieces).error)
    ensures ParseAll(decode, pieces).Ok? ==>
              Explains(PieceSetOf(decode, pieces).error, pieces, ParseAll(decode, pieces).value)
  {
    hide ParsePiece, Sort, TreeOf, LeavesOf, TotalSize, Distinct, Keys, FirstDuplicate;
    if ParseAll(decode, pieces).Err? {
      var i := FirstBadPieceIsNamed(decode, pieces);
    } else if FirstDuplicate(Canonical(decode, pieces), 1).Some? {
      var parsed := ParseAll(decode, pieces).value;
      var d := FirstDuplicate(Canonical(decode, pieces), 1).value;
      var i, j := DuplicateIsReal(parsed);
      ParsedFrom(decode, pieces[i]);
      assert NamesDuplicate(pieces, parsed, d.pieceCid, d.size, i, j);
    }
  }

  lemma ParsedFrom(decode: Multibase, piece: ManifestPiece)
    requires ParsePiece(decode, piece).Ok?
    ensures ParsePiece(decode, piece).value.pieceCid == piece.pieceCid &&
            ParsePiece(decode, piece).value.size == piece.pieceSize
  {
  }

  lemma DuplicateIsReal(parsed: seq<Parsed>) returns (i: nat, j: nat)
    requires FirstDuplicate(Sort(parsed), 1).Some?
    ensures i < |parsed| && j < |parsed| && i != j && Keys(parsed)[i] == Keys(parsed)[j]
    ensures parsed[i] == FirstDuplicate(Sort(parsed), 1).value
  {
    var sorted := Sort(parsed);
    SortIsOrderedPermutation(parsed);
    hide Sort, FirstDuplicate, Ascending;
    var k := DuplicateIsListed(sorted, 1);
    var other, named := sorted[k - 1], sorted[k];
    if other == named {
      OccursTwice(sorted, k - 1, k);
      i, j := TwoPlaces(parsed, named);
    } else {
      assert other in multiset(sorted) && named in multiset(sorted);
      assert other in multiset(parsed) && named in multiset(parsed);
      i :| 0 <= i < |parsed| && parsed[i] == named;
      j :| 0 <= j < |parsed| && parsed[j] == other;
    }
  }

  lemma {:induction false} TwoPlaces<T>(s: seq<T>, x: T) returns (i: nat, j: nat)
    requires multiset(s)[x] >= 2
    ensures i < |s| && j < |s| && i != j && s[i] == s[j] == x
  {
    var rest := s[1..];
    assert s == [s[0]] + rest;
    if s[0] == x {
      i := 0;
      assert x in multiset(rest);
      var k :| 0 <= k < |rest| && rest[k] == x;
      j := k + 1;
    } else {
      var i', j' := TwoPlaces(rest, x);
      i, j := i' + 1, j' + 1;
    }
  }

  lemma {:induction false} DuplicateIsListed(s: seq<Parsed>, from: nat) returns (k: nat)
    requires from > 0 && FirstDuplicate(s, from).Some?
    ensures 0 < k < |s| && KeyOf(s[k - 1]) == KeyOf(s[k]) && FirstDuplicate(s, from).value == s[k]
    decreases |s| - from
  {
    if KeyOf(s[from - 1]) == KeyOf(s[from]) {
      k := from;
    } else {
      k := DuplicateIsListed(s, from + 1);
    }
  }

  // ---- the root determines the leaves ----

  lemma {:induction false} LastLevel(level: seq<Hash>, depth: nat)
    requires |level| == Pow(2, depth)
    ensures Levels(level, depth)[depth] == [RootOf(level, depth)]
    decreases depth
  {
    if depth > 0 {
      LastLevel(Pairs(level), depth - 1);
    }
  }

  /** All leaves and empty leaves of the subtree lie `n` levels down. */
  predicate AtHeight(n: nat, h: Hash) {
    if n == 0 then h.Leaf? || h.Empty? else h.Node? && AtHeight(n - 1, h.left) && AtHeight(n - 1, h.right)
  }

  predicate AllAtHeight(n: nat, level: seq<Hash>) {
    forall i :: 0 <= i < |level| ==> AtHeight(n, level[i])
  }

  lemma {:induction false} HeightUnique(m: nat, n: nat, h: Hash)
    requires AtHeight(m, h) && AtHeight(n, h)
    ensures m == n
  {
    if m > 0 && n > 0 {
      HeightUnique(m - 1, n - 1, h.left);
    }
  }

  lemma {:induction false} RootHeight(level: seq<Hash>, depth: nat, n: nat)
    requires |level| == Pow(2, depth) && AllAtHeight(n, level)
    ensures AtHeight(n + depth, RootOf(level, depth))
    decreases depth
  {
    if depth > 0 {
      RootHeight(Pairs(level), depth - 1, n + 1);
    }
  }

  lemma PairsInjective(a: seq<Hash>, b: seq<Hash>)
    requires |a| == |b| && |a| % 2 == 0 && Pairs(a) == Pairs(b)
    ensures a == b
  {
    forall i | 0 <= i < |a|
      ensures a[i] == b[i]
    {
      assert Pairs(a)[i / 2] == Pairs(b)[i / 2];
    }
  }

  lemma {:induction false} RootInjective(a: seq<Hash>, b: seq<Hash>, depth: nat)
    requires |a| == Pow(2, depth) == |b| && RootOf(a, depth) == RootOf(b, depth)
    ensures a == b
    decreases depth
  {
    if depth == 0 {
      assert a == [a[0]] && b == [b[0]];
    } else {
      RootInjective(Pairs(a), Pairs(b), depth - 1);
      PairsInjective(a, b);
    }
  }

  lemma PaddedHeight(rows: seq<PieceSetRow>)
    ensures AllAtHeight(0, Padded(LeavesOf(rows)))
  {
  }

  lemma PaddedInjective(a: seq<PieceSetRow>, b: seq<PieceSetRow>)
    requires Padded(LeavesOf(a)) == Padded(LeavesOf(b))
    ensures LeavesOf(a) == LeavesOf(b)
  {
    var p := Padded(LeavesOf(a));
    assert |a| < |p| ==> !p[|a|].Leaf?;
    assert |b| < |p| ==> !p[|b|].Leaf?;
    assert LeavesOf(a) == p[..|a|] && LeavesOf(b) == p[..|b|];
  }

  function RootHash(ps: PieceSet): Hash
    requires ps.HasRoot()
  {
    ps.levels[|ps.levels| - 1][0]
  }

  function CommitmentOf(ps: PieceSet): Hash
    requires ps.HasRoot()
  {
    Commitment(|ps.rows|, ps.sizeBytes, RootHash(ps))
  }

  /** The sum of the piece sizes in the order of the manifest. */
  function ManifestSize(pieces: seq<ManifestPiece>): int {
    if pieces == [] then 0 else pieces[0].pieceSize + ManifestSize(pieces[1..])
  }

  lemma {:induction false} TotalFromFront(s: seq<Parsed>)
    requires s != []
    ensures TotalSize(s) == s[0].size + TotalSize(s[1..])
  {
    if |s| > 1 {
      TotalFromFront(s[..|s| - 1]);
      assert s[1..][..|s| - 2] == s[..|s| - 1][1..];
    }
  }

  lemma {:induction false} InsertTotal(p: Parsed, s: seq<Parsed>)
    ensures TotalSize(Insert(p, s)) == p.size + TotalSize(s)
  {
    TotalFromFront(Insert(p, s));
    if s != [] && KeyLess(KeyOf(s[0]), KeyOf(p)) {
      InsertTotal(p, s[1..]);
      TotalFromFront(s);
    }
  }

  lemma {:induction false} SortTotal(decode: Multibase, pieces: seq<ManifestPiece>)
    requires ParseAll(decode, pieces).Ok?
    ensures TotalSize(Sort(ParseAll(decode, pieces).value)) == ManifestSize(pieces)
  {
    if pieces != [] {
      var parsed, rest := ParseAll(decode, pieces).value, ParseAll(decode, pieces[1..]).value;
      assert parsed[1..] == rest;
      InsertTotal(parsed[0], Sort(rest));
      SortTotal(decode, pieces[1..]);
    }
  }

  /** What an accepted manifest is committed to: the number of its pieces, the sum of their sizes and the root. */
  lemma CommitmentOfManifest(decode: Multibase, pieces: seq<ManifestPiece>)
    requires PieceSetOf(decode, pieces).Ok?
    ensures var ps := PieceSetOf(decode, pieces).value;
            && CommitmentOf(ps).Commitment? && CommitmentOf(ps).count == |pieces|
            && CommitmentOf(ps).sizeBytes == ManifestSize(pieces)
            && CommitmentOf(ps).root == ps.levels[|ps.levels| - 1][0]
  {
    AcceptedManifests(decode, pieces);
    hide StrictlyAscending, Elements, Distinct, TreeOf, LeavesOf, Enumerate, TotalSize, ManifestSize;
    SortTotal(decode, pieces);
  }

  /** Each hash of a level is that of the two below it, left one first. */
  predicate HashesPairs(below: seq<Hash>, up: seq<Hash>) {
    |below| == 2 * |up| && forall i :: 0 <= i < |up| ==> up[i] == Node(below[2 * i], below[2 * i + 1])
  }

  /** The tree of an accepted manifest: on the lowest level a leaf with index, digest and size of each row and then
      empty leaves, up to the least power of two; above, each hash is that of the two below it, left one first. */
  lemma TreeOfManifest(decode: Multibase, pieces: seq<ManifestPiece>, d: nat, i: nat)
    requires PieceSetOf(decode, pieces).Ok?
    ensures var ps := PieceSetOf(decode, pieces).value;
            && |ps.rows| == |pieces| && |ps.levels[0]| == Pow(2, |ps.levels| - 1) >= |pieces|
            && (|ps.levels| > 1 ==> Pow(2, |ps.levels| - 2) < |pieces|)
            && (i < |ps.levels[0]| ==>
                  ps.levels[0][i] == if i < |pieces| then Leaf(i, ps.rows[i].digest, ps.rows[i].paddedSize) else Empty)
            && (d + 1 < |ps.levels| ==> HashesPairs(ps.levels[d], ps.levels[d + 1]))
  {
    AcceptedManifests(decode, pieces);
    hide StrictlyAscending, Elements, Distinct, HashesPairs, Pow, Depth, Padded, Levels, ParseAll, Sort;
    var ps := PieceSetOf(decode, pieces).value;
    TreeOfLeaves(LeavesOf(ps.rows), d);
  }

  lemma TreeOfLeaves(leaves: seq<Hash>, d: nat)
    ensures var levels := TreeOf(leaves);
            && |levels| > 0 && |levels[0]| == Pow(2, |levels| - 1) >= |leaves|
            && (|levels| > 1 ==> Pow(2, |levels| - 2) < |leaves|)
            && (forall i :: 0 <= i < |levels[0]| ==> levels[0][i] == if i < |leaves| then leaves[i] else Empty)
            && (d + 1 < |levels| ==> HashesPairs(levels[d], levels[d + 1]))
  {
    hide Pow, HashesPairs, Levels, Depth;
    var depth := Depth(|leaves|);
    LevelsHash(Padded(leaves), depth, d);
    if depth > 0 {
      DepthIsLeast(|leaves|, depth - 1);
    }
  }

  lemma {:induction false} LevelsHash(level: seq<Hash>, depth: nat, d: nat)
    requires |level| == Pow(2, depth)
    ensures Levels(level, depth)[0] == level
    ensures d < depth ==> HashesPairs(Levels(level, depth)[d], Levels(level, depth)[d + 1])
    decreases depth
  {
    if depth > 0 {
      hide Pow;
      LevelsStep(level, depth);
      if d > 0 {
        LevelsHash(Pairs(level), depth - 1, d - 1);
      } else {
        LevelsHash(Pairs(level), depth - 1, 0);
      }
    }
  }

  lemma LevelsStep(level: seq<Hash>, depth: nat)
    requires |level| == Pow(2, depth) && depth > 0
    ensures |level| == 2 * |Pairs(level)| && |Pairs(level)| == Pow(2, depth - 1)
    ensures Levels(level, depth) == [level] + Levels(Pairs(level), depth - 1)
  {
    hide Pow, Pairs;
    PowDoubles(depth - 1);
    assert |level| == 2 * |Pairs(level)|;
  }

  lemma AcceptedRoot(decode: Multibase, pieces: seq<ManifestPiece>)
    requires PieceSetOf(decode, pieces).Ok?
    ensures var ps := PieceSetOf(decode, pieces).value;
            && ps.levels == TreeOf(LeavesOf(ps.rows))
            && RootHash(ps) == RootOf(Padded(LeavesOf(ps.rows)), Depth(|ps.rows|))
  {
    var rows := PieceSetOf(decode, pieces).value.rows;
    LastLevel(Padded(LeavesOf(rows)), Depth(|rows|));
  }

  /** Rows with one root have the same leaves, even if their numbers differ. */
  lemma RootBinds(a: seq<PieceSetRow>, b: seq<PieceSetRow>)
    requires RootOf(Padded(LeavesOf(a)), Depth(|a|)) == RootOf(Padded(LeavesOf(b)), Depth(|b|))
    ensures LeavesOf(a) == LeavesOf(b)
  {
    PaddedHeight(a);
    PaddedHeight(b);
    RootHeight(Padded(LeavesOf(a)), Depth(|a|), 0);
    RootHeight(Padded(LeavesOf(b)), Depth(|b|), 0);
    HeightUnique(Depth(|a|), Depth(|b|), RootOf(Padded(LeavesOf(a)), Depth(|a|)));
    RootInjective(Padded(LeavesOf(a)), Padded(LeavesOf(b)), Depth(|a|));
    PaddedInjective(a, b);
  }

  lemma SameLeavesSameKeys(a: seq<Parsed>, b: seq<Parsed>)
    requires LeavesOf(Enumerate(a)) == LeavesOf(Enumerate(b))
    ensures Keys(a) == Keys(b)
  {
    assert |LeavesOf(Enumerate(a))| == |a| && |LeavesOf(Enumerate(b))| == |b|;
    forall i | 0 <= i < |a|
      ensures Keys(a)[i] == Keys(b)[i]
    {
      assert LeavesOf(Enumerate(a))[i] == LeavesOf(Enumerate(b))[i];
    }
  }

  lemma SameKeysSameLeaves(a: seq<Parsed>, b: seq<Parsed>)
    requires Keys(a) == Keys(b)
    ensures LeavesOf(Enumerate(a)) == LeavesOf(Enumerate(b)) && TotalSize(a) == TotalSize(b)
  {
    assert |Keys(a)| == |a| && |Keys(b)| == |b|;
    forall i | 0 <= i < |a|
      ensures LeavesOf(Enumerate(a))[i] == LeavesOf(Enumerate(b))[i]
    {
      assert Keys(a)[i] == Keys(b)[i];
    }
    SameKeysSameSize(a, b);
  }

  lemma {:induction false} SameKeysSameSize(a: seq<Parsed>, b: seq<Parsed>)
    requires Keys(a) == Keys(b)
    ensures TotalSize(a) == TotalSize(b)
  {
    assert |Keys(a)| == |a| && |Keys(b)| == |b|;
    if a != [] {
      var n := |a| - 1;
      assert Keys(a)[n] == Keys(b)[n];
      assert Keys(a[..n]) == Keys(a)[..n] && Keys(b[..n]) == Keys(b)[..n];
      SameKeysSameSize(a[..n], b[..n]);
    }
  }

  /** Canonical and binding: two accepted manifests have one commitment exactly when they hold the same set of digests
      and sizes; the order of the pieces and the spelling of their CIDs do not matter.  The root alone binds as much. */
  lemma CommitmentBinds(decode: Multibase, a: seq<ManifestPiece>, b: seq<ManifestPiece>)
    requires PieceSetOf(decode, a).Ok? && PieceSetOf(decode, b).Ok?
    ensures var x, y := PieceSetOf(decode, a).value, PieceSetOf(decode, b).value;
            && (CommitmentOf(x) == CommitmentOf(y) <==> Contents(decode, a) == Contents(decode, b))
            && (RootHash(x) == RootHash(y) <==> Contents(decode, a) == Contents(decode, b))
  {
    AcceptedRoot(decode, a);
    AcceptedRoot(decode, b);
    AcceptedManifests(decode, a);
    AcceptedManifests(decode, b);
    var s, t := Canonical(decode, a), Canonical(decode, b);
    if Contents(decode, a) == Contents(decode, b) {
      CanonicalList(Keys(s), Keys(t));
      assert |Keys(s)| == |s| && |Keys(t)| == |t|;
      SameKeysSameLeaves(s, t);
    }
    if RootHash(PieceSetOf(decode, a).value) == RootHash(PieceSetOf(decode, b).value) {
      RootBinds(Enumerate(s), Enumerate(t));
      SameLeavesSameKeys(s, t);
    }
  }

  /** Every number that is hashed fits its ABI type, so encoding an accepted piece set never fails. */
  lemma AbiRanges(decode: Multibase, pieces: seq<ManifestPiece>, i: nat)
    requires PieceSetOf(decode, pieces).Ok? && i < |PieceSetOf(decode, pieces).value.rows|
    ensures var ps := PieceSetOf(decode, pieces).value;
            && |ps.rows| <= MAX_UINT32 && ps.sizeBytes <= MAX_UINT32 * MAX_UINT64
            && ps.rows[i].index <= MAX_UINT32 && 0 < ps.rows[i].paddedSize <= MAX_UINT64 && |ps.rows[i].digest| == 32
  {
    AcceptedManifests(decode, pieces);
    hide ParsePiece, Sort, StrictlyAscending, TotalSize, LeavesOf, TreeOf;
    var s := Canonical(decode, pieces);
    forall k | 0 <= k < |s|
      ensures 0 < s[k].size <= MAX_UINT64 && |s[k].digest| == 32
    {
      PieceRanges(decode, pieces, k);
    }
    TotalSizeBound(s);
    MulMonotone(MAX_UINT64, |s|, MAX_UINT32);
  }

  lemma PieceRanges(decode: Multibase, pieces: seq<ManifestPiece>, k: nat)
    requires ParseAll(decode, pieces).Ok? && k < |Canonical(decode, pieces)|
    ensures var p := Canonical(decode, pieces)[k]; 0 < p.size <= MAX_UINT64 && |p.digest| == 32
  {
    hide Sort, ParseAll, Ascending, Keys;
    var s, parsed := Canonical(decode, pieces), ParseAll(decode, pieces).value;
    SortIsOrderedPermutation(parsed);
    assert s[k] in multiset(parsed);
    var j :| 0 <= j < |parsed| && parsed[j] == s[k];
    assert ParsePiece(decode, pieces[j]).Ok?;
  }

  lemma {:induction false} TotalSizeBound(s: seq<Parsed>)
    requires forall k :: 0 <= k < |s| ==> s[k].size <= MAX_UINT64
    ensures TotalSize(s) <= |s| * MAX_UINT64
  {
    if s != [] {
      TotalSizeBound(s[..|s| - 1]);
    }
  }

  // ---- proofs ----

  /** Python's `s[i]`: a negative index counts from the end, and one out of range raises. */
  function At<T>(s: seq<T>, i: int): Option<T> {
    if 0 <= i < |s| then Some(s[i]) else if -|s| <= i < 0 then Some(s[|s| + i]) else None
  }

  function ShiftRight(x: int, n: nat): int
    decreases n
  {
    if n == 0 then x else ShiftRight(x / 2, n - 1)
  }

  function FlipLowBit(x: int): int {
    if x % 2 == 0 then x + 1 else x - 1
  }

  /** The siblings on every level but the last, from level `depth` up. */
  function ProofFrom(levels: seq<seq<Hash>>, index: int, depth: nat): Option<seq<Hash>>
    requires depth < |levels|
    decreases |levels| - depth
  {
    if depth == |levels| - 1 then Some([])
    else match (At(levels[depth], FlipLowBit(ShiftRight(index, depth))), ProofFrom(levels, index, depth + 1)) {
      case (Some(sibling), Some(rest)) => Some([sibling] + rest)
      case _ => None
    }
  }

  function Proof(ps: PieceSet, index: int): Option<seq<Hash>>
    requires ps.HasRoot()
  {
    ProofFrom(ps.levels, index, 0)
  }

  function Parent(h: Hash, index: nat, sibling: Hash): Hash {
    if index % 2 == 0 then Node(h, sibling) else Node(sibling, h)
  }

  /** How a verifier uses a proof: the bits of the index say on which side each sibling goes. */
  function Fold(h: Hash, index: nat, siblings: seq<Hash>): Hash
    decreases |siblings|
  {
    if siblings == [] then h
    else Fold(Parent(h, index, siblings[0]), index / 2, siblings[1..])
  }

  function Siblings(level: seq<Hash>, depth: nat, index: nat): (siblings: seq<Hash>)
    requires |level| == Pow(2, depth) && index < |level|
    ensures |siblings| == depth
    decreases depth
  {
    if depth == 0 then [] else [level[FlipLowBit(index)]] + Siblings(Pairs(level), depth - 1, index / 2)
  }

  lemma {:induction false} ProofShift(levels: seq<seq<Hash>>, index: int, depth: nat)
    requires depth + 1 < |levels|
    ensures ProofFrom(levels, index, depth + 1) == ProofFrom(levels[1..], index / 2, depth)
    decreases |levels| - depth
  {
    if depth + 1 < |levels| - 1 {
      ProofShift(levels, index, depth + 1);
      assert levels[1..][depth] == levels[depth + 1];
    }
  }

  /** Where an index, possibly negative, points to in a level of `width` hashes. */
  function Position(index: int, width: nat): int {
    if index < 0 then index + width else index
  }

  lemma SiblingAt(level: seq<Hash>, index: int)
    requires |level| % 2 == 0
    ensures -|level| <= index < |level| ==>
              var i := Position(index, |level|);
              && 0 <= i < |level| && 0 <= FlipLowBit(i) < |level| && i / 2 == Position(index / 2, |level| / 2)
              && At(level, FlipLowBit(index)) == Some(level[FlipLowBit(i)])
    ensures !(-|level| <= index < |level|) ==> At(level, FlipLowBit(index)) == None
  {
  }

  lemma OneLevelUp(level: seq<Hash>, depth: nat, index: nat)
    requires |level| == Pow(2, depth) && depth > 0 && index < |level|
    ensures |level| == 2 * |Pairs(level)| && |Pairs(level)| == Pow(2, depth - 1)
    ensures RootOf(level, depth) == RootOf(Pairs(level), depth - 1)
    ensures Siblings(level, depth, index) == [level[FlipLowBit(index)]] + Siblings(Pairs(level), depth - 1, index / 2)
  {
  }

  lemma FirstOfProof(level: seq<Hash>, above: seq<seq<Hash>>, index: int)
    requires above != []
    ensures var first, rest := At(level, FlipLowBit(index)), ProofFrom(above, index / 2, 0);
            ProofFrom([level] + above, index, 0)
            == if first.Some? && rest.Some? then Some([first.value] + rest.value) else None
  {
    hide At, FlipLowBit;
    ProofShift([level] + above, index, 0);
    assert ([level] + above)[1..] == above;
    assert ShiftRight(index, 0) == index;
  }

  /** The first sibling of a proof, then the proof one level up. */
  lemma ProofOneLevelUp(level: seq<Hash>, depth: nat, index: int)
    requires |level| == Pow(2, depth) && depth > 0
    ensures |Pairs(level)| == Pow(2, depth - 1)
    ensures var first, rest := At(level, FlipLowBit(index)), ProofFrom(Levels(Pairs(level), depth - 1), index / 2, 0);
            ProofFrom(Levels(level, depth), index, 0)
            == if first.Some? && rest.Some? then Some([first.value] + rest.value) else None
  {
    assert Levels(level, depth) == [level] + Levels(Pairs(level), depth - 1);
    hide At, FlipLowBit, ProofFrom, Pairs, Levels, Pow;
    FirstOfProof(level, Levels(Pairs(level), depth - 1), index);
  }

  lemma {:induction false} ProofIsSiblings(level: seq<Hash>, depth: nat, index: int)
    requires |level| == Pow(2, depth)
    ensures depth > 0 ==>
              ProofFrom(Levels(level, depth), index, 0)
                == if -|level| <= index < |level| then Some(Siblings(level, depth, Position(index, |level|))) else None
    ensures depth == 0 ==> ProofFrom(Levels(level, depth), index, 0) == Some([])
    decreases depth
  {
    if depth > 0 {
      ProofOneLevelUp(level, depth, index);
      SiblingAt(level, index);
      OneLevelUp(level, depth, if -|level| <= index < |level| then Position(index, |level|) else 0);
      ProofIsSiblings(Pairs(level), depth - 1, index / 2);
      NoSiblings(Pairs(level), depth - 1, Position(index / 2, |Pairs(level)|));
      hide Pow, At, FlipLowBit, ProofFrom, Levels, Pairs, Siblings, RootOf;
    }
  }

  lemma NoSiblings(level: seq<Hash>, depth: nat, index: int)
    requires |level| == Pow(2, depth)
    ensures depth == 0 && 0 <= index < |level| ==> |level| == 1 && Siblings(level, depth, index) == []
  {
  }

  lemma {:induction false} FoldComplete(level: seq<Hash>, depth: nat, index: nat)
    requires |level| == Pow(2, depth) && index < |level|
    ensures Fold(level[index], index, Siblings(level, depth, index)) == RootOf(level, depth)
    decreases depth
  {
    if depth > 0 {
      var siblings := Siblings(level, depth, index);
      OneLevelUp(level, depth, index);
      assert siblings[1..] == Siblings(Pairs(level), depth - 1, index / 2);
      assert Fold(level[index], index, siblings) == Fold(Pairs(level)[index / 2], index / 2, siblings[1..]);
      FoldComplete(Pairs(level), depth - 1, index / 2);
      hide Pow, Fold, Pairs, RootOf, Siblings, Parent, FlipLowBit;
    }
  }

  lemma ParentInPair(level: seq<Hash>, h: Hash, index: nat, sibling: Hash)
    requires |level| % 2 == 0 && level != []
    requires Parent(h, index, sibling) == Pairs(level)[index / 2 % (|level| / 2)]
    ensures var i := index % |level|;
            && h == level[i] && sibling == level[FlipLowBit(i)] && i / 2 == index / 2 % (|level| / 2)
  {
    HalfModulo(index, |level| / 2);
  }

  lemma {:induction false} FoldSound(level: seq<Hash>, depth: nat, h: Hash, index: nat, siblings: seq<Hash>)
    requires |level| == Pow(2, depth) && |siblings| == depth
    requires Fold(h, index, siblings) == RootOf(level, depth)
    ensures h == level[index % |level|] && siblings == Siblings(level, depth, index % |level|)
    decreases depth
  {
    if depth > 0 {
      assert Fold(h, index, siblings) == Fold(Parent(h, index, siblings[0]), index / 2, siblings[1..]);
      OneLevelUp(level, depth, index % |level|);
      hide Pow, Fold, Pairs, Parent, FlipLowBit, RootOf, Siblings;
      FoldSound(Pairs(level), depth - 1, Parent(h, index, siblings[0]), index / 2, siblings[1..]);
      ParentInPair(level, h, index, siblings[0]);
      assert siblings == [siblings[0]] + siblings[1..];
    }
  }

  lemma HalfModulo(index: nat, half: nat)
    requires half > 0
    ensures index % (2 * half) == 2 * (index / 2 % half) + index % 2
  {
    var q, r := index / 2 / half, index / 2 % half;
    FundamentalDivMod(index / 2, half);
    var low := 2 * r + index % 2;
    MulAssociates(q, half, 2);
    assert index == q * (half * 2) + low;
    DivModUnique(half * 2, q, low);
  }

  /** What lies `|siblings|` levels below the result of a fold is what was folded. */
  lemma {:induction false} FoldHeight(h: Hash, index: nat, siblings: seq<Hash>, n: nat)
    requires AtHeight(n, Fold(h, index, siblings))
    ensures |siblings| <= n && AtHeight(n - |siblings|, h)
    decreases |siblings|
  {
    if siblings != [] {
      FoldHeight(Parent(h, index, siblings[0]), index / 2, siblings[1..], n);
    }
  }

  /** Proof extraction never looks outside the tree for an index of the padded width, counted from either end, and
      raises for any other, except that a single piece has the empty proof at every index; and the proof of a
      position leads from the hash there to the root. */
  lemma ProofComplete(decode: Multibase, pieces: seq<ManifestPiece>, index: int)
    requires PieceSetOf(decode, pieces).Ok?
    ensures var ps := PieceSetOf(decode, pieces).value;
            var width: int := Pow(2, Depth(|ps.rows|));
            && |ps.levels[0]| == width >= |ps.rows|
            && (Proof(ps, index).Some? <==> |ps.rows| == 1 || -width <= index < width)
            && (-width <= index < width ==>
                  var i := Position(index, width);
                  Fold(ps.levels[0][i], i, Proof(ps, index).value) == RootHash(ps))
            && forall i :: 0 <= i < |ps.rows| ==> ps.levels[0][i] == LeafOf(ps.rows[i])
  {
    AcceptedRoot(decode, pieces);
    var ps := PieceSetOf(decode, pieces).value;
    var level, depth := Padded(LeavesOf(ps.rows)), Depth(|ps.rows|);
    ProofIsSiblings(level, depth, index);
    assert ps.levels[0] == level;
    DepthIsLeast(|ps.rows|, 0);
    if -|level| <= index < |level| {
      FoldComplete(level, depth, Position(index, |level|));
    }
  }

  /** No leaf that is not a row of the set can be proved: if any leaf folds to the root, with any siblings, however
      many, at any index, then the index is that of a row modulo the width, the leaf is exactly that row's and the
      siblings are exactly that row's proof. */
  lemma ProofSound(decode: Multibase, pieces: seq<ManifestPiece>, leaf: Hash, index: nat, siblings: seq<Hash>)
    requires PieceSetOf(decode, pieces).Ok? && leaf.Leaf?
    requires Fold(leaf, index, siblings) == RootHash(PieceSetOf(decode, pieces).value)
    ensures var ps := PieceSetOf(decode, pieces).value;
            var i := index % Pow(2, Depth(|ps.rows|));
            && i < |ps.rows| && leaf == LeafOf(ps.rows[i]) && leaf.index == i && Proof(ps, i) == Some(siblings)
  {
    AcceptedRoot(decode, pieces);
    AcceptedManifests(decode, pieces);
    hide PieceSetOf, Pow, Depth, BitLength, Fold, RootOf, Levels, Siblings;
    var ps := PieceSetOf(decode, pieces).value;
    var level, depth := Padded(LeavesOf(ps.rows)), Depth(|ps.rows|);
    PaddedHeight(ps.rows);
    RootHeight(level, depth, 0);
    FoldHeight(leaf, index, siblings, depth);
    HeightUnique(depth - |siblings|, 0, leaf);
    FoldSound(level, depth, leaf, index, siblings);
    ProofIsSiblings(level, depth, index % |level|);
  }
}
