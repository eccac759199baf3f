/**
 A fat binary on disk: arbitrary data, the index, and the 56-byte trailer that seals it.

 SHA-256 is an arbitrary function to 32 bytes. File sizes are int64.
 */
module FatBinary {
  import opened Basics
  import opened Wire
  import opened Format
  import opened Bounds

  const TRAILER_MAGIC: Bytes := [0x00, 0xFA, 0x7F, 0x4D, 0x49, 0x43, 0x52, 0x4F] // "\0\xFA\x7FMICRO"
  const TRAILER_SIZE: nat := 56
  const MAX_INDEX_SIZE: int := 1024 * 1024

  type Sum256 = d: Bytes | |d| == 32 witness seq(32, i => 0)
  type Sha = Bytes -> Sum256

  function TrailerBytes(offset: int64, size: int64, hash: Sum256): (b: Bytes)
    ensures |b| == TRAILER_SIZE
  {
    (Int64(offset) + Int64(size)) + (hash + TRAILER_MAGIC)
  }

  // ---------------------------------------------------------------- writing

  /** `WriteIndexAndTrailerWithVersion`: the bytes written behind `currentOffset` bytes of data. */
  function WriteIndexAndTrailer(idx: Index, currentOffset: int64, version: int, sha: Sha): Result<Bytes, FormatError> {
    if currentOffset < 0 then Err(NegativeOffset)
    else if version != 2 then Err(UnsupportedVersion)
    else
      var body :- Marshal(idx.(version := 2));
      if |body| > MAX_INDEX_SIZE then Err(IndexTooLarge)
      else Ok(body + TrailerBytes(currentOffset, |body|, sha(body)))
  }

  lemma {:induction false} VariantsFaults(vs: seq<Variant>)
    ensures VariantsFault(vs).Some? ==> VariantsFault(vs).value in {InvalidChecksum, FieldTooLong}
  {
    if vs != [] { VariantsFaults(vs[..|vs| - 1]); }
  }

  lemma MarshalFaults(idx: Index)
    ensures Marshal(idx).Err? ==> Marshal(idx).error in {InvalidChecksum, FieldTooLong}
  {
    VariantsFaults(Canon(idx).variants);
    hide IndexBytes, VariantsFault;
  }

  // ---------------------------------------------------------------- the trailer

  /** `body` sealed behind `prefix`. */
  function Sealed(prefix: Bytes, body: Bytes, sha: Sha): Bytes
    requires |prefix| <= MAX_INT64 && |body| <= MAX_INT64
  {
    prefix + body + TrailerBytes(|prefix|, |body|, sha(body))
  }

  /** The trailer checks of `ReadTrailerAndIndex`: what stands before the index, and the index bytes. */
  function OpenTrailer(file: Bytes, sha: Sha): Result<(Bytes, Bytes), FormatError>
    requires |file| <= MAX_INT64
  {
    if |file| < TRAILER_SIZE then Err(BinaryTooSmall)
    else
      var end := |file| - TRAILER_SIZE;
      if file[end + 48..] != TRAILER_MAGIC then Err(InvalidMagic)
      else
        var offset := ReadInt64(file, end).value.0;
        var size := ReadInt64(file, end + 8).value.0;
        if offset < 0 || offset >= end then Err(InvalidIndexOffset)
        else if size <= 0 || size > MAX_INDEX_SIZE || size != end - offset then Err(InvalidIndexSize)
        else if sha(file[offset..end]) != file[end + 16..end + 48] then Err(IndexCorrupted)
        else Ok((file[..offset], file[offset..end]))
  }

  lemma TrailerAt(file: Bytes, end: nat, offset: int64, size: int64, hash: Sum256)
    ensures At(file, end, TrailerBytes(offset, size, hash))
       <==> && ReadInt64(file, end) == Some((offset, end + 8)) && ReadInt64(file, end + 8) == Some((size, end + 16))
            && At(file, end + 16, hash) && At(file, end + 48, TRAILER_MAGIC)
  {
    hide At, ReadInt64, Int64;
    AtSplit(file, end, Int64(offset) + Int64(size), hash + TRAILER_MAGIC);
    AtSplit(file, end, Int64(offset), Int64(size));
    AtSplit(file, end + 16, hash, TRAILER_MAGIC);
    ReadInt64Exact(file, end, offset);
    ReadInt64Exact(file, end + 8, size);
  }

  /** The 56 bytes of a trailer: offset, size, hash, magic. */
  lemma TrailerLayout(offset: int64, size: int64, hash: Sum256)
    ensures var b := TrailerBytes(offset, size, hash);
      && ReadInt64(b, 0) == Some((offset, 8)) && ReadInt64(b, 8) == Some((size, 16)) && b[16..48] == hash
      && b[48..] == [0x00, 0xFA, 0x7F, 'M' as byte, 'I' as byte, 'C' as byte, 'R' as byte, 'O' as byte]
  {
    var b := TrailerBytes(offset, size, hash);
    assert b[0..56] == b;
    TrailerAt(b, 0, offset, size, hash);
    assert b[48..56] == b[48..];
  }

  /** A file is written exactly behind a nonnegative offset, in version 2, for an index of at most 1 MiB. */
  lemma WriteExact(idx: Index, offset: int64, version: int, sha: Sha)
    ensures var body := Marshal(idx.(version := 2)); var r := WriteIndexAndTrailer(idx, offset, version, sha);
      && (r == Err(NegativeOffset) <==> offset < 0)
      && (offset >= 0 ==> (r == Err(UnsupportedVersion) <==> version != 2))
      && (offset >= 0 && version == 2 && body.Err? ==> r == Err(body.error))
      && (offset >= 0 && version == 2 && body.Ok? ==>
            if |body.value| > 1024 * 1024 then r == Err(IndexTooLarge)
            else r.Ok? && body.value <= r.value && |r.value| == |body.value| + 56)
  {
    hide IndexBytes, EncodeFault, TrailerBytes;
    MarshalFaults(idx.(version := 2));
  }

  lemma SealedOpens(prefix: Bytes, body: Bytes, sha: Sha)
    requires 0 < |body| <= MAX_INDEX_SIZE && |prefix| + |body| + TRAILER_SIZE <= MAX_INT64
    ensures OpenTrailer(Sealed(prefix, body, sha), sha) == Ok((prefix, body))
  {
    hide TrailerBytes, ReadInt64;
    var file, end := Sealed(prefix, body, sha), |prefix| + |body|;
    assert file[end..end + 56] == TrailerBytes(|prefix|, |body|, sha(body));
    TrailerAt(file, end, |prefix|, |body|, sha(body));
    assert file[..|prefix|] == prefix && file[|prefix|..end] == body;
  }

  lemma OpenedWasSealed(file: Bytes, sha: Sha)
    requires |file| <= MAX_INT64 && OpenTrailer(file, sha).Ok?
    ensures var (prefix, body) := OpenTrailer(file, sha).value;
      0 < |body| <= MAX_INDEX_SIZE && |prefix| <= MAX_INT64 && file == Sealed(prefix, body, sha)
  {
    hide TrailerBytes, FromLE, ToI64;
    var (prefix, body) := OpenTrailer(file, sha).value;
    var end := |prefix| + |body|;
    TrailerAt(file, end, |prefix|, |body|, sha(body));
    assert file == file[..|prefix|] + file[|prefix|..end] + file[end..];
  }

  /** A file opens to a prefix and an index exactly when it is that index sealed behind that prefix. */
  lemma OpenTrailerExact(file: Bytes, prefix: Bytes, body: Bytes, sha: Sha)
    requires |file| <= MAX_INT64
    ensures OpenTrailer(file, sha) == Ok((prefix, body))
       <==> |prefix| <= MAX_INT64 && 0 < |body| <= MAX_INDEX_SIZE && file == Sealed(prefix, body, sha)
  {
    hide OpenTrailer, TrailerBytes;
    if OpenTrailer(file, sha).Ok? { OpenedWasSealed(file, sha); }
    if |prefix| <= MAX_INT64 && 0 < |body| <= MAX_INDEX_SIZE && file == Sealed(prefix, body, sha) {
      SealedOpens(prefix, body, sha);
    }
  }

  /** Each error of the trailer checks names a fault that is there. */
  lemma TrailerFaults(file: Bytes, sha: Sha)
    requires |file| <= MAX_INT64 && OpenTrailer(file, sha).Err?
    ensures OpenTrailer(file, sha).error == BinaryTooSmall <==> |file| < 56
    ensures |file| >= 56 ==>
      var end := |file| - 56;
      var offset, size := ReadInt64(file, end), ReadInt64(file, end + 8);
      && offset.Some? && size.Some?
      && match OpenTrailer(file, sha).error {
           case InvalidMagic => file[end + 48..] != [0x00, 0xFA, 0x7F, 0x4D, 0x49, 0x43, 0x52, 0x4F]
           case InvalidIndexOffset => !(0 <= offset.value.0 < end)
           case InvalidIndexSize => size.value.0 != end - offset.value.0 || size.value.0 > 1024 * 1024
           case IndexCorrupted =>
             && 0 <= offset.value.0 < end && size.value.0 == end - offset.value.0
             && sha(file[offset.value.0..end]) != file[end + 16..end + 48]
           case _ => false
         }
  {
  }

  // ---------------------------------------------------------------- reading

  /** The first byte that is not blank, tab or line end is an opening brace. */
  predicate LooksLikeLegacyJSON(data: Bytes) {
    data != [] && if data[0] in {0x20, 0x09, 0x0D, 0x0A} then LooksLikeLegacyJSON(data[1..]) else data[0] == 0x7B
  }

  /** The first `n` bytes are blanks, tabs or line ends, and then comes an opening brace. */
  predicate BraceAt(data: Bytes, n: nat) {
    && n < |data| && data[n] == '{' as byte
    && forall i :: 0 <= i < n ==>
         data[i] == ' ' as byte || data[i] == '\t' as byte || data[i] == '\r' as byte || data[i] == '\n' as byte
  }

  lemma {:induction false} LegacyExact(data: Bytes)
    ensures LooksLikeLegacyJSON(data) <==> exists n: nat :: BraceAt(data, n)
  {
    if data != [] && data[0] in {0x20, 0x09, 0x0D, 0x0A} {
      LegacyExact(data[1..]);
      if n: nat :| BraceAt(data[1..], n) {
        forall i | 0 <= i < n + 1 ensures data[i] == if i == 0 then data[0] else data[1..][i - 1] {}
        assert BraceAt(data, n + 1);
      }
      if n: nat :| BraceAt(data, n) {
        assert n > 0;
        assert forall i :: 0 <= i < n - 1 ==> data[1..][i] == data[i + 1];
        assert BraceAt(data[1..], n - 1);
      }
    } else if data != [] && data[0] == 0x7B {
      assert BraceAt(data, 0);
    }
  }

  /** The index a file holds, if every check passes. */
  function ReadBack(file: Bytes, sha: Sha, plat: Platform): Option<Index>
    requires |file| <= MAX_INT64
  {
    match OpenTrailer(file, sha)
    case Err(_) => None
    case Ok((prefix, body)) =>
      match Unmarshal(body, plat.wideLower)
      case Err(_) => None
      case Ok(idx) => if InBounds(idx, |prefix|, plat) then Some(idx) else None
  }

  lemma DecodableIsNotLegacy(data: Bytes)
    requires DecodeIndex(data).Ok?
    ensures !LooksLikeLegacyJSON(data)
  {
    assert data[0] == data[0..4][0] == INDEX_MAGIC[0] == 0;
  }

  lemma PrefixFits(file: Bytes, sha: Sha)
    requires |file| <= MAX_INT64 && OpenTrailer(file, sha).Ok?
    ensures |OpenTrailer(file, sha).value.0| <= MAX_INT64
  {
  }

  /** `ReadTrailerAndIndex`. */
  method ReadTrailerAndIndex(file: Bytes, sha: Sha, plat: Platform) returns (r: Result<Index, FormatError>)
    requires |file| <= MAX_INT64
    ensures r.Ok? <==> ReadBack(file, sha, plat).Some?
    ensures r.Ok? ==> ReadBack(file, sha, plat) == Some(r.value)
    ensures OpenTrailer(file, sha).Err? ==> r == Err(OpenTrailer(file, sha).error)
    ensures OpenTrailer(file, sha).Ok? ==>
      var (prefix, body) := OpenTrailer(file, sha).value;
      var decoded := Unmarshal(body, plat.wideLower);
      && (LooksLikeLegacyJSON(body) ==> r == Err(UnsupportedVersion))
      && (!LooksLikeLegacyJSON(body) && decoded.Err? ==> r == Err(decoded.error))
      && (!LooksLikeLegacyJSON(body) && decoded.Ok? && r.Err? ==> Justified(r.error, decoded.value, |prefix|, plat))
  {
    hide InBounds, Justified, OpenTrailer, DecodeIndex;
    var parts :- OpenTrailer(file, sha);
    var (prefix, body) := parts;
    PrefixFits(file, sha);
    if LooksLikeLegacyJSON(body) {
      if DecodeIndex(body).Ok? { DecodableIsNotLegacy(body); }
      return Err(UnsupportedVersion);
    }
    var idx :- UnmarshalBinaryIndex(body, plat.wideLower);
    var err := ValidateBounds(idx, |prefix|, plat);
    if err.Some? { return Err(err.value); }
    return Ok(idx);
  }

  /** What a readable file is, byte for byte; `junk` is ignored space behind the index, covered by the hash. */
  predicate Describes(file: Bytes, prefix: Bytes, raw: Index, junk: Bytes, sha: Sha) {
    && raw.version == 2 && Encodable(raw)
    && |prefix| <= MAX_INT64 && |IndexBytes(raw) + junk| <= MAX_INDEX_SIZE
    && file == Sealed(prefix, IndexBytes(raw) + junk, sha)
  }

  lemma IndexBytesNonempty(raw: Index)
    requires Encodable(raw)
    ensures |IndexBytes(raw)| > 0
  {
  }

  lemma DescribedFileOpens(file: Bytes, prefix: Bytes, raw: Index, junk: Bytes, sha: Sha, plat: Platform)
    requires |file| <= MAX_INT64 && Describes(file, prefix, raw, junk, sha)
    ensures ReadBack(file, sha, plat)
         == if InBounds(Norm(raw, plat.wideLower), |prefix|, plat) then Some(Norm(raw, plat.wideLower)) else None
  {
    hide InBounds, OpenTrailer, DecodeIndex, IndexBytes, Sealed, Norm, Encodable;
    var body := IndexBytes(raw) + junk;
    IndexBytesNonempty(raw);
    OpenTrailerExact(file, prefix, body, sha);
    assert body[0..|IndexBytes(raw)|] == IndexBytes(raw);
    DecodeIndexExact(body, raw, |IndexBytes(raw)|);
  }

  /** Every file that reads is a sealed index in bounds: nothing else is accepted. */
  lemma ReadableIsDescribed(file: Bytes, sha: Sha, plat: Platform) returns (prefix: Bytes, raw: Index, junk: Bytes)
    requires |file| <= MAX_INT64 && ReadBack(file, sha, plat).Some?
    ensures Describes(file, prefix, raw, junk, sha)
    ensures ReadBack(file, sha, plat) == Some(Norm(raw, plat.wideLower))
    ensures InBounds(Norm(raw, plat.wideLower), |prefix|, plat)
  {
    hide InBounds, OpenTrailer, DecodeIndex, IndexBytes, Sealed, Norm, Encodable;
    var parts := OpenTrailer(file, sha).value;
    prefix := parts.0;
    var body := parts.1;
    OpenTrailerExact(file, prefix, body, sha);
    raw := DecodeIndex(body).value.0;
    var n := DecodeIndex(body).value.1;
    DecodeIndexExact(body, raw, n);
    junk := body[n..];
    assert body == IndexBytes(raw) + junk;
  }

  // ---------------------------------------------------------------- writing and reading back

  lemma LoweringKeepsVariants(vs: seq<Variant>, arch: Bytes, plat: Platform)
    requires AllEncodable(Named(vs))
    ensures var ns := NormVariants(vs, plat.wideLower);
      && (SoundVariants(ns, arch, plat) <==> SoundVariants(vs, arch, plat))
      && (DistinctLevels(ns, plat) <==> DistinctLevels(vs, plat))
      && Payloads(ns) == Payloads(vs)
  {
    hide IsDigest, Lower;
    var ns := NormVariants(vs, plat.wideLower);
    forall i | 0 <= i < |vs|
      ensures SoundPayload(ns[i]) <==> SoundPayload(vs[i])
      ensures ns[i].level == vs[i].level && RegionOf(ns[i]) == RegionOf(vs[i])
    {
      assert EncodableVariant(Named(vs)[i]);
      LowerDigest(vs[i].sha, plat.wideLower);
    }
  }

  /** Lower-casing digests and naming compressions moves nothing in or out of bounds. */
  lemma LoweringKeepsBounds(idx: Index, limit: int, plat: Platform)
    requires Encodable(Canon(idx))
    ensures InBounds(Norm(idx, plat.wideLower), limit, plat) <==> InBounds(idx, limit, plat)
  {
    hide IsDigest, Lower, Laid, SoundVariants, DistinctLevels, EncodableVariant, Payloads;
    LoweringKeepsVariants(idx.variants, idx.targetArch, plat);
    if idx.dictSize > 0 { LowerDigest(idx.dictSHA, plat.wideLower); }
  }

  lemma NormOfCanon(idx: Index, wide: Bytes -> Bytes)
    ensures Norm(Canon(idx), wide) == Norm(idx, wide)
  {
  }

  lemma WrittenIsEncodable(idx: Index, offset: int64, sha: Sha)
    requires WriteIndexAndTrailer(idx, offset, 2, sha).Ok?
    ensures forall i :: 0 <= i < |idx.variants| ==> IsDigest(idx.variants[i].sha)
  {
    hide IsDigest, IndexBytes, TrailerBytes;
    var canon := Canon(idx.(version := 2));
    EncodableIff(canon);
    forall i | 0 <= i < |idx.variants| ensures IsDigest(idx.variants[i].sha) {
      assert EncodableVariant(canon.variants[i]);
    }
  }

  /** A written file reads back exactly when the index is in bounds, and then as the index itself, normalized. */
  lemma WrittenReadsBack(prefix: Bytes, idx: Index, sha: Sha, plat: Platform)
    requires |prefix| <= MAX_INT64 && WriteIndexAndTrailer(idx, |prefix|, 2, sha).Ok?
    requires |prefix| + |WriteIndexAndTrailer(idx, |prefix|, 2, sha).value| <= MAX_INT64
    ensures var file := prefix + WriteIndexAndTrailer(idx, |prefix|, 2, sha).value;
      ReadBack(file, sha, plat)
      == if InBounds(idx.(version := 2), |prefix|, plat) then Some(Norm(idx.(version := 2), plat.wideLower)) else None
    ensures SameIndex(Norm(idx.(version := 2), plat.wideLower), idx.(version := 2))
  {
    WrittenIsEncodable(idx, |prefix|, sha);
    NormSaysTheSame(idx.(version := 2), plat.wideLower);
    hide SameIndex;
    hide InBounds, ReadBack, IndexBytes, Norm, Encodable, TrailerBytes, EncodeFault;
    var idx2 := idx.(version := 2);
    var raw := Canon(idx2);
    EncodableIff(raw);
    var body := IndexBytes(raw);
    var file := prefix + WriteIndexAndTrailer(idx, |prefix|, 2, sha).value;
    assert body + [] == body;
    assert file == Sealed(prefix, body, sha);
    DescribedFileOpens(file, prefix, raw, [], sha, plat);
    NormOfCanon(idx2, plat.wideLower);
    LoweringKeepsBounds(idx2, |prefix|, plat);
  }
}
