/**
 The binary index of a fat binary: its bytes, its encoder and its decoder. Go strings are byte sequences.
 */
module Format {
  import opened Basics
  import opened Wire

  const INDEX_MAGIC: Bytes := [0x00, 0xFA, 0x4D, 0x32] // "\0\xFAM2"
  const ZSTD: Bytes := [0x7A, 0x73, 0x74, 0x64]

  type uint32 = x: int | 0 <= x < 0x1_0000_0000 witness 0

  datatype Variant = Variant(level: Bytes, offset: int64, compressed: int64, uncompressed: int64, sha: Bytes,
                             compression: Bytes)

  datatype Index = Index(
    version: int, appName: Bytes, targetOS: Bytes, targetArch: Bytes,
    created: int64, dictOffset: int64, dictSize: int64, dictSHA: Bytes, dictID: uint32, variants: seq<Variant>)

  datatype FormatError =
    | TruncatedIndex | InvalidMagic | UnsupportedVersion | InvalidChecksum | FieldTooLong
    | BinaryTooSmall | InvalidIndexOffset | InvalidIndexSize | IndexCorrupted | IndexTooLarge | NegativeOffset
    | OutOfBounds | NoVariants | InvalidVariant | DuplicateVariant | PayloadTooLarge | OverlappingVariant
    | InvalidDictionary

  // ---------------------------------------------------------------- checksums and normalization

  predicate IsHexByte(b: byte) { 0x30 <= b <= 0x39 || 0x61 <= b <= 0x66 || 0x41 <= b <= 0x46 }

  /** A nonempty digest that `ValidateChecksum` accepts. */
  predicate IsDigest(s: Bytes) {
    |s| == 64 && forall i :: 0 <= i < |s| ==> IsHexByte(s[i])
  }

  /** The same digests on bytes and on characters. */
  lemma DigestsAgree(s: Bytes)
    ensures IsDigest(s) <==> IsHexDigest(seq(|s|, i requires 0 <= i < |s| => s[i] as char))
  {
    var text := seq(|s|, i requires 0 <= i < |s| => s[i] as char);
    assert forall i :: 0 <= i < |s| ==> (IsHexDigit(text[i]) <==> IsHexByte(s[i]));
  }

  /** The value of a hexadecimal digit in either case. */
  function HexValue(b: byte): (v: nat)
    requires IsHexByte(b)
    ensures v < 16
  {
    if b <= 0x39 then b as nat - 0x30 else if b >= 0x61 then b as nat - 0x61 + 10 else b as nat - 0x41 + 10
  }

  /** The 32 bytes that a digest stands for. */
  function DigestBytes(s: Bytes): (d: Bytes)
    requires IsDigest(s)
    ensures |d| == 32
  {
    seq(32, i requires 0 <= i < 32 => (16 * HexValue(s[2 * i]) + HexValue(s[2 * i + 1])) as byte)
  }

  predicate NoUpper(s: Bytes) { forall i :: 0 <= i < |s| ==> !(0x41 <= s[i] <= 0x5A) }

  /** A small-letter digest is determined by the bytes it stands for. */
  lemma DigestIsDetermined(a: Bytes, b: Bytes)
    requires IsDigest(a) && IsDigest(b) && NoUpper(a) && NoUpper(b) && DigestBytes(a) == DigestBytes(b)
    ensures a == b
  {
    forall i | 0 <= i < 64 ensures a[i] == b[i] {
      var k := i / 2;
      assert DigestBytes(a)[k] == DigestBytes(b)[k];
      assert HexValue(a[2 * k]) == HexValue(b[2 * k]) && HexValue(a[2 * k + 1]) == HexValue(b[2 * k + 1]);
    }
  }

  function LowerByte(b: byte): byte { if 0x41 <= b <= 0x5A then b + 0x20 else b }

  predicate IsASCII(s: Bytes) { forall i :: 0 <= i < |s| ==> s[i] < 0x80 }

  /** `strings.ToLower`: bytewise on ASCII; `wide` does the rest. */
  function Lower(s: Bytes, wide: Bytes -> Bytes): Bytes {
    if IsASCII(s) then seq(|s|, i requires 0 <= i < |s| => LowerByte(s[i])) else wide(s)
  }

  /** Lowering keeps a digest a digest that stands for the same 32 bytes. */
  lemma LowerDigest(s: Bytes, wide: Bytes -> Bytes)
    requires IsDigest(s)
    ensures IsDigest(Lower(s, wide)) && NoUpper(Lower(s, wide))
    ensures DigestBytes(Lower(s, wide)) == DigestBytes(s)
    ensures Lower(s, wide) == s <==> NoUpper(s)
  {
    forall i | 0 <= i < 64
      ensures |Lower(s, wide)| == 64 && IsHexByte(Lower(s, wide)[i]) && HexValue(Lower(s, wide)[i]) == HexValue(s[i])
    {
      assert IsHexByte(s[i]);
    }
  }

  function DefaultCompression(v: Variant): Variant { if v.compression == [] then v.(compression := ZSTD) else v }

  function NormVariant(v: Variant, wide: Bytes -> Bytes): Variant {
    DefaultCompression(v).(sha := Lower(v.sha, wide))
  }

  function NormVariants(vs: seq<Variant>, wide: Bytes -> Bytes): (r: seq<Variant>)
    ensures |r| == |vs|
  {
    seq(|vs|, i requires 0 <= i < |vs| => NormVariant(vs[i], wide))
  }

  /** What decoding does to an index as it stands in the bytes: lower-cased digests, default compression. */
  function Norm(idx: Index, wide: Bytes -> Bytes): Index {
    idx.(dictSHA := Lower(idx.dictSHA, wide), variants := NormVariants(idx.variants, wide))
  }

  /** `r` is the text `s` with every capital ASCII letter made small. */
  predicate SmallLetters(r: Bytes, s: Bytes) {
    |r| == |s| && forall i :: 0 <= i < |s| ==>
      if 'A' <= s[i] as char <= 'Z' then r[i] as int == s[i] as int + ('a' as int - 'A' as int) else r[i] == s[i]
  }

  /** `r` says the same as `v`: digests by the bytes they stand for, and zstd where no compression is named. */
  predicate SameVariant(r: Variant, v: Variant) {
    && r.level == v.level && r.offset == v.offset
    && r.compressed == v.compressed && r.uncompressed == v.uncompressed
    && IsDigest(r.sha) && NoUpper(r.sha) && IsDigest(v.sha) && DigestBytes(r.sha) == DigestBytes(v.sha)
    && r.compression == if v.compression == [] then [0x7A, 0x73, 0x74, 0x64] else v.compression
  }

  predicate SameIndex(r: Index, idx: Index) {
    && r.version == idx.version && r.appName == idx.appName && r.targetOS == idx.targetOS
    && r.targetArch == idx.targetArch && r.created == idx.created
    && r.dictOffset == idx.dictOffset && r.dictSize == idx.dictSize && r.dictID == idx.dictID
    && (IsASCII(idx.dictSHA) ==> SmallLetters(r.dictSHA, idx.dictSHA))
    && (IsDigest(idx.dictSHA) ==>
          IsDigest(r.dictSHA) && NoUpper(r.dictSHA) && DigestBytes(r.dictSHA) == DigestBytes(idx.dictSHA))
    && |r.variants| == |idx.variants|
    && forall i :: 0 <= i < |r.variants| ==> SameVariant(r.variants[i], idx.variants[i])
  }

  lemma NormVariantSaysTheSame(v: Variant, wide: Bytes -> Bytes)
    requires IsDigest(v.sha)
    ensures SameVariant(NormVariant(v, wide), v)
  {
    LowerDigest(v.sha, wide);
  }

  /** Normalization changes letter case and spells out a default, and nothing else. */
  lemma NormSaysTheSame(idx: Index, wide: Bytes -> Bytes)
    requires forall i :: 0 <= i < |idx.variants| ==> IsDigest(idx.variants[i].sha)
    ensures SameIndex(Norm(idx, wide), idx)
    ensures !IsASCII(idx.dictSHA) ==> Norm(idx, wide).dictSHA == wide(idx.dictSHA)
  {
    hide IsDigest, SameVariant, NormVariant, DigestBytes, NoUpper;
    if IsDigest(idx.dictSHA) { LowerDigest(idx.dictSHA, wide); }
    forall i | 0 <= i < |idx.variants| ensures SameVariant(Norm(idx, wide).variants[i], idx.variants[i]) {
      NormVariantSaysTheSame(idx.variants[i], wide);
    }
  }

  // ---------------------------------------------------------------- the bytes of an index

  predicate EncodableVariant(v: Variant) {
    |v.level| <= 255 && IsDigest(v.sha) && |v.compression| <= 255
  }

  function Numbers(a: int64, b: int64, c: int64): (r: Bytes)
    ensures |r| == 24
  {
    Int64(a) + Int64(b) + Int64(c)
  }

  function VariantBytes(v: Variant): Bytes
    requires EncodableVariant(v)
  {
    Short(v.level) + Numbers(v.offset, v.compressed, v.uncompressed) + Short(v.sha) + Short(v.compression)
  }

  predicate AllEncodable(vs: seq<Variant>) {
    forall i :: 0 <= i < |vs| ==> EncodableVariant(vs[i])
  }

  function VariantsBytes(vs: seq<Variant>): Bytes
    requires AllEncodable(vs)
  {
    if vs == [] then [] else VariantsBytes(vs[..|vs| - 1]) + VariantBytes(vs[|vs| - 1])
  }

  /** The texts of the head, and the number of variants behind it. */
  datatype Texts = Texts(dictSHA: Bytes, targetOS: Bytes, targetArch: Bytes, appName: Bytes, count: nat)

  predicate EncodableTexts(t: Texts) {
    |t.dictSHA| <= 255 && |t.targetOS| <= 255 && |t.targetArch| <= 255 && |t.appName| <= 65535 && t.count <= 65535
  }

  function FixedBytes(created: int64, dictOffset: int64, dictSize: int64, dictID: uint32): (b: Bytes)
    ensures |b| == 34
  {
    INDEX_MAGIC + LE(2, 2) + Numbers(created, dictOffset, dictSize) + LE(dictID, 4)
  }

  function TextBytes(t: Texts): Bytes
    requires EncodableTexts(t)
  {
    (Short(t.dictSHA) + Short(t.targetOS) + Short(t.targetArch)) + (Long(t.appName) + LE(t.count, 2))
  }

  function TextsOf(idx: Index): Texts { Texts(idx.dictSHA, idx.targetOS, idx.targetArch, idx.appName, |idx.variants|) }

  function HeadBytes(idx: Index): Bytes
    requires EncodableTexts(TextsOf(idx))
  {
    FixedBytes(idx.created, idx.dictOffset, idx.dictSize, idx.dictID) + TextBytes(TextsOf(idx))
  }

  /** What a version-2 index can hold: lengths that fit their prefixes, and a digest wherever one is required. */
  predicate Encodable(idx: Index) {
    && EncodableTexts(TextsOf(idx))
    && (idx.dictSize > 0 ==> IsDigest(idx.dictSHA))
    && AllEncodable(idx.variants)
  }

  function IndexBytes(idx: Index): Bytes
    requires Encodable(idx)
  {
    HeadBytes(idx) + VariantsBytes(idx.variants)
  }

  // ---------------------------------------------------------------- decoding

  function Got<T>(r: Option<T>): Result<T, FormatError> {
    match r
    case Some(x) => Ok(x)
    case None => Err(TruncatedIndex)
  }

  function ReadNumbers(data: Bytes, off: nat): Option<((int64, int64, int64), nat)> {
    if off + 24 > |data| then None
    else
      var a, b, c := ReadInt64(data, off), ReadInt64(data, off + 8), ReadInt64(data, off + 16);
      Some(((a.value.0, b.value.0, c.value.0), off + 24))
  }

  lemma ReadNumbersExact(data: Bytes, off: nat, a: int64, b: int64, c: int64)
    ensures At(data, off, Numbers(a, b, c)) <==> ReadNumbers(data, off) == Some(((a, b, c), off + 24))
  {
    AtSplit(data, off, Int64(a) + Int64(b), Int64(c));
    AtSplit(data, off, Int64(a), Int64(b));
    ReadInt64Exact(data, off, a);
    ReadInt64Exact(data, off + 8, b);
    ReadInt64Exact(data, off + 16, c);
  }

  /** `decodeBinaryVariant`, before normalization. */
  function DecodeVariant(data: Bytes, off: nat): Result<(Variant, nat), FormatError> {
    var (level, p1) :- Got(ReadShort(data, off));
    var (numbers, p2) :- Got(ReadNumbers(data, p1));
    var (sha, p3) :- Got(ReadShort(data, p2));
    if !IsDigest(sha) then Err(InvalidChecksum)
    else
      var (compression, p4) :- Got(ReadShort(data, p3));
      Ok((Variant(level, numbers.0, numbers.1, numbers.2, sha, compression), p4))
  }

  /** The readers return the fields of `v` one after the other from `off`. */
  predicate FirstFieldsRead(data: Bytes, off: nat, v: Variant) {
    var p := off + 1 + |v.level|;
    && ReadShort(data, off) == Some((v.level, p))
    && ReadNumbers(data, p) == Some(((v.offset, v.compressed, v.uncompressed), p + 24))
  }

  predicate LastFieldsRead(data: Bytes, p: nat, v: Variant) {
    && ReadShort(data, p) == Some((v.sha, p + 1 + |v.sha|))
    && ReadShort(data, p + 1 + |v.sha|) == Some((v.compression, p + 2 + |v.sha| + |v.compression|))
  }

  lemma FirstFieldsExact(data: Bytes, off: nat, v: Variant)
    requires EncodableVariant(v)
    ensures At(data, off, Short(v.level) + Numbers(v.offset, v.compressed, v.uncompressed))
       <==> FirstFieldsRead(data, off, v)
  {
    hide At, ReadShort, Short, Numbers, ReadNumbers;
    AtSplit(data, off, Short(v.level), Numbers(v.offset, v.compressed, v.uncompressed));
    ReadShortExact(data, off, v.level);
    ReadNumbersExact(data, off + 1 + |v.level|, v.offset, v.compressed, v.uncompressed);
  }

  lemma LastFieldsExact(data: Bytes, p: nat, v: Variant)
    requires EncodableVariant(v)
    ensures At(data, p, Short(v.sha) + Short(v.compression)) <==> LastFieldsRead(data, p, v)
  {
    hide At, ReadShort, Short;
    AtSplit(data, p, Short(v.sha), Short(v.compression));
    ReadShortExact(data, p, v.sha);
    ReadShortExact(data, p + 1 + |v.sha|, v.compression);
  }

  predicate FieldsRead(data: Bytes, off: nat, v: Variant) {
    FirstFieldsRead(data, off, v) && LastFieldsRead(data, off + 25 + |v.level|, v)
  }

  lemma VariantBytesRead(data: Bytes, off: nat, v: Variant)
    requires EncodableVariant(v)
    ensures At(data, off, VariantBytes(v)) <==> FieldsRead(data, off, v)
  {
    hide At, Short, Numbers, FirstFieldsRead, LastFieldsRead;
    var first, last := Short(v.level) + Numbers(v.offset, v.compressed, v.uncompressed),
      Short(v.sha) + Short(v.compression);
    assert VariantBytes(v) == first + last;
    AtSplit(data, off, first, last);
    FirstFieldsExact(data, off, v);
    LastFieldsExact(data, off + 25 + |v.level|, v);
  }

  lemma FieldsReadDecode(data: Bytes, off: nat, v: Variant, n: nat)
    ensures DecodeVariant(data, off) == Ok((v, n))
       <==> FieldsRead(data, off, v) && EncodableVariant(v) && n == off + |VariantBytes(v)|
  {
    hide IsDigest, ReadInt64;
  }

  /** Decoding yields a variant exactly when its bytes stand at the offset. */
  lemma DecodeVariantExact(data: Bytes, off: nat, v: Variant, n: nat)
    ensures DecodeVariant(data, off) == Ok((v, n))
       <==> EncodableVariant(v) && At(data, off, VariantBytes(v)) && n == off + |VariantBytes(v)|
  {
    FieldsReadDecode(data, off, v, n);
    if EncodableVariant(v) { VariantBytesRead(data, off, v); }
  }

  /** The variant loop of `UnmarshalBinaryIndex`, before normalization. */
  function DecodeVariants(data: Bytes, off: nat, count: nat): Result<(seq<Variant>, nat), FormatError> {
    if count == 0 then Ok(([], off))
    else
      var (vs, p) :- DecodeVariants(data, off, count - 1);
      var (v, p') :- DecodeVariant(data, p);
      Ok((vs + [v], p'))
  }

  lemma {:induction false} EncodedVariantsDecode(data: Bytes, off: nat, vs: seq<Variant>)
    requires AllEncodable(vs) && At(data, off, VariantsBytes(vs))
    ensures DecodeVariants(data, off, |vs|) == Ok((vs, off + |VariantsBytes(vs)|))
  {
    hide VariantBytes, DecodeVariant, At;
    if vs != [] {
      var init, v := vs[..|vs| - 1], vs[|vs| - 1];
      AtSplit(data, off, VariantsBytes(init), VariantBytes(v));
      EncodedVariantsDecode(data, off, init);
      DecodeVariantExact(data, off + |VariantsBytes(init)|, v, off + |VariantsBytes(vs)|);
      assert vs == init + [v];
    }
  }

  lemma {:induction false} DecodedVariantsEncode(data: Bytes, off: nat, count: nat)
    requires off <= |data| && DecodeVariants(data, off, count).Ok?
    ensures var (vs, n) := DecodeVariants(data, off, count).value;
      |vs| == count && AllEncodable(vs) && n == off + |VariantsBytes(vs)| && At(data, off, VariantsBytes(vs))
  {
    hide VariantBytes, DecodeVariant, At;
    if count == 0 {
      AtEmpty(data, off);
    } else {
      DecodedVariantsEncode(data, off, count - 1);
      var (init, p) := DecodeVariants(data, off, count - 1).value;
      var (v, n) := DecodeVariant(data, p).value;
      DecodeVariantExact(data, p, v, n);
      var vs := init + [v];
      assert vs[..|vs| - 1] == init;
      AtSplit(data, off, VariantsBytes(init), VariantBytes(v));
    }
  }

  // ---------------------------------------------------------------- the head

  /** The checks and fixed-width fields of the first 34 bytes. */
  function DecodeFixed(data: Bytes): Result<((int64, int64, int64), uint32), FormatError> {
    if |data| < 34 then Err(TruncatedIndex)
    else if data[0..4] != INDEX_MAGIC then Err(InvalidMagic)
    else if FromLE(data[4..6]) != 2 then Err(UnsupportedVersion)
    else
      ReadIntRange(data, 30, 4);
      Ok((ReadNumbers(data, 6).value.0, ReadInt(data, 30, 4).value.0))
  }

  lemma DecodeFixedExact(data: Bytes, a: int64, b: int64, c: int64, id: uint32)
    ensures DecodeFixed(data) == Ok(((a, b, c), id)) <==> At(data, 0, FixedBytes(a, b, c, id))
  {
    Widths();
    var magic, version := INDEX_MAGIC, LE(2, 2);
    var numbers, ids := Numbers(a, b, c), LE(id, 4);
    AtSplit(data, 0, magic + version + numbers, ids);
    AtSplit(data, 0, magic + version, numbers);
    AtSplit(data, 0, magic, version);
    ReadIntExact(data, 4, 2, 2);
    ReadNumbersExact(data, 6, a, b, c);
    ReadIntExact(data, 30, 4, id);
  }

  lemma FixedLayout(data: Bytes, a: int64, b: int64, c: int64, id: uint32)
    requires At(data, 0, FixedBytes(a, b, c, id))
    ensures |data| >= 34 && data[..6] == [0x00, 0xFA, 0x4D, 0x32, 0x02, 0x00]
    ensures ReadInt64(data, 6) == Some((a, 14)) && ReadInt64(data, 14) == Some((b, 22))
    ensures ReadInt64(data, 22) == Some((c, 30)) && ReadInt(data, 30, 4) == Some((id, 34))
  {
    Widths();
    var magic, version := INDEX_MAGIC, LE(2, 2);
    AtSplit(data, 0, magic + version + Numbers(a, b, c), LE(id, 4));
    AtSplit(data, 0, magic + version, Numbers(a, b, c));
    AtSplit(data, 6, Int64(a) + Int64(b), Int64(c));
    AtSplit(data, 6, Int64(a), Int64(b));
    ReadInt64Exact(data, 6, a);
    ReadInt64Exact(data, 14, b);
    ReadInt64Exact(data, 22, c);
    ReadIntExact(data, 30, 4, id);
    assert LE(2, 2) == [2, 0] by { assert LE(0, 1) == [0] + LE(0, 0); }
    assert magic + version == [0x00, 0xFA, 0x4D, 0x32, 0x02, 0x00];
    assert data[..6] == data[0..6];
  }

  /** The three short strings of the head; a dictionary demands a digest. */
  function DecodeNames(data: Bytes, off: nat, dictionary: bool): Result<((Bytes, Bytes, Bytes), nat), FormatError> {
    var (sha, p1) :- Got(ReadShort(data, off));
    if dictionary && !IsDigest(sha) then Err(InvalidChecksum)
    else
      var (os, p2) :- Got(ReadShort(data, p1));
      var (arch, p3) :- Got(ReadShort(data, p2));
      Ok(((sha, os, arch), p3))
  }

  /** The application name and the number of variants. */
  function DecodeCount(data: Bytes, off: nat): Result<((Bytes, nat), nat), FormatError> {
    var (app, p1) :- Got(ReadLong(data, off));
    var (count, p2) :- Got(ReadInt(data, p1, 2));
    Ok(((app, count), p2))
  }

  function DecodeTexts(data: Bytes, off: nat, dictionary: bool): Result<(Texts, nat), FormatError> {
    var (names, p) :- DecodeNames(data, off, dictionary);
    var (rest, n) :- DecodeCount(data, p);
    Ok((Texts(names.0, names.1, names.2, rest.0, rest.1), n))
  }

  predicate NamesRead(data: Bytes, off: nat, t: Texts) {
    var p := off + 1 + |t.dictSHA|;
    var q := p + 1 + |t.targetOS|;
    && ReadShort(data, off) == Some((t.dictSHA, p))
    && ReadShort(data, p) == Some((t.targetOS, q))
    && ReadShort(data, q) == Some((t.targetArch, q + 1 + |t.targetArch|))
  }

  predicate CountRead(data: Bytes, off: nat, t: Texts) {
    var p := off + 2 + |t.appName|;
    ReadLong(data, off) == Some((t.appName, p)) && ReadInt(data, p, 2) == Some((t.count, p + 2))
  }

  lemma NamesExact(data: Bytes, off: nat, t: Texts)
    requires EncodableTexts(t)
    ensures At(data, off, Short(t.dictSHA) + Short(t.targetOS) + Short(t.targetArch)) <==> NamesRead(data, off, t)
  {
    hide At, ReadShort, Short;
    AtSplit(data, off, Short(t.dictSHA) + Short(t.targetOS), Short(t.targetArch));
    AtSplit(data, off, Short(t.dictSHA), Short(t.targetOS));
    ReadShortExact(data, off, t.dictSHA);
    ReadShortExact(data, off + 1 + |t.dictSHA|, t.targetOS);
    ReadShortExact(data, off + 2 + |t.dictSHA| + |t.targetOS|, t.targetArch);
  }

  lemma CountExact(data: Bytes, off: nat, t: Texts)
    requires EncodableTexts(t)
    ensures At(data, off, Long(t.appName) + LE(t.count, 2)) <==> CountRead(data, off, t)
  {
    Widths();
    hide At, ReadLong, ReadInt, Long, LE, Pow256;
    AtSplit(data, off, Long(t.appName), LE(t.count, 2));
    ReadLongExact(data, off, t.appName);
    ReadIntExact(data, off + 2 + |t.appName|, 2, t.count);
  }

  predicate TextsRead(data: Bytes, off: nat, t: Texts) {
    NamesRead(data, off, t) && CountRead(data, off + 3 + |t.dictSHA| + |t.targetOS| + |t.targetArch|, t)
  }

  function TextLength(t: Texts): nat { 7 + |t.dictSHA| + |t.targetOS| + |t.targetArch| + |t.appName| }

  lemma TextsReadEncodable(data: Bytes, off: nat, t: Texts)
    requires TextsRead(data, off, t)
    ensures EncodableTexts(t)
  {
    hide FromLE;
    var p := off + 3 + |t.dictSHA| + |t.targetOS| + |t.targetArch|;
    ReadIntRange(data, p, 2);
    ReadIntRange(data, p + 2 + |t.appName|, 2);
  }

  lemma DecodeNamesRead(data: Bytes, off: nat, dictionary: bool, t: Texts, n: nat)
    ensures DecodeNames(data, off, dictionary) == Ok(((t.dictSHA, t.targetOS, t.targetArch), n))
       <==> && NamesRead(data, off, t) && (dictionary ==> IsDigest(t.dictSHA))
            && n == off + 3 + |t.dictSHA| + |t.targetOS| + |t.targetArch|
  {
    hide ReadShort, IsDigest;
    ReadersAdvance(data, off, 2);
    ReadersAdvance(data, off + 1 + |t.dictSHA|, 2);
    ReadersAdvance(data, off + 2 + |t.dictSHA| + |t.targetOS|, 2);
  }

  lemma DecodeCountRead(data: Bytes, off: nat, t: Texts, n: nat)
    ensures DecodeCount(data, off) == Ok(((t.appName, t.count), n))
       <==> CountRead(data, off, t) && n == off + 4 + |t.appName|
  {
    hide ReadLong, ReadInt;
    ReadersAdvance(data, off, 2);
    ReadersAdvance(data, off + 2 + |t.appName|, 2);
  }

  lemma DecodeTextsRead(data: Bytes, off: nat, dictionary: bool, t: Texts, n: nat)
    ensures DecodeTexts(data, off, dictionary) == Ok((t, n))
       <==> TextsRead(data, off, t) && (dictionary ==> IsDigest(t.dictSHA)) && n == off + TextLength(t)
  {
    hide DecodeNames, DecodeCount, NamesRead, CountRead, IsDigest;
    var p := off + 3 + |t.dictSHA| + |t.targetOS| + |t.targetArch|;
    DecodeNamesRead(data, off, dictionary, t, p);
    DecodeCountRead(data, p, t, n);
    if DecodeNames(data, off, dictionary).Ok? {
      var (names, q) := DecodeNames(data, off, dictionary).value;
      assert names == (names.0, names.1, names.2);
      DecodeNamesRead(data, off, dictionary, Texts(names.0, names.1, names.2, t.appName, t.count), q);
      if DecodeCount(data, q).Ok? {
        var (rest, _) := DecodeCount(data, q).value;
        assert rest == (rest.0, rest.1);
      }
    }
  }

  lemma DecodeTextsExact(data: Bytes, off: nat, dictionary: bool, t: Texts, n: nat)
    ensures DecodeTexts(data, off, dictionary) == Ok((t, n))
       <==> && EncodableTexts(t) && At(data, off, TextBytes(t)) && (dictionary ==> IsDigest(t.dictSHA))
            && n == off + |TextBytes(t)|
  {
    DecodeTextsRead(data, off, dictionary, t, n);
    hide At, DecodeTexts, NamesRead, CountRead;
    if EncodableTexts(t) {
      var names, rest := Short(t.dictSHA) + Short(t.targetOS) + Short(t.targetArch), Long(t.appName) + LE(t.count, 2);
      AtSplit(data, off, names, rest);
      NamesExact(data, off, t);
      CountExact(data, off + |names|, t);
    } else if TextsRead(data, off, t) {
      TextsReadEncodable(data, off, t);
    }
  }

  // ---------------------------------------------------------------- the whole index

  /** The index as it stands in the bytes, and how many bytes it takes. */
  function DecodeIndex(data: Bytes): Result<(Index, nat), FormatError> {
    var (numbers, id) :- DecodeFixed(data);
    var (t, p) :- DecodeTexts(data, 34, numbers.2 > 0);
    var (vs, n) :- DecodeVariants(data, p, t.count);
    Ok((Index(2, t.appName, t.targetOS, t.targetArch, numbers.0, numbers.1, numbers.2, t.dictSHA, id, vs), n))
  }

  /** Where the head's fields stand: magic, version 2, three integers, the dictionary's ID, then texts and count. */
  lemma HeadLayout(idx: Index)
    requires Encodable(idx)
    ensures var b := IndexBytes(idx);
      && |b| >= 34 && b[..6] == [0x00, 0xFA, 0x4D, 0x32, 0x02, 0x00]
      && ReadInt64(b, 6) == Some((idx.created, 14)) && ReadInt64(b, 14) == Some((idx.dictOffset, 22))
      && ReadInt64(b, 22) == Some((idx.dictSize, 30)) && ReadInt(b, 30, 4) == Some((idx.dictID, 34))
      && TextsRead(b, 34, Texts(idx.dictSHA, idx.targetOS, idx.targetArch, idx.appName, |idx.variants|))
  {
    hide At, FixedBytes, TextBytes, VariantsBytes, TextsRead, DecodeTexts, EncodableTexts;
    var b, t := IndexBytes(idx), TextsOf(idx);
    var fixed, names := FixedBytes(idx.created, idx.dictOffset, idx.dictSize, idx.dictID), TextBytes(t);
    AtSelf(b);
    AtSplit(b, 0, fixed + names, VariantsBytes(idx.variants));
    AtSplit(b, 0, fixed, names);
    DecodeTextsExact(b, 34, false, t, 34 + |names|);
    DecodeTextsRead(b, 34, false, t, 34 + |names|);
    FixedLayout(b, idx.created, idx.dictOffset, idx.dictSize, idx.dictID);
  }

  lemma EncodedIndexDecodes(data: Bytes, raw: Index)
    requires raw.version == 2 && Encodable(raw) && At(data, 0, IndexBytes(raw))
    ensures DecodeIndex(data) == Ok((raw, |IndexBytes(raw)|))
  {
    hide At, FixedBytes, TextBytes, VariantsBytes, DecodeFixed, DecodeTexts, DecodeVariants;
    var t, size := TextsOf(raw), raw.dictSize;
    var fixed, texts := FixedBytes(raw.created, raw.dictOffset, size, raw.dictID), TextBytes(t);
    AtSplit(data, 0, fixed + texts, VariantsBytes(raw.variants));
    AtSplit(data, 0, fixed, texts);
    DecodeFixedExact(data, raw.created, raw.dictOffset, size, raw.dictID);
    DecodeTextsExact(data, 34, size > 0, t, 34 + |texts|);
    EncodedVariantsDecode(data, 34 + |texts|, raw.variants);
  }

  lemma DecodedIndexEncodes(data: Bytes)
    requires DecodeIndex(data).Ok?
    ensures var (raw, n) := DecodeIndex(data).value;
      raw.version == 2 && Encodable(raw) && At(data, 0, IndexBytes(raw)) && n == |IndexBytes(raw)|
  {
    hide At, FixedBytes, TextBytes, VariantsBytes, DecodeFixed, DecodeTexts, DecodeVariants;
    var ((a, b, c), id) := DecodeFixed(data).value;
    var (t, p) := DecodeTexts(data, 34, c > 0).value;
    var (vs, n) := DecodeVariants(data, p, t.count).value;
    DecodeFixedExact(data, a, b, c, id);
    DecodeTextsExact(data, 34, c > 0, t, p);
    AtWithin(data, 34, TextBytes(t));
    DecodedVariantsEncode(data, p, t.count);
    AtSplit(data, 0, FixedBytes(a, b, c, id), TextBytes(t));
    AtSplit(data, 0, FixedBytes(a, b, c, id) + TextBytes(t), VariantsBytes(vs));
  }

  /** A buffer decodes to an index exactly when it starts with that index's bytes. */
  lemma DecodeIndexExact(data: Bytes, raw: Index, n: nat)
    ensures DecodeIndex(data) == Ok((raw, n))
       <==> raw.version == 2 && Encodable(raw) && At(data, 0, IndexBytes(raw)) && n == |IndexBytes(raw)|
  {
    hide DecodeIndex, IndexBytes, At, Encodable;
    if DecodeIndex(data).Ok? { DecodedIndexEncodes(data); }
    if raw.version == 2 && Encodable(raw) && At(data, 0, IndexBytes(raw)) { EncodedIndexDecodes(data, raw); }
  }

  /** Bytes behind an accepted index never change what is read. */
  lemma AppendedBytesIgnored(data: Bytes, extra: Bytes)
    requires DecodeIndex(data).Ok?
    ensures DecodeIndex(data + extra) == DecodeIndex(data)
  {
    hide DecodeIndex, IndexBytes, At, Encodable;
    var (raw, n) := DecodeIndex(data).value;
    DecodeIndexExact(data, raw, n);
    AtAppend(data, 0, IndexBytes(raw), extra);
    DecodeIndexExact(data + extra, raw, n);
  }

  // ---------------------------------------------------------------- why decoding fails

  lemma ReadNumbersIsStable(data: Bytes, off: nat, extra: Bytes)
    ensures ReadNumbers(data, off).Some? ==> ReadNumbers(data + extra, off) == ReadNumbers(data, off)
  {
    ReadInt64IsStable(data, off, extra);
    ReadInt64IsStable(data, off + 8, extra);
    ReadInt64IsStable(data, off + 16, extra);
    hide ReadInt64;
  }

  /** More data changes nothing but a truncation. */
  predicate Final<T(==)>(before: Result<T, FormatError>, after: Result<T, FormatError>) {
    before != Err(TruncatedIndex) ==> after == before
  }

  lemma VariantIsFinal(data: Bytes, off: nat, extra: Bytes)
    ensures Final(DecodeVariant(data, off), DecodeVariant(data + extra, off))
  {
    hide ReadShort, ReadNumbers, IsDigest;
    ReadersAreStable(data, off, 8, extra);
    if ReadShort(data, off).Some? {
      var p1 := ReadShort(data, off).value.1;
      ReadNumbersIsStable(data, p1, extra);
      if ReadNumbers(data, p1).Some? {
        var p2 := ReadNumbers(data, p1).value.1;
        ReadersAreStable(data, p2, 8, extra);
        if ReadShort(data, p2).Some? { ReadersAreStable(data, ReadShort(data, p2).value.1, 8, extra); }
      }
    }
  }

  lemma {:induction false} VariantsAreFinal(data: Bytes, off: nat, count: nat, extra: Bytes)
    ensures Final(DecodeVariants(data, off, count), DecodeVariants(data + extra, off, count))
  {
    hide DecodeVariant;
    if count > 0 {
      VariantsAreFinal(data, off, count - 1, extra);
      var before := DecodeVariants(data, off, count - 1);
      if before.Ok? { VariantIsFinal(data, before.value.1, extra); }
    }
  }

  lemma TextsAreFinal(data: Bytes, off: nat, dictionary: bool, extra: Bytes)
    ensures Final(DecodeTexts(data, off, dictionary), DecodeTexts(data + extra, off, dictionary))
  {
    hide ReadShort, ReadLong, ReadInt, IsDigest;
    ReadersAreStable(data, off, 2, extra);
    if ReadShort(data, off).Some? {
      var p1 := ReadShort(data, off).value.1;
      ReadersAreStable(data, p1, 2, extra);
      if ReadShort(data, p1).Some? {
        var p2 := ReadShort(data, p1).value.1;
        ReadersAreStable(data, p2, 2, extra);
        if ReadShort(data, p2).Some? {
          var p3 := ReadShort(data, p2).value.1;
          ReadersAreStable(data, p3, 2, extra);
          if ReadLong(data, p3).Some? { ReadersAreStable(data, ReadLong(data, p3).value.1, 2, extra); }
        }
      }
    }
  }

  lemma ReadNumbersFinds(data: Bytes)
    requires |data| >= 34
    ensures ReadNumbers(data, 6).Some? && ReadInt(data, 30, 4).Some?
  {
  }

  lemma FixedIsFinal(data: Bytes, extra: Bytes)
    ensures Final(DecodeFixed(data), DecodeFixed(data + extra))
  {
    hide ReadNumbers, ReadInt;
    if |data| >= 34 {
      assert (data + extra)[0..4] == data[0..4] && (data + extra)[4..6] == data[4..6];
      ReadNumbersFinds(data);
      ReadNumbersIsStable(data, 6, extra);
      ReadersAreStable(data, 30, 4, extra);
    }
  }

  /** Every rejection but a truncation is final: no bytes behind the data can mend it, nor undo an acceptance. */
  lemma RejectionIsFinal(data: Bytes, extra: Bytes)
    ensures Final(DecodeIndex(data), DecodeIndex(data + extra))
  {
    hide DecodeFixed, DecodeTexts, DecodeVariants;
    FixedIsFinal(data, extra);
    if DecodeFixed(data).Ok? {
      var dictionary := DecodeFixed(data).value.0.2 > 0;
      TextsAreFinal(data, 34, dictionary, extra);
      if DecodeTexts(data, 34, dictionary).Ok? {
        var (t, p) := DecodeTexts(data, 34, dictionary).value;
        VariantsAreFinal(data, p, t.count, extra);
      }
    }
  }

  lemma ShortIsShort(data: Bytes, off: nat)
    ensures ReadShort(data, off).Some? ==> |ReadShort(data, off).value.0| <= 255
  {
  }

  lemma RoomForVariant(data: Bytes, off: nat)
    requires off + 792 <= |data|
    ensures DecodeVariant(data, off) != Err(TruncatedIndex)
    ensures DecodeVariant(data, off).Ok? ==> DecodeVariant(data, off).value.1 <= off + 792
  {
    hide ReadShort, IsDigest;
    ReadersFind(data, off);
    ReadersAdvance(data, off, 8);
    ShortIsShort(data, off);
    var p2 := ReadShort(data, off).value.1 + 24;
    ReadersFind(data, p2);
    ReadersAdvance(data, p2, 8);
    ShortIsShort(data, p2);
    var p3 := ReadShort(data, p2).value.1;
    ReadersFind(data, p3);
    ReadersAdvance(data, p3, 8);
    ShortIsShort(data, p3);
  }

  lemma {:induction false} RoomForVariants(data: Bytes, off: nat, count: nat)
    requires off + 792 * count <= |data|
    ensures DecodeVariants(data, off, count) != Err(TruncatedIndex)
    ensures DecodeVariants(data, off, count).Ok? ==> DecodeVariants(data, off, count).value.1 <= off + 792 * count
  {
    hide DecodeVariant;
    if count > 0 {
      RoomForVariants(data, off, count - 1);
      var before := DecodeVariants(data, off, count - 1);
      if before.Ok? { RoomForVariant(data, before.value.1); }
    }
  }

  lemma LongIsBounded(data: Bytes, off: nat)
    ensures ReadLong(data, off).Some? ==> |ReadLong(data, off).value.0| <= 65535
  {
    if off + 2 <= |data| { ReadIntRange(data, off, 2); }
  }

  lemma RoomForTexts(data: Bytes, off: nat, dictionary: bool)
    requires off + 66307 <= |data|
    ensures DecodeTexts(data, off, dictionary) != Err(TruncatedIndex)
    ensures DecodeTexts(data, off, dictionary).Ok? ==>
      var (t, p) := DecodeTexts(data, off, dictionary).value; p <= off + 66307 && t.count <= 65535
  {
    hide ReadShort, ReadLong, FromLE, IsDigest;
    ReadersFind(data, off);
    ReadersAdvance(data, off, 2);
    ShortIsShort(data, off);
    var p1 := ReadShort(data, off).value.1;
    ReadersFind(data, p1);
    ReadersAdvance(data, p1, 2);
    ShortIsShort(data, p1);
    var p2 := ReadShort(data, p1).value.1;
    ReadersFind(data, p2);
    ReadersAdvance(data, p2, 2);
    ShortIsShort(data, p2);
    var p3 := ReadShort(data, p2).value.1;
    ReadersFind(data, p3);
    ReadersAdvance(data, p3, 2);
    LongIsBounded(data, p3);
    var p4 := ReadLong(data, p3).value.1;
    ReadIntRange(data, p4, 2);
  }

  /** A truncation is really one: a buffer with room for the largest index is never called truncated. */
  lemma LongBuffersAreNotTruncated(data: Bytes)
    requires |data| >= 34 + 66307 + 792 * 65535
    ensures DecodeIndex(data) != Err(TruncatedIndex)
  {
    hide DecodeTexts, DecodeVariants, ReadNumbers;
    if DecodeFixed(data).Ok? {
      var dictionary := DecodeFixed(data).value.0.2 > 0;
      RoomForTexts(data, 34, dictionary);
      if DecodeTexts(data, 34, dictionary).Ok? {
        var (t, p) := DecodeTexts(data, 34, dictionary).value;
        RoomForVariants(data, p, t.count);
      }
    }
  }

  lemma TextFaults(data: Bytes, off: nat, dictionary: bool)
    ensures DecodeTexts(data, off, dictionary).Err? ==>
      DecodeTexts(data, off, dictionary).error in {TruncatedIndex, InvalidChecksum}
  {
    hide ReadShort, ReadLong, ReadInt, IsDigest;
  }

  lemma {:induction false} VariantFaults(data: Bytes, off: nat, count: nat)
    ensures DecodeVariants(data, off, count).Err? ==>
      DecodeVariants(data, off, count).error in {TruncatedIndex, InvalidChecksum}
  {
    hide ReadShort, ReadNumbers, IsDigest;
    if count > 0 { VariantFaults(data, off, count - 1); }
  }

  /** The two errors of the first bytes name what is wrong with them. */
  lemma HeadFaults(data: Bytes)
    ensures DecodeIndex(data) == Err(InvalidMagic) <==> |data| >= 34 && data[..4] != [0x00, 0xFA, 0x4D, 0x32]
    ensures DecodeIndex(data) == Err(UnsupportedVersion) <==>
      |data| >= 34 && data[..4] == [0x00, 0xFA, 0x4D, 0x32] && FromLE(data[4..6]) != 2
  {
    hide DecodeTexts, DecodeVariants, ReadNumbers, FromLE;
    assert |data| >= 4 ==> data[0..4] == data[..4];
    if DecodeFixed(data).Ok? {
      var dictionary := DecodeFixed(data).value.0.2 > 0;
      TextFaults(data, 34, dictionary);
      if DecodeTexts(data, 34, dictionary).Ok? {
        var (t, p) := DecodeTexts(data, 34, dictionary).value;
        VariantFaults(data, p, t.count);
      }
    }
  }

  // ---------------------------------------------------------------- encoding

  function VariantFault(v: Variant): Option<FormatError> {
    if !IsDigest(v.sha) then Some(InvalidChecksum)
    else if |v.level| > 255 || |v.compression| > 255 then Some(FieldTooLong)
    else None
  }

  function VariantsFault(vs: seq<Variant>): Option<FormatError> {
    if vs == [] then None
    else
      var first := VariantsFault(vs[..|vs| - 1]);
      if first.Some? then first else VariantFault(vs[|vs| - 1])
  }

  /** The first reason an index cannot be encoded. */
  function EncodeFault(idx: Index): Option<FormatError> {
    if !EncodableTexts(TextsOf(idx)) then Some(FieldTooLong)
    else if idx.dictSize > 0 && !IsDigest(idx.dictSHA) then Some(InvalidChecksum)
    else VariantsFault(idx.variants)
  }

  lemma {:induction false} FaultlessVariants(vs: seq<Variant>)
    ensures VariantsFault(vs).None? <==> AllEncodable(vs)
  {
    if vs != [] {
      FaultlessVariants(vs[..|vs| - 1]);
      assert vs == vs[..|vs| - 1] + [vs[|vs| - 1]];
    }
  }

  lemma {:induction false} FaultPersists(vs: seq<Variant>, k: nat)
    requires k <= |vs| && VariantsFault(vs[..k]).Some?
    ensures VariantsFault(vs) == VariantsFault(vs[..k])
  {
    if k < |vs| {
      var init := vs[..|vs| - 1];
      assert init[..k] == vs[..k];
      FaultPersists(init, k);
    } else {
      assert vs[..k] == vs;
    }
  }

  /** Every variant with its compression name spelled out. */
  function Named(vs: seq<Variant>): (r: seq<Variant>)
    ensures |r| == |vs|
  {
    seq(|vs|, i requires 0 <= i < |vs| => DefaultCompression(vs[i]))
  }

  function Canon(idx: Index): Index { idx.(variants := Named(idx.variants)) }

  lemma EncodableIff(idx: Index)
    ensures EncodeFault(idx).None? <==> Encodable(idx)
  {
    FaultlessVariants(idx.variants);
  }

  /** What `MarshalBinaryIndex` returns. */
  function Marshal(idx: Index): Result<Bytes, FormatError> {
    EncodableIff(Canon(idx));
    var fault := EncodeFault(Canon(idx));
    if fault.Some? then Err(fault.value) else Ok(IndexBytes(Canon(idx)))
  }

  method PutBytes(buf: array<byte>, off: nat, bytes: Bytes) returns (next: nat)
    requires off + |bytes| <= buf.Length
    modifies buf
    ensures next == off + |bytes|
    ensures buf[..next] == old(buf[..off]) + bytes
  {
    forall i | 0 <= i < |bytes| { buf[off + i] := bytes[i]; }
    next := off + |bytes|;
  }

  method PutVariant(buf: array<byte>, off: nat, v: Variant) returns (next: nat)
    requires EncodableVariant(v) && off + |VariantBytes(v)| <= buf.Length
    modifies buf
    ensures next == off + |VariantBytes(v)|
    ensures buf[..next] == old(buf[..off]) + VariantBytes(v)
  {
    hide Short, Int64;
    ghost var start := buf[..off];
    next := PutBytes(buf, off, Short(v.level));
    next := PutBytes(buf, next, Int64(v.offset));
    next := PutBytes(buf, next, Int64(v.compressed));
    next := PutBytes(buf, next, Int64(v.uncompressed));
    next := PutBytes(buf, next, Short(v.sha));
    next := PutBytes(buf, next, Short(v.compression));
    calc {
      buf[..next];
      start + Short(v.level) + Int64(v.offset) + Int64(v.compressed) + Int64(v.uncompressed) +
        Short(v.sha) + Short(v.compression);
      start + VariantBytes(v);
    }
  }

  method PutTexts(buf: array<byte>, off: nat, t: Texts) returns (next: nat)
    requires EncodableTexts(t) && off + |TextBytes(t)| <= buf.Length
    modifies buf
    ensures next == off + |TextBytes(t)|
    ensures buf[..next] == old(buf[..off]) + TextBytes(t)
  {
    hide Short, Long, LE;
    ghost var start := buf[..off];
    next := PutBytes(buf, off, Short(t.dictSHA));
    next := PutBytes(buf, next, Short(t.targetOS));
    next := PutBytes(buf, next, Short(t.targetArch));
    next := PutBytes(buf, next, Long(t.appName));
    next := PutBytes(buf, next, LE(t.count, 2));
    calc {
      buf[..next];
      start + Short(t.dictSHA) + Short(t.targetOS) + Short(t.targetArch) + Long(t.appName) + LE(t.count, 2);
      start + TextBytes(t);
    }
  }

  method PutHead(buf: array<byte>, idx: Index) returns (next: nat)
    requires EncodableTexts(TextsOf(idx)) && |HeadBytes(idx)| <= buf.Length
    modifies buf
    ensures next == |HeadBytes(idx)|
    ensures buf[..next] == HeadBytes(idx)
  {
    hide Short, Int64, Long, LE;
    next := PutBytes(buf, 0, INDEX_MAGIC);
    next := PutBytes(buf, next, LE(2, 2));
    next := PutBytes(buf, next, Int64(idx.created));
    next := PutBytes(buf, next, Int64(idx.dictOffset));
    next := PutBytes(buf, next, Int64(idx.dictSize));
    next := PutBytes(buf, next, LE(idx.dictID, 4));
    assert buf[..next] == FixedBytes(idx.created, idx.dictOffset, idx.dictSize, idx.dictID);
    next := PutTexts(buf, next, TextsOf(idx));
  }

  lemma NoVariants()
    ensures AllEncodable([]) && VariantsBytes([]) == []
  {
  }

  lemma NextVariant(vs: seq<Variant>, i: nat)
    requires i < |vs| && AllEncodable(vs[..i]) && EncodableVariant(vs[i])
    ensures AllEncodable(vs[..i + 1]) && VariantsBytes(vs[..i + 1]) == VariantsBytes(vs[..i]) + VariantBytes(vs[i])
  {
    hide EncodableVariant, VariantBytes;
    assert vs[..i + 1][..i] == vs[..i] && vs[..i + 1][i] == vs[i];
  }

  lemma FirstFault(vs: seq<Variant>, i: nat)
    requires i < |vs| && AllEncodable(vs[..i]) && VariantFault(vs[i]).Some?
    ensures VariantsFault(vs) == VariantFault(vs[i])
  {
    hide EncodableVariant, VariantFault, AllEncodable;
    assert vs[..i + 1][..i] == vs[..i] && vs[..i + 1][i] == vs[i];
    FaultlessVariants(vs[..i]);
    FaultPersists(vs, i + 1);
  }

  lemma VariantLength(v: Variant)
    requires EncodableVariant(v)
    ensures |VariantBytes(v)| == 27 + |v.level| + |v.sha| + |v.compression|
  {
  }

  /** The sizing pass: the exact length of the encoding, or the first fault of a variant. */
  method MeasureVariants(idx: Index, head: nat) returns (r: Result<nat, FormatError>)
    ensures r.Err? ==> VariantsFault(Named(idx.variants)) == Some(r.error)
    ensures r.Ok? ==> AllEncodable(Named(idx.variants)) && r.value == head + |VariantsBytes(Named(idx.variants))|
  {
    hide VariantBytes, IsDigest, AllEncodable, VariantsBytes, VariantsFault;
    ghost var vs := Named(idx.variants);
    var total := head;
    NoVariants();
    assert vs[..0] == [];
    for i := 0 to |idx.variants|
      invariant AllEncodable(vs[..i]) && total == head + |VariantsBytes(vs[..i])|
    {
      var v := DefaultCompression(idx.variants[i]);
      assert vs[i] == v;
      if !IsDigest(v.sha) {
        FirstFault(vs, i);
        return Err(InvalidChecksum);
      }
      if |v.level| > 255 || |v.compression| > 255 {
        FirstFault(vs, i);
        return Err(FieldTooLong);
      }
      NextVariant(vs, i);
      VariantLength(v);
      total := total + 1 + |v.level| + 8 + 8 + 8 + 1 + |v.sha| + 1 + |v.compression|;
    }
    assert vs[..|idx.variants|] == vs;
    return Ok(total);
  }

  lemma {:induction false} PrefixLength(vs: seq<Variant>, k: nat)
    requires k <= |vs| && AllEncodable(vs)
    ensures |VariantsBytes(vs[..k])| <= |VariantsBytes(vs)|
  {
    hide VariantBytes;
    if k < |vs| {
      var init := vs[..|vs| - 1];
      assert init[..k] == vs[..k];
      PrefixLength(init, k);
    } else {
      assert vs[..k] == vs;
    }
  }

  method PutVariants(buf: array<byte>, off: nat, variants: seq<Variant>) returns (next: nat)
    requires AllEncodable(Named(variants)) && off + |VariantsBytes(Named(variants))| == buf.Length
    modifies buf
    ensures buf[..] == old(buf[..off]) + VariantsBytes(Named(variants))
  {
    hide VariantBytes, EncodableVariant, VariantsBytes;
    ghost var vs, start := Named(variants), buf[..off];
    NoVariants();
    assert vs[..0] == [];
    next := off;
    for i := 0 to |variants|
      invariant off <= next == off + |VariantsBytes(vs[..i])| <= buf.Length
      invariant buf[..next] == start + VariantsBytes(vs[..i])
    {
      var v := DefaultCompression(variants[i]);
      assert vs[i] == v;
      NextVariant(vs, i);
      PrefixLength(vs, i + 1);
      next := PutVariant(buf, next, v);
      assert buf[..next] == start + (VariantsBytes(vs[..i]) + VariantBytes(v));
    }
    assert vs[..|variants|] == vs;
    assert buf[..next] == buf[..];
  }

  lemma HeadLength(idx: Index)
    requires EncodableTexts(TextsOf(idx))
    ensures |HeadBytes(idx)| == 34 + TextLength(TextsOf(idx))
  {
  }

  lemma HeadOfCanon(idx: Index)
    requires EncodableTexts(TextsOf(idx))
    ensures TextsOf(Canon(idx)) == TextsOf(idx) && HeadBytes(Canon(idx)) == HeadBytes(idx)
  {
  }

  /** `MarshalBinaryIndex`: measure, allocate, and fill the buffer behind an advancing offset. */
  method MarshalBinaryIndex(idx: Index) returns (r: Result<Bytes, FormatError>)
    ensures r == Marshal(idx)
  {
    hide IsDigest, HeadBytes, VariantsBytes, VariantsFault;
    ghost var canon := Canon(idx);
    assert TextsOf(canon) == TextsOf(idx);
    if !EncodableTexts(TextsOf(idx)) { return Err(FieldTooLong); }
    if idx.dictSize > 0 && !IsDigest(idx.dictSHA) { return Err(InvalidChecksum); }
    HeadLength(idx);
    var size :- MeasureVariants(idx, 34 + TextLength(TextsOf(idx)));
    FaultlessVariants(canon.variants);
    var buf := new byte[size];
    var next := PutHead(buf, idx);
    next := PutVariants(buf, next, idx.variants);
    HeadOfCanon(idx);
    return Ok(buf[..]);
  }

  // ---------------------------------------------------------------- decoding to a normalized index

  lemma {:induction false} DecodeFaultPersists(data: Bytes, off: nat, k: nat, count: nat)
    requires k <= count && DecodeVariants(data, off, k).Err?
    ensures DecodeVariants(data, off, count) == DecodeVariants(data, off, k)
  {
    hide DecodeVariant;
    if k < count { DecodeFaultPersists(data, off, k, count - 1); }
  }

  method UnmarshalVariants(data: Bytes, start: nat, count: nat, wide: Bytes -> Bytes)
    returns (r: Result<seq<Variant>, FormatError>)
    ensures r == match DecodeVariants(data, start, count) {
                   case Ok((vs, _)) => Ok(NormVariants(vs, wide))
                   case Err(e) => Err(e)
                 }
  {
    hide DecodeVariant, NormVariant;
    var off, entries := start, [];
    ghost var raws := [];
    for i := 0 to count
      invariant DecodeVariants(data, start, i) == Ok((raws, off)) && entries == NormVariants(raws, wide)
    {
      var entry := DecodeVariant(data, off);
      if entry.Err? {
        assert DecodeVariants(data, start, i + 1).Err?;
        DecodeFaultPersists(data, start, i + 1, count);
        return Err(entry.error);
      }
      raws := raws + [entry.value.0];
      entries := entries + [NormVariant(entry.value.0, wide)];
      off := entry.value.1;
    }
    return Ok(entries);
  }

  function Unmarshal(data: Bytes, wide: Bytes -> Bytes): Result<Index, FormatError> {
    match DecodeIndex(data)
    case Ok((raw, _)) => Ok(Norm(raw, wide))
    case Err(e) => Err(e)
  }

  /** `UnmarshalBinaryIndex`: what stands in the bytes, normalized. */
  method UnmarshalBinaryIndex(data: Bytes, wide: Bytes -> Bytes) returns (r: Result<Index, FormatError>)
    ensures r == Unmarshal(data, wide)
    ensures r.Ok? ==> DecodeIndex(data).Ok? && SameIndex(r.value, DecodeIndex(data).value.0)
  {
    if DecodeIndex(data).Ok? {
      DecodedIndexEncodes(data);
      NormSaysTheSame(DecodeIndex(data).value.0, wide);
    }
    hide SameIndex, IsDigest;
    hide DecodeFixed, DecodeTexts, DecodeVariants, NormVariants, Lower;
    var fixed :- DecodeFixed(data);
    var (numbers, id) := fixed;
    var texts :- DecodeTexts(data, 34, numbers.2 > 0);
    var (t, off) := texts;
    var variants :- UnmarshalVariants(data, off, t.count, wide);
    return Ok(Index(2, t.appName, t.targetOS, t.targetArch, numbers.0, numbers.1, numbers.2,
                    Lower(t.dictSHA, wide), id, variants));
  }

  // ---------------------------------------------------------------- re-encoding what was decoded

  predicate CanonicalVariant(v: Variant) { NoUpper(v.sha) && v.compression != [] }

  /** Lower-case digests and spelled-out compression names. */
  predicate Canonical(idx: Index, wide: Bytes -> Bytes) {
    && Lower(idx.dictSHA, wide) == idx.dictSHA
    && forall i :: 0 <= i < |idx.variants| ==> CanonicalVariant(idx.variants[i])
  }

  lemma VariantFixed(v: Variant, wide: Bytes -> Bytes)
    requires EncodableVariant(v)
    ensures EncodableVariant(NormVariant(v, wide)) && NormVariant(v, wide).compression != []
    ensures NormVariant(v, wide) == v <==> CanonicalVariant(v)
  {
  }

  lemma CanonicalIsFixed(idx: Index, wide: Bytes -> Bytes)
    requires AllEncodable(idx.variants)
    ensures Norm(idx, wide) == idx <==> Canonical(idx, wide)
    ensures AllEncodable(Norm(idx, wide).variants) && Canon(Norm(idx, wide)) == Norm(idx, wide)
  {
    hide EncodableVariant, NormVariant, Lower, CanonicalVariant;
    var vs := Norm(idx, wide).variants;
    forall i | 0 <= i < |vs|
      ensures EncodableVariant(vs[i]) && DefaultCompression(vs[i]) == vs[i]
      ensures vs[i] == idx.variants[i] <==> CanonicalVariant(idx.variants[i])
    {
      VariantFixed(idx.variants[i], wide);
    }
    assert Named(vs) == vs;
    assert Canonical(idx, wide) ==> vs == idx.variants;
  }

  lemma IndexBytesInjective(a: Index, b: Index)
    requires a.version == b.version == 2 && Encodable(a) && Encodable(b) && IndexBytes(a) == IndexBytes(b)
    ensures a == b
  {
    hide IndexBytes, Encodable, DecodeIndex;
    var bytes := IndexBytes(a);
    DecodeIndexExact(bytes, a, |bytes|);
    DecodeIndexExact(bytes, b, |bytes|);
  }

  lemma VersionKept(idx: Index, wide: Bytes -> Bytes)
    ensures Norm(idx, wide).version == idx.version
  {
  }

  /** Encoding what was decoded gives back the bytes consumed exactly when they were canonical. */
  lemma ReencodingExact(data: Bytes, wide: Bytes -> Bytes)
    requires DecodeIndex(data).Ok?
    ensures var (raw, n) := DecodeIndex(data).value;
      n <= |data| && (Marshal(Norm(raw, wide)) == Ok(data[..n]) <==> Canonical(raw, wide))
  {
    hide IndexBytes, DecodeIndex, AllEncodable, Norm, Canonical, EncodeFault;
    var (raw, n) := DecodeIndex(data).value;
    DecodeIndexExact(data, raw, n);
    CanonicalIsFixed(raw, wide);
    var norm := Norm(raw, wide);
    EncodableIff(norm);
    VersionKept(raw, wide);
    if Marshal(norm) == Ok(data[..n]) { IndexBytesInjective(norm, raw); }
  }

  /** An accepted buffer that re-encodes differently: one variant, its compression name left empty. */
  lemma ReencodingCanDiffer(wide: Bytes -> Bytes) returns (data: Bytes)
    ensures DecodeIndex(data).Ok? && DecodeIndex(data).value.1 == |data|
    ensures Marshal(Norm(DecodeIndex(data).value.0, wide)) != Ok(data)
  {
    var v := Variant([], 0, 1, 1, seq(64, _ => 0x30), []);
    var raw := Index(2, [], [], [], 0, 0, 0, [], 0, [v]);
    assert IsDigest(v.sha);
    assert EncodableVariant(v) && AllEncodable(raw.variants) && Encodable(raw);
    assert !CanonicalVariant(raw.variants[0]);
    hide IndexBytes, DecodeIndex, Marshal, Norm, Encodable;
    data := IndexBytes(raw);
    assert data[0..|data|] == data;
    DecodeIndexExact(data, raw, |data|);
    ReencodingExact(data, wide);
    assert data[..|data|] == data;
  }
}
