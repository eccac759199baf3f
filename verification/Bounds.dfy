/**
 The bounds validator of an index, and lookup by level.

 What the text of a level or an architecture means is an arbitrary record of functions: `normalize` and `rank` stand for
 the microarchitecture tables, the others for Unicode trimming and lower-casing.
 */
module Bounds {
  import opened Basics
  import opened Format

  datatype Platform = Platform(
    normalize: Bytes -> Bytes, rank: (Bytes, Bytes) -> int, isBlank: Bytes -> bool, knownArch: Bytes -> bool,
    wideLower: Bytes -> Bytes)

  /** A stretch of the file: `[start, end)`. */
  datatype Region = Region(start: int, end: int)

  function RegionOf(v: Variant): Region { Region(v.offset, v.offset + v.compressed) }

  function Payloads(vs: seq<Variant>): (r: seq<Region>)
    ensures |r| == |vs|
  {
    seq(|vs|, i requires 0 <= i < |vs| => RegionOf(vs[i]))
  }

  /** The dictionary, if there is one, then the payloads in index order. */
  function Regions(idx: Index): seq<Region> {
    (if idx.dictSize > 0 then [Region(idx.dictOffset, idx.dictOffset + idx.dictSize)] else []) + Payloads(idx.variants)
  }

  predicate Inside(r: Region, limit: int) { 0 <= r.start < r.end <= limit }

  /** Each region lies inside the data area and wholly before every later one. */
  predicate Laid(rs: seq<Region>, limit: int) {
    && (forall i :: 0 <= i < |rs| ==> Inside(rs[i], limit))
    && (forall i, j :: 0 <= i < j < |rs| ==> rs[i].end <= rs[j].start)
  }

  predicate SoundLevel(v: Variant, arch: Bytes, plat: Platform) {
    !plat.isBlank(v.level) && plat.rank(arch, plat.normalize(v.level)) > 0
  }

  predicate SoundPayload(v: Variant) { 0 < v.uncompressed <= 1024 * 1024 * 1024 && IsDigest(v.sha) }

  predicate DistinctLevels(vs: seq<Variant>, plat: Platform) {
    forall i, j :: 0 <= i < j < |vs| ==> plat.normalize(vs[i].level) != plat.normalize(vs[j].level)
  }

  predicate SoundVariants(vs: seq<Variant>, arch: Bytes, plat: Platform) {
    forall i :: 0 <= i < |vs| ==> SoundLevel(vs[i], arch, plat) && SoundPayload(vs[i])
  }

  predicate SoundDictionary(idx: Index) {
    0 <= idx.dictSize <= 1024 * 1024 && (idx.dictSize > 0 ==> IsDigest(idx.dictSHA))
  }

  /** What every accepted index satisfies. */
  predicate InBounds(idx: Index, limit: int, plat: Platform) {
    && idx.version == 2 && limit >= 0 && |idx.variants| > 0 && plat.knownArch(idx.targetArch)
    && SoundDictionary(idx) && SoundVariants(idx.variants, idx.targetArch, plat) && DistinctLevels(idx.variants, plat)
    && Laid(Regions(idx), limit)
  }

  // ---------------------------------------------------------------- what a rejection means

  predicate ExistsVariant(vs: seq<Variant>, p: Variant -> bool) { exists i :: 0 <= i < |vs| && p(vs[i]) }

  /** Some region begins before an earlier one ends. */
  predicate Overlaps(rs: seq<Region>) { exists i, j :: 0 <= i < j < |rs| && rs[i].end > rs[j].start }

  /** Some region is empty or leaves the data area. */
  predicate Strays(rs: seq<Region>, limit: int) { exists i :: 0 <= i < |rs| && !Inside(rs[i], limit) }

  /** The named fault is really there. */
  predicate Justified(e: FormatError, idx: Index, limit: int, plat: Platform) {
    match e
    case UnsupportedVersion => idx.version != 2
    case NoVariants => idx.variants == []
    case InvalidDictionary => !(0 <= idx.dictSize <= MAX_DICTIONARY_SIZE) || (idx.dictSize > 0 && idx.dictOffset < 0)
    case InvalidVariant =>
      !plat.knownArch(idx.targetArch) || ExistsVariant(idx.variants, v => !SoundLevel(v, idx.targetArch, plat))
    case DuplicateVariant => !DistinctLevels(idx.variants, plat)
    case PayloadTooLarge => ExistsVariant(idx.variants, (v: Variant) => v.uncompressed > MAX_PAYLOAD_SIZE)
    case OverlappingVariant => Overlaps(Regions(idx))
    case InvalidChecksum =>
      || (idx.dictSize > 0 && !IsDigest(idx.dictSHA))
      || ExistsVariant(idx.variants, (v: Variant) => !IsDigest(v.sha))
    case OutOfBounds =>
      limit < 0 || Strays(Regions(idx), limit) || ExistsVariant(idx.variants, (v: Variant) => v.uncompressed <= 0)
    case _ => false
  }

  // ---------------------------------------------------------------- the validator

  /** `validateDictionaryBounds`: where the first payload may begin. Every sum and difference stays inside int64. */
  method ValidateDictionary(idx: Index, limit: int64) returns (r: Result<int64, FormatError>)
    requires limit >= 0
    ensures r.Ok? <==>
      && SoundDictionary(idx)
      && (idx.dictSize > 0 ==> Inside(Region(idx.dictOffset, idx.dictOffset + idx.dictSize), limit))
    ensures r.Ok? ==> r.value == if idx.dictSize > 0 then idx.dictOffset + idx.dictSize else 0
    ensures r.Err? ==> match r.error
                       case InvalidDictionary =>
                         !(0 <= idx.dictSize <= MAX_DICTIONARY_SIZE) || (idx.dictSize > 0 && idx.dictOffset < 0)
                       case InvalidChecksum => idx.dictSize > 0 && !IsDigest(idx.dictSHA)
                       case OutOfBounds => idx.dictSize > 0 && idx.dictOffset + idx.dictSize > limit
                       case _ => false
  {
    if idx.dictSize < 0 || idx.dictSize > MAX_DICTIONARY_SIZE { return Err(InvalidDictionary); }
    if idx.dictSize == 0 { return Ok(0); }
    if idx.dictOffset < 0 { return Err(InvalidDictionary); }
    if !IsDigest(idx.dictSHA) { return Err(InvalidChecksum); }
    if idx.dictOffset > limit { return Err(OutOfBounds); }
    var room: int64 := limit - idx.dictOffset;
    if idx.dictSize > room { return Err(OutOfBounds); }
    var end: int64 := idx.dictOffset + idx.dictSize;
    return Ok(end);
  }

  /** One payload against the data that ends at `lastEnd`. */
  method ValidateVariant(v: Variant, limit: int64, bounded: bool, lastEnd: int64)
    returns (r: Result<int64, FormatError>)
    requires limit >= 0 && (bounded || lastEnd == 0)
    ensures r.Ok? <==> SoundPayload(v) && Inside(RegionOf(v), limit) && lastEnd <= v.offset
    ensures r.Ok? ==> r.value == RegionOf(v).end
    ensures r.Err? ==> match r.error
                       case OutOfBounds => !Inside(RegionOf(v), limit) || v.uncompressed <= 0
                       case PayloadTooLarge => v.uncompressed > MAX_PAYLOAD_SIZE
                       case OverlappingVariant => 0 <= v.offset < lastEnd
                       case InvalidChecksum => !IsDigest(v.sha)
                       case _ => false
  {
    if v.offset < 0 || v.compressed <= 0 || v.uncompressed <= 0 { return Err(OutOfBounds); }
    if v.uncompressed > MAX_PAYLOAD_SIZE { return Err(PayloadTooLarge); }
    if v.offset > limit { return Err(OutOfBounds); }
    var room: int64 := limit - v.offset;
    if v.compressed > room { return Err(OutOfBounds); }
    if bounded && v.offset < lastEnd { return Err(OverlappingVariant); }
    var end: int64 := v.offset + v.compressed;
    if !IsDigest(v.sha) { return Err(InvalidChecksum); }
    return Ok(end);
  }

  /** The regions up to the first `k` payloads. */
  ghost function Prefix(idx: Index, k: nat): seq<Region>
    requires k <= |idx.variants|
  {
    Regions(idx.(variants := idx.variants[..k]))
  }

  lemma PrefixExtends(idx: Index, k: nat)
    requires k < |idx.variants|
    ensures Prefix(idx, k + 1) == Prefix(idx, k) + [RegionOf(idx.variants[k])]
    ensures Prefix(idx, k + 1) <= Regions(idx)
  {
    var d := |Regions(idx)| - |idx.variants|;
    assert Prefix(idx, k + 1) == Regions(idx)[..d + k + 1];
  }

  ghost predicate EndsAt(rs: seq<Region>, last: int) {
    last == if rs == [] then 0 else rs[|rs| - 1].end
  }

  /** A payload outside the data area, or begun before the data so far ends, is a fault of the whole layout. */
  lemma FaultOfLayout(idx: Index, k: nat, limit: int, last: int)
    requires k < |idx.variants| && EndsAt(Prefix(idx, k), last)
    ensures !Inside(RegionOf(idx.variants[k]), limit) ==> Strays(Regions(idx), limit)
    ensures 0 <= idx.variants[k].offset < last ==> Overlaps(Regions(idx))
  {
    hide Inside;
    PrefixExtends(idx, k);
    var n, r := |Prefix(idx, k)|, RegionOf(idx.variants[k]);
    hide Prefix, Regions;
    assert Regions(idx)[n] == Prefix(idx, k + 1)[n] == r;
    assert n > 0 ==> Regions(idx)[n - 1] == Prefix(idx, k + 1)[n - 1] == Prefix(idx, k)[n - 1];
  }

  lemma LayoutFaults(rs: seq<Region>, limit: int)
    ensures Overlaps(rs) || Strays(rs, limit) <==> !Laid(rs, limit)
  {
  }

  lemma LaidExtends(rs: seq<Region>, r: Region, limit: int, last: int)
    requires Laid(rs, limit) && EndsAt(rs, last)
    ensures Laid(rs + [r], limit) <==> Inside(r, limit) && last <= r.start
  {
    var all := rs + [r];
    assert all[|rs|] == r;
    assert rs != [] ==> all[|rs| - 1] == rs[|rs| - 1];
  }

  lemma WholePrefix(idx: Index)
    ensures Prefix(idx, |idx.variants|) == Regions(idx) && idx.variants[..|idx.variants|] == idx.variants
  {
  }

  /** `validateVariantBounds`: one pass with a running end and a set of levels seen. */
  method ValidateVariants(idx: Index, limit: int64, start: int64, plat: Platform) returns (err: Option<FormatError>)
    requires limit >= 0 && Laid(Prefix(idx, 0), limit) && EndsAt(Prefix(idx, 0), start)
    requires idx.dictSize <= 0 ==> start == 0
    ensures err.None? <==> SoundVariants(idx.variants, idx.targetArch, plat) && DistinctLevels(idx.variants, plat)
                           && Laid(Regions(idx), limit)
    ensures err.Some? ==> Justified(err.value, idx, limit, plat)
  {
    hide SoundPayload, Laid, Prefix, IsDigest;
    var lastEnd, seen := start, {};
    for i := 0 to |idx.variants|
      invariant SoundVariants(idx.variants[..i], idx.targetArch, plat) && DistinctLevels(idx.variants[..i], plat)
      invariant seen == set j | 0 <= j < i :: plat.normalize(idx.variants[j].level)
      invariant Laid(Prefix(idx, i), limit) && EndsAt(Prefix(idx, i), lastEnd)
      invariant i == 0 && idx.dictSize <= 0 ==> lastEnd == 0
    {
      var v := idx.variants[i];
      var level := plat.normalize(v.level);
      if plat.isBlank(v.level) { return Some(InvalidVariant); }
      if plat.rank(idx.targetArch, level) <= 0 { return Some(InvalidVariant); }
      if level in seen { return Some(DuplicateVariant); }
      seen := seen + {level};
      PrefixExtends(idx, i);
      LaidExtends(Prefix(idx, i), RegionOf(v), limit, lastEnd);
      var end := ValidateVariant(v, limit, i > 0 || idx.dictSize > 0, lastEnd);
      if end.Err? {
        FaultOfLayout(idx, i, limit, lastEnd);
        LayoutFaults(Regions(idx), limit);
        return Some(end.error);
      }
      lastEnd := end.value;
    }
    WholePrefix(idx);
    return None;
  }

  lemma DictionaryFirst(idx: Index, limit: int)
    ensures var rs := Prefix(idx, 0);
      && EndsAt(rs, if idx.dictSize > 0 then idx.dictOffset + idx.dictSize else 0)
      && (!Laid(rs, limit) ==> Strays(Regions(idx), limit))
      && (Laid(rs, limit) <==>
            (idx.dictSize > 0 ==> Inside(Region(idx.dictOffset, idx.dictOffset + idx.dictSize), limit)))
  {
    var dictionary := Region(idx.dictOffset, idx.dictOffset + idx.dictSize);
    assert Prefix(idx, 0) == if idx.dictSize > 0 then [dictionary] else [];
    assert idx.dictSize > 0 ==> Regions(idx)[0] == Prefix(idx, 0)[0] == dictionary;
  }

  /** `ValidateBounds` accepts exactly the indices in bounds, and a rejection names a fault that is there. */
  method ValidateBounds(idx: Index, limit: int64, plat: Platform) returns (err: Option<FormatError>)
    ensures err.None? <==> InBounds(idx, limit, plat)
    ensures err.Some? ==> Justified(err.value, idx, limit, plat)
  {
    hide IsDigest, Prefix, Regions, Laid, EndsAt, SoundVariants, DistinctLevels;
    if idx.version != 2 { return Some(UnsupportedVersion); }
    if limit < 0 { return Some(OutOfBounds); }
    if |idx.variants| == 0 { return Some(NoVariants); }
    if !plat.knownArch(idx.targetArch) { return Some(InvalidVariant); }
    var start := ValidateDictionary(idx, limit);
    DictionaryFirst(idx, limit);
    LayoutFaults(Regions(idx), limit);
    if start.Err? { return Some(start.error); }
    err := ValidateVariants(idx, limit, start.value, plat);
  }

  /** `FindVariant`: the first entry whose level normalizes alike; for distinct levels, the only one. */
  method FindVariant(idx: Index, level: Bytes, plat: Platform) returns (r: Option<nat>)
    ensures r.Some? ==> r.value < |idx.variants| && plat.normalize(idx.variants[r.value].level) == plat.normalize(level)
    ensures r.Some? ==> forall k :: 0 <= k < r.value ==> plat.normalize(idx.variants[k].level) != plat.normalize(level)
    ensures r.None? ==> forall k :: 0 <= k < |idx.variants| ==>
      plat.normalize(idx.variants[k].level) != plat.normalize(level)
    ensures DistinctLevels(idx.variants, plat) ==>
      forall k :: 0 <= k < |idx.variants| && idx.variants[k].level == level ==> r == Some(k)
  {
    var norm := plat.normalize(level);
    for i := 0 to |idx.variants|
      invariant forall k :: 0 <= k < i ==> plat.normalize(idx.variants[k].level) != norm
    {
      if plat.normalize(idx.variants[i].level) == norm { return Some(i); }
    }
    return None;
  }
}
