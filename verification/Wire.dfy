/** Little-endian integers and length-prefixed strings, written and read at an offset of a buffer. */
module Wire {
  import opened Basics

  function Pow256(k: nat): (p: nat)
    ensures p > 0
  {
    if k == 0 then 1 else 256 * Pow256(k - 1)
  }

  lemma Widths()
    ensures Pow256(1) == 0x100 && Pow256(2) == 0x1_0000 && Pow256(4) == 0x1_0000_0000 && Pow256(8) == TWO_64
  {
  }

  /** `n` in `k` bytes, least significant first; higher digits are dropped. */
  function LE(n: nat, k: nat): (b: Bytes)
    ensures |b| == k
  {
    if k == 0 then [] else [(n % 256) as byte] + LE(n / 256, k - 1)
  }

  function FromLE(b: Bytes): nat {
    if b == [] then 0 else b[0] as nat + 256 * FromLE(b[1..])
  }

  lemma {:induction false} FromLEOfLE(n: nat, k: nat)
    requires n < Pow256(k)
    ensures FromLE(LE(n, k)) == n
  {
    if k > 0 {
      FromLEOfLE(n / 256, k - 1);
      assert LE(n, k)[1..] == LE(n / 256, k - 1);
    }
  }

  lemma LowDigit(first: nat, rest: nat)
    requires first < 256
    ensures (first + 256 * rest) % 256 == first && (first + 256 * rest) / 256 == rest
  {
  }

  lemma LEOfDigits(first: byte, rest: nat, k: nat)
    ensures LE(first as nat + 256 * rest, k + 1) == [first] + LE(rest, k)
  {
    var n := first as nat + 256 * rest;
    LowDigit(first as nat, rest);
    assert LE(n, k + 1) == [(n % 256) as byte] + LE(n / 256, k);
  }

  lemma {:induction false} LEOfFromLE(b: Bytes)
    ensures FromLE(b) < Pow256(|b|) && LE(FromLE(b), |b|) == b
  {
    if b != [] {
      LEOfFromLE(b[1..]);
      LEOfDigits(b[0], FromLE(b[1..]), |b| - 1);
      assert b == [b[0]] + b[1..];
    }
  }

  /** Two's complement: `uint64(x)` and `int64(u)`. */
  function ToU64(x: int64): (u: nat)
    ensures u < TWO_64
  {
    if x < 0 then x + TWO_64 else x
  }

  function ToI64(u: nat): int64
    requires u < TWO_64
  {
    if u > MAX_INT64 then u - TWO_64 else u
  }

  function Int64(x: int64): (b: Bytes)
    ensures |b| == 8
  {
    LE(ToU64(x), 8)
  }

  /** A string with a one-byte length. */
  function Short(s: Bytes): (b: Bytes)
    requires |s| <= 255
    ensures |b| == 1 + |s|
  {
    [|s| as byte] + s
  }

  /** A string with a two-byte length. */
  function Long(s: Bytes): (b: Bytes)
    requires |s| <= 65535
    ensures |b| == 2 + |s|
  {
    LE(|s|, 2) + s
  }

  // ---------------------------------------------------------------- reading

  /** `bytes` stands in `data` at offset `off`. */
  predicate At(data: Bytes, off: nat, bytes: Bytes) {
    off + |bytes| <= |data| && data[off..off + |bytes|] == bytes
  }

  lemma AtSplit(data: Bytes, off: nat, a: Bytes, b: Bytes)
    ensures At(data, off, a + b) <==> At(data, off, a) && At(data, off + |a|, b)
  {
    if off + |a| + |b| <= |data| {
      assert data[off..off + |a| + |b|] == data[off..off + |a|] + data[off + |a|..off + |a| + |b|];
      assert (a + b)[..|a|] == a && (a + b)[|a|..] == b;
      assert data[off..off + |a| + |b|][..|a|] == data[off..off + |a|];
      assert data[off..off + |a| + |b|][|a|..] == data[off + |a|..off + |a| + |b|];
    }
  }

  lemma AtEmpty(data: Bytes, off: nat)
    requires off <= |data|
    ensures At(data, off, [])
  {
  }

  lemma AtSelf(data: Bytes)
    ensures At(data, 0, data)
  {
    assert data[0..|data|] == data;
  }

  lemma AtWithin(data: Bytes, off: nat, bytes: Bytes)
    requires At(data, off, bytes)
    ensures off + |bytes| <= |data|
  {
  }

  lemma AtAppend(data: Bytes, off: nat, bytes: Bytes, extra: Bytes)
    requires At(data, off, bytes)
    ensures At(data + extra, off, bytes)
  {
  }

  /** Read a value and the offset behind it, or run out of data. */
  function ReadInt(data: Bytes, off: nat, k: nat): Option<(nat, nat)> {
    if off + k > |data| then None else Some((FromLE(data[off..off + k]), off + k))
  }

  function ReadShort(data: Bytes, off: nat): Option<(Bytes, nat)> {
    if off >= |data| then None
    else
      var n := data[off] as nat;
      if off + 1 + n > |data| then None else Some((data[off + 1..off + 1 + n], off + 1 + n))
  }

  function ReadLong(data: Bytes, off: nat): Option<(Bytes, nat)> {
    if off + 2 > |data| then None
    else
      var n := FromLE(data[off..off + 2]);
      if off + 2 + n > |data| then None else Some((data[off + 2..off + 2 + n], off + 2 + n))
  }

  /** Where a reader leaves off. */
  lemma ReadersAdvance(data: Bytes, off: nat, k: nat)
    ensures ReadShort(data, off).Some? ==> ReadShort(data, off).value.1 == off + 1 + |ReadShort(data, off).value.0|
    ensures ReadLong(data, off).Some? ==> ReadLong(data, off).value.1 == off + 2 + |ReadLong(data, off).value.0|
    ensures ReadInt(data, off, k).Some? ==> ReadInt(data, off, k).value.1 == off + k
  {
    hide FromLE;
  }

  lemma ReadIntRange(data: Bytes, off: nat, k: nat)
    requires off + k <= |data|
    ensures FromLE(data[off..off + k]) < Pow256(k)
    ensures Pow256(2) == 0x1_0000 && Pow256(4) == 0x1_0000_0000 && Pow256(8) == TWO_64
  {
    Widths();
    LEOfFromLE(data[off..off + k]);
  }

  /** What a reader has found does not change when bytes are appended, and within enough bytes it finds something. */
  lemma ReadersAreStable(data: Bytes, off: nat, k: nat, extra: Bytes)
    ensures ReadShort(data, off).Some? ==> ReadShort(data + extra, off) == ReadShort(data, off)
    ensures ReadLong(data, off).Some? ==> ReadLong(data + extra, off) == ReadLong(data, off)
    ensures ReadInt(data, off, k).Some? ==> ReadInt(data + extra, off, k) == ReadInt(data, off, k)
  {
    hide FromLE;
    var all := data + extra;
    if off + 2 <= |data| {
      assert all[off..off + 2] == data[off..off + 2];
      var n := FromLE(data[off..off + 2]);
      if off + 2 + n <= |data| { assert all[off + 2..off + 2 + n] == data[off + 2..off + 2 + n]; }
    }
    if off + k <= |data| { assert all[off..off + k] == data[off..off + k]; }
    if off < |data| && off + 1 + data[off] as nat <= |data| {
      var n := data[off] as nat;
      assert all[off] == data[off] && all[off + 1..off + 1 + n] == data[off + 1..off + 1 + n];
    }
  }

  lemma ReadersFind(data: Bytes, off: nat)
    ensures off + 256 <= |data| ==> ReadShort(data, off).Some?
    ensures off + 65537 <= |data| ==> ReadLong(data, off).Some?
  {
    if off + 2 <= |data| { ReadIntRange(data, off, 2); }
  }

  /** Each reader returns a value exactly when its encoding stands at the offset. */
  lemma ReadIntExact(data: Bytes, off: nat, k: nat, n: nat)
    requires n < Pow256(k)
    ensures At(data, off, LE(n, k)) <==> ReadInt(data, off, k) == Some((n, off + k))
  {
    FromLEOfLE(n, k);
    if off + k <= |data| {
      LEOfFromLE(data[off..off + k]);
    }
  }

  function ReadInt64(data: Bytes, off: nat): Option<(int64, nat)> {
    var r := ReadInt(data, off, 8);
    if r.None? then None
    else
      ReadIntRange(data, off, 8);
      Some((ToI64(r.value.0), r.value.1))
  }

  lemma ReadInt64IsStable(data: Bytes, off: nat, extra: Bytes)
    ensures ReadInt64(data, off).Some? ==> ReadInt64(data + extra, off) == ReadInt64(data, off)
  {
    ReadersAreStable(data, off, 8, extra);
    hide ReadInt;
  }

  lemma ReadInt64Exact(data: Bytes, off: nat, x: int64)
    ensures At(data, off, Int64(x)) <==> ReadInt64(data, off) == Some((x, off + 8))
  {
    Widths();
    ReadIntExact(data, off, 8, ToU64(x));
    if off + 8 <= |data| { ReadIntRange(data, off, 8); }
  }

  lemma ReadShortExact(data: Bytes, off: nat, s: Bytes)
    requires |s| <= 255
    ensures At(data, off, Short(s)) <==> ReadShort(data, off) == Some((s, off + 1 + |s|))
  {
    AtSplit(data, off, [|s| as byte], s);
    assert off < |data| ==> data[off..off + 1] == [data[off]];
  }

  lemma ReadLongExact(data: Bytes, off: nat, s: Bytes)
    requires |s| <= 65535
    ensures At(data, off, Long(s)) <==> ReadLong(data, off) == Some((s, off + 2 + |s|))
  {
    Widths();
    AtSplit(data, off, LE(|s|, 2), s);
    ReadIntExact(data, off, 2, |s|);
  }
}
