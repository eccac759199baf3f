/** Vocabulary shared by every component. */
module Basics {

  datatype Option<+T> = None | Some(value: T)

  datatype Result<+T, +E> = Ok(value: T) | Err(error: E) {
    predicate IsFailure() { Err? }

    function PropagateFailure<U>(): Result<U, E>
      requires Err?
    {
      Err(error)
    }

    function Extract(): T
      requires Ok?
    {
      value
    }
  }

  /** A Go byte. */
  newtype byte = x: int | 0 <= x < 0x100

  type Bytes = seq<byte>

  const MAX_INT64: int := 0x7FFF_FFFF_FFFF_FFFF
  const MIN_INT64: int := -0x8000_0000_0000_0000
  const TWO_64: int := 0x1_0000_0000_0000_0000

  /** Go's `int64`. */
  type int64 = x: int | MIN_INT64 <= x <= MAX_INT64 witness 0

  /** Go's `uint64`, as a type of its own: every operation on it is proved to stay inside 64 bits. */
  newtype uint64 = x: int | 0 <= x < TWO_64

  /** `MaxPayloadSize`: the largest accepted uncompressed payload, 1 GiB. */
  const MAX_PAYLOAD_SIZE: int := 1024 * 1024 * 1024

  /** `MaxDictionarySize`: the largest accepted shared dictionary, 1 MiB. */
  const MAX_DICTIONARY_SIZE: int := 1024 * 1024

  /** A memory ceiling from here on, 1 PiB, counts as unlimited. */
  const UNLIMITED_THRESHOLD: int := 1024 * 1024 * 1024 * 1024 * 1024

  /** `DefaultMinHeadroomBytes`: what stays free of the Go heap by default, 64 MiB. */
  const DEFAULT_MIN_HEADROOM: int := 64 * 1024 * 1024

  predicate IsHexDigit(c: char) {
    '0' <= c <= '9' || 'a' <= c <= 'f' || 'A' <= c <= 'F'
  }

  lemma HexDigits(c: char)
    ensures IsHexDigit(c) <==> c in "0123456789abcdefABCDEF"
  {
    var all := "0123456789abcdefABCDEF";
    if IsHexDigit(c) {
      var i := if c <= '9' then c as int - 48 else if c >= 'a' then c as int - 87 else c as int - 49;
      assert all[i] == c;
    }
  }

  /** A nonempty checksum string that `ValidateChecksum` accepts: 64 hexadecimal digits. */
  predicate IsHexDigest(s: string) {
    |s| == 64 && forall i :: 0 <= i < |s| ==> IsHexDigit(s[i])
  }

  /** Products of different numbers lie at least one factor apart. */
  lemma Spaced(a: int, b: int, p: int)
    requires p > 0
    ensures a < b ==> a * p + p <= b * p
  {
    if a < b {
      var d := b - a - 1;
      assert d * p >= 0 && (a + 1 + d) * p == a * p + p + d * p;
    }
  }
}
