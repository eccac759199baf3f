/**
 Streaming a decompressed payload into a memory file while hashing it: the bounded writer of the codecs,
 the decompression loop around it, and the digest check that precedes sealing.

 The decoder is an arbitrary stream of chunks that may end in an error; every write to the memory file
 may be cut short. SHA-256 is an arbitrary function `hash`.
 */
module Extract {
  import opened Basics

  /**
   What the source delivers: chunks, then end of file or an error. A dictionary that fails its checks or an
   unknown codec is a stream without chunks that ends in an error.
   */
  datatype Stream = Stream(chunks: seq<Bytes>, readError: bool)

  datatype ExtractError = SizeMismatch | DecompressionFailed | PayloadCorrupted | PayloadTooLarge | InvalidChecksum

  function Concat(chunks: seq<Bytes>): Bytes {
    if chunks == [] then [] else Concat(chunks[..|chunks| - 1]) + chunks[|chunks| - 1]
  }

  /** The length of the part of `data` that a write accepts; all of it unless the file fails. */
  type Acceptance = (nat, Bytes) -> nat

  ghost predicate ValidAcceptance(accept: Acceptance) {
    forall i: nat, data: Bytes :: accept(i, data) <= |data|
  }

  /** An anonymous memory file with a write position, possibly pre-sized with zeros. */
  class Memfd {
    var content: Bytes
    var pos: nat

    constructor (presized: nat)
      ensures content == seq(presized, i => 0) && pos == 0
    {
      content := seq(presized, i => 0);
      pos := 0;
    }

    /** The file after writing `data` at the position: overwrite, then extend. */
    function After(data: Bytes): Bytes
      requires pos <= |content|
      reads this
    {
      content[..pos] + data + (if pos + |data| <= |content| then content[pos + |data|..] else [])
    }

    method Write(data: Bytes)
      requires pos <= |content|
      modifies this
      ensures content == old(After(data)) && pos == old(pos) + |data|
      ensures pos <= |content| && content[..pos] == old(content[..pos]) + data
      ensures |content| == if old(pos) + |data| <= old(|content|) then old(|content|) else old(pos) + |data|
    {
      content := After(data);
      pos := pos + |data|;
    }
  }

  /**
   `boundedWriter` over the writer that feeds the memory file first and the hasher second.
   The hasher sees a chunk only when the file took it whole.
   */
  class BoundedWriter {
    const file: Memfd
    const limit: int
    var written: int
    var hashed: Bytes
    var failed: bool // a write to the file was cut short

    ghost predicate Valid()
      reads this, file
    {
      && 0 <= written <= limit
      && written == file.pos && file.pos <= |file.content|
      && (!failed ==> hashed == file.content[..file.pos])
    }

    constructor (file: Memfd, limit: int)
      requires file.pos == 0
      ensures Valid() && this.file == file && written == 0 && hashed == [] && !failed
      ensures this.limit == if limit < 0 || limit > MAX_PAYLOAD_SIZE then MAX_PAYLOAD_SIZE else limit
    {
      this.file := file;
      this.limit := if limit < 0 || limit > MAX_PAYLOAD_SIZE then MAX_PAYLOAD_SIZE else limit;
      written := 0;
      hashed := [];
      failed := false;
    }

    /** Pass `data` through; the file accepts `accepted` bytes of what the bound lets through. */
    method Write(data: Bytes, accepted: nat) returns (err: Option<ExtractError>)
      requires Valid()
      modifies this, file
      ensures Valid()
      ensures old(failed) ==> failed
      ensures err.None? ==> !failed || old(failed)
      ensures err.None? <==> |data| == 0 || (old(written) + |data| <= limit && accepted >= |data|)
      ensures err.None? ==> written == old(written) + |data| && hashed == old(hashed) + data
      ensures err.Some? ==> err.value.SizeMismatch? || err.value.DecompressionFailed?
      ensures err == Some(SizeMismatch) ==> old(written) + |data| > limit
      ensures err == Some(DecompressionFailed) ==> accepted < |data|
      ensures |file.content| <= old(|file.content|) || |file.content| == file.pos
      ensures |file.content| >= old(|file.content|)
    {
      if |data| == 0 {
        assert hashed + data == hashed;
        return None;
      }
      var remaining := limit - written;
      if remaining <= 0 {
        return Some(SizeMismatch);
      }
      var allowed := if |data| > remaining then data[..remaining] else data;
      var n := if accepted < |allowed| then accepted else |allowed|;
      file.Write(allowed[..n]);
      written := written + n;
      if n < |allowed| {
        failed := true;
        return Some(DecompressionFailed);
      }
      assert allowed[..n] == allowed;
      hashed := hashed + allowed;
      if |data| > remaining {
        return Some(SizeMismatch);
      }
      return None;
    }
  }

  /** Every chunk is accepted whole. */
  predicate AllAccepted(stream: Stream, accept: Acceptance) {
    forall i: nat :: i < |stream.chunks| ==> accept(i, stream.chunks[i]) == |stream.chunks[i]|
  }

  /** Neither the decoder nor the file failed. */
  predicate Intact(stream: Stream, accept: Acceptance) {
    !stream.readError && AllAccepted(stream, accept)
  }

  lemma {:induction false} ConcatMonotone(chunks: seq<Bytes>, k: nat)
    requires k <= |chunks|
    ensures |Concat(chunks[..k])| <= |Concat(chunks)|
    decreases |chunks| - k
  {
    if k < |chunks| {
      assert chunks[..k + 1][..k] == chunks[..k];
      ConcatMonotone(chunks, k + 1);
    } else {
      assert chunks[..k] == chunks;
    }
  }

  /**
   `Decompress` of the three codecs: copy the stream through a bounded writer, then insist on the declared size.
   It succeeds exactly when nothing failed and the stream is exactly `size` bytes long; the file then begins
   with those bytes, and the hasher saw the same bytes.
   */
  method Decompress(file: Memfd, stream: Stream, size: int, accept: Acceptance)
    returns (err: Option<ExtractError>, hashed: Bytes)
    requires file.pos == 0 && (file.content == [] || |file.content| == size)
    requires ValidAcceptance(accept)
    modifies file
    ensures err.None? <==>
      size <= MAX_PAYLOAD_SIZE && Intact(stream, accept) && |Concat(stream.chunks)| == size
    ensures err.None? ==> hashed == Concat(stream.chunks) && file.content == hashed
    ensures err.Some? ==> err.value.SizeMismatch? || err.value.DecompressionFailed?
    ensures Intact(stream, accept) && err.Some? ==> err.value.SizeMismatch?
    ensures !Intact(stream, accept) && |Concat(stream.chunks)| <= size <= MAX_PAYLOAD_SIZE ==>
      err == Some(DecompressionFailed)
  {
    if size < 0 || size > MAX_PAYLOAD_SIZE {
      return Some(SizeMismatch), [];
    }
    var bw := new BoundedWriter(file, size);
    var i := 0;
    while i < |stream.chunks|
      invariant 0 <= i <= |stream.chunks|
      invariant bw.Valid() && fresh(bw) && bw.file == file && bw.limit == size && !bw.failed
      invariant bw.hashed == Concat(stream.chunks[..i]) && bw.written == |bw.hashed|
      invariant |file.content| <= size
      invariant forall k: nat :: k < i ==> accept(k, stream.chunks[k]) == |stream.chunks[k]|
    {
      var chunk := stream.chunks[i];
      assert stream.chunks[..i + 1][..i] == stream.chunks[..i];
      assert |Concat(stream.chunks[..i + 1])| == bw.written + |chunk|;
      var e := bw.Write(chunk, accept(i, chunk));
      if e.Some? {
        ConcatMonotone(stream.chunks, i + 1);
        assert e.value.SizeMismatch? || accept(i, stream.chunks[i]) < |chunk|;
        return e, bw.hashed;
      }
      i := i + 1;
    }
    assert stream.chunks[..i] == stream.chunks;
    if stream.readError {
      return Some(DecompressionFailed), bw.hashed;
    }
    if bw.written != size {
      return Some(SizeMismatch), bw.hashed;
    }
    assert file.content[..file.pos] == file.content;
    return None, bw.hashed;
  }

  ghost predicate Extractable(stream: Stream, size: int, sha: string, accept: Acceptance, hash: Bytes -> string) {
    && 0 < size <= MAX_PAYLOAD_SIZE && IsHexDigest(sha)
    && Intact(stream, accept)
    && |Concat(stream.chunks)| == size
    && hash(Concat(stream.chunks)) == sha
  }

  /**
   `extractVariantToWriter` into a memory file that may have been pre-sized (best effort): on success the
   file is exactly the verified bytes, `size` of them, with no pre-sized zero left behind.
   */
  method ExtractToMemfd(stream: Stream, size: int, sha: string, presized: bool, accept: Acceptance,
                        hash: Bytes -> string)
    returns (err: Option<ExtractError>, content: Bytes)
    requires ValidAcceptance(accept)
    ensures err.None? <==> Extractable(stream, size, sha, accept, hash)
    ensures err.None? ==> content == Concat(stream.chunks) && |content| == size && hash(content) == sha
    ensures err == Some(PayloadTooLarge) <==> size <= 0 || size > 1024 * 1024 * 1024
    ensures err == Some(InvalidChecksum) <==> 0 < size <= MAX_PAYLOAD_SIZE && !IsHexDigest(sha)
    ensures 0 < size <= MAX_PAYLOAD_SIZE && IsHexDigest(sha) ==>
      var payload := Concat(stream.chunks);
      && (err == Some(PayloadCorrupted) <==> Intact(stream, accept) && |payload| == size && hash(payload) != sha)
      && (Intact(stream, accept) && |payload| != size ==> err == Some(SizeMismatch))
      && (!Intact(stream, accept) && |payload| <= size ==> err == Some(DecompressionFailed))
  {
    hide IsHexDigest;
    var file := new Memfd(if presized && size > 0 then size else 0);
    if size <= 0 || size > MAX_PAYLOAD_SIZE {
      return Some(PayloadTooLarge), file.content;
    }
    if !IsHexDigest(sha) {
      return Some(InvalidChecksum), file.content;
    }
    var hashed;
    err, hashed := Decompress(file, stream, size, accept);
    content := file.content;
    if err.None? && hash(hashed) != sha {
      err := Some(PayloadCorrupted);
    }
  }
}
