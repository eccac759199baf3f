/**
 The launcher's dispatch: a verified cache hit, a sealed memory file, a materialized cache entry.

 Each method follows one function of the launcher, with its early returns, and returns the error (if any)
 together with the trace of its effects on the outside world. What the operating system answers is the
 record `Os`, over which every contract quantifies. An error is the set of sentinels that `errors.Is`
 finds in its chain.
 */
module Dispatch {
  import opened Basics
  import opened CacheProtocol
  import opened CacheSafety
  import opened Extract
  import Decimal
  import Environ

  datatype Mode = Auto | ModeMemfd | ModeCache

  datatype Sentinel =
    | ErrMemoryBudget | ErrPayloadTooLarge | ErrInvalidDictionary
    | ErrMemfdCreate | ErrMemfdExtract | ErrMemfdSealingFailed | ErrExecve
    | ErrCacheInit | ErrCacheWrite | ErrCacheExtract
    | ErrPayloadCorrupted | ErrDictionaryCorrupted | ErrInvalidChecksum
    | ErrDecompressionFailed | ErrSizeMismatch | ErrUnsupportedCodec

  type Error = set<Sentinel>

  /** The selected variant and the size of the shared dictionary, if an index is present. */
  datatype Job = Job(entry: Entry, compression: string, dictionary: Option<int>)

  /** Outcome of opening and validating a cache entry. */
  datatype Lookup = Hit(fd: int, node: Inode) | Miss | Refused

  /** Outcome of reading the cgroup limits: unreadable or unknown, no finite ceiling, or a ceiling. */
  datatype Ceiling = NoReading | Unlimited | Finite(limit: int)

  datatype CacheDir = DirReady | DirError | DirInvalid

  /**
   What every environment is built from: the inherited variables, what is known of the launch, and the tuning settings.
   */
  datatype Context = Context(base: seq<string>, launch: Environ.Launch, settings: Environ.Settings)

  /** Each route reads the cgroup limits anew: `warmSeen`, `memfdSeen` and `coldSeen`. */
  datatype Os = Os(
    existingDir: bool, warm: Lookup, warmSeen: Option<Environ.Observation>, warmExec: bool,
    memfdSeen: Option<Environ.Observation>, coldSeen: Option<Environ.Observation>,
    ceiling: Ceiling, memfd: Option<int>, presized: bool, stream: Stream, accept: Acceptance, seal: bool,
    memfdExec: bool,
    cacheDir: CacheDir, cold: Lookup, coldCeiling: Ceiling, materialized: Result<(int, Inode), Error>, coldExec: bool)

  datatype Route = ViaCache | ViaMemfd

  datatype Effect =
    | FindCacheDir                          // read-only discovery
    | OpenVerified(fd: int, node: Inode)    // descriptor whose whole inode was validated
    | InspectEntry                          // read-only lookup that yielded no descriptor
    | MakeCacheDir                          // discovery that may create or repair a directory
    | RemovingLookup                        // lookup that may unlink a corrupt entry
    | Materialize                           // publication of a new entry
    | CreateMemfd(fd: int)
    | FillMemfd(fd: int, content: Bytes)    // extraction succeeded with this file content
    | SealMemfd(fd: int)
    | Exec(fd: int, route: Route, ok: bool, env: seq<string>)

  // ---------------------------------------------------------------- what a trace promises

  predicate ChangesCache(e: Effect) {
    e.MakeCacheDir? || e.RemovingLookup? || e.Materialize?
  }

  predicate TouchesCache(e: Effect) {
    e.FindCacheDir? || e.OpenVerified? || e.InspectEntry? || ChangesCache(e) || (e.Exec? && e.route.ViaCache?)
  }

  predicate TouchesMemfd(e: Effect) {
    e.CreateMemfd? || e.FillMemfd? || e.SealMemfd? || (e.Exec? && e.route.ViaMemfd?)
  }

  /** The exec at `i` runs the descriptor that the effects right before it verified (and sealed). */
  predicate ExecIsVerified(tr: seq<Effect>, i: nat, entry: Entry, hash: Hash)
    requires i < |tr| && tr[i].Exec?
  {
    var fd := tr[i].fd;
    match tr[i].route
    case ViaCache =>
      i >= 1 && tr[i - 1].OpenVerified? && tr[i - 1].fd == fd && Verified(tr[i - 1].node, entry, hash)
    case ViaMemfd =>
      && i >= 3 && tr[i - 3] == CreateMemfd(fd) && tr[i - 1] == SealMemfd(fd)
      && tr[i - 2].FillMemfd? && tr[i - 2].fd == fd
      && |tr[i - 2].content| == entry.size && hash(tr[i - 2].content) == entry.sha
  }

  predicate ExecsAreVerified(tr: seq<Effect>, entry: Entry, hash: Hash) {
    forall i: nat :: i < |tr| && tr[i].Exec? ==> ExecIsVerified(tr, i, entry, hash)
  }

  predicate AtMostOneExec(tr: seq<Effect>, route: Route) {
    forall i, j :: 0 <= i < j < |tr| && tr[i].Exec? && tr[j].Exec? ==> !(tr[i].route == route && tr[j].route == route)
  }

  /** A successful exec replaces the process: it is the last effect, and there is no error. */
  predicate EndsInSuccess(tr: seq<Effect>) {
    |tr| > 0 && tr[|tr| - 1].Exec? && tr[|tr| - 1].ok
  }

  predicate SuccessOnlyLast(tr: seq<Effect>) {
    forall i :: 0 <= i < |tr| - 1 ==> !(tr[i].Exec? && tr[i].ok)
  }

  /** Every exec verified, at most one per route, and success ends the trace. */
  predicate Lawful(tr: seq<Effect>, entry: Entry, hash: Hash) {
    && ExecsAreVerified(tr, entry, hash)
    && AtMostOneExec(tr, ViaCache) && AtMostOneExec(tr, ViaMemfd)
    && SuccessOnlyLast(tr)
  }

  /** The launch as a route describes it to the payload. */
  function LaunchVia(ctx: Context, job: Job, route: Route): Environ.Launch {
    ctx.launch.(mode := if route.ViaMemfd? then Environ.Memfd else Environ.Cache,
                sha := job.entry.sha, size := job.entry.size)
  }

  ghost predicate DeliversVia(env: seq<string>, ctx: Context, job: Job, route: Route,
                              seen: Option<Environ.Observation>) {
    Environ.Delivers(env, ctx.base, LaunchVia(ctx, job, route), seen, ctx.settings)
  }

  /** An exec passes the environment of its own route, built from that route's reading of the limits. */
  ghost predicate ExecDelivers(e: Effect, ctx: Context, job: Job, os: Os) {
    e.Exec? ==>
      if e.route.ViaMemfd? then DeliversVia(e.env, ctx, job, ViaMemfd, os.memfdSeen)
      else DeliversVia(e.env, ctx, job, ViaCache, os.warmSeen) || DeliversVia(e.env, ctx, job, ViaCache, os.coldSeen)
  }

  ghost predicate ExecsDeliver(tr: seq<Effect>, ctx: Context, job: Job, os: Os) {
    forall i :: 0 <= i < |tr| ==> ExecDelivers(tr[i], ctx, job, os)
  }

  predicate NoExec(tr: seq<Effect>, route: Route) {
    forall i :: 0 <= i < |tr| && tr[i].Exec? ==> tr[i].route != route
  }

  ghost predicate ReturnedIn(tr: seq<State>, i: nat, j: nat, pid: Pid, node: Inode, entry: Entry, hash: Hash) {
    && Run(tr, hash) && i <= j < |tr| && pid in tr[i].procs && tr[i].procs[pid].pc.Returned?
    && tr[i].procs[pid].entry == entry
    && tr[i].procs[pid].pc.ino in tr[j].inodes && node == tr[j].inodes[tr[i].procs[pid].pc.ino]
  }

  /** A descriptor that some call of the cache protocol returned, and its inode at that moment or later. */
  ghost predicate FromProtocol(node: Inode, entry: Entry, hash: Hash) {
    exists tr, i: nat, j: nat, pid :: ReturnedIn(tr, i, j, pid, node, entry, hash)
  }

  /**
   The cache answers with descriptors of its protocol; a write to the memory file accepts at most what it is given.
   */
  ghost predicate CacheAnswers(os: Os, entry: Entry, hash: Hash) {
    && (os.warm.Hit? ==> FromProtocol(os.warm.node, entry, hash))
    && (os.cold.Hit? ==> FromProtocol(os.cold.node, entry, hash))
    && (os.materialized.Ok? ==> FromProtocol(os.materialized.value.1, entry, hash))
    && ValidAcceptance(os.accept)
  }

  /** So every descriptor it hands out is verified. */
  ghost predicate CacheContract(os: Os, entry: Entry, hash: Hash) {
    && (os.warm.Hit? ==> Verified(os.warm.node, entry, hash))
    && (os.cold.Hit? ==> Verified(os.cold.node, entry, hash))
    && (os.materialized.Ok? ==> Verified(os.materialized.value.1, entry, hash))
    && ValidAcceptance(os.accept)
  }

  lemma FromProtocolIsVerified(node: Inode, entry: Entry, hash: Hash)
    requires FromProtocol(node, entry, hash)
    ensures Verified(node, entry, hash)
  {
    hide Run;
    var tr, i: nat, j: nat, pid :| ReturnedIn(tr, i, j, pid, node, entry, hash);
    DescriptorStaysVerified(tr, i, j, pid, hash);
  }

  lemma CacheAnswersAreVerified(os: Os, entry: Entry, hash: Hash)
    requires CacheAnswers(os, entry, hash)
    ensures CacheContract(os, entry, hash)
  {
    hide FromProtocol, Verified;
    if os.warm.Hit? { FromProtocolIsVerified(os.warm.node, entry, hash); }
    if os.cold.Hit? { FromProtocolIsVerified(os.cold.node, entry, hash); }
    if os.materialized.Ok? { FromProtocolIsVerified(os.materialized.value.1, entry, hash); }
  }

  /** An effect is what the operating system answered: its descriptors, its bytes, and whether the exec succeeded. */
  predicate Answered(e: Effect, os: Os) {
    match e
    case OpenVerified(fd, node) =>
      os.warm == Hit(fd, node) || os.cold == Hit(fd, node) || os.materialized == Ok((fd, node))
    case CreateMemfd(fd) => os.memfd == Some(fd)
    case FillMemfd(fd, content) => os.memfd == Some(fd) && content == Concat(os.stream.chunks)
    case SealMemfd(fd) => os.memfd == Some(fd) && os.seal
    case Exec(_, route, ok, _) => if route.ViaMemfd? then ok == os.memfdExec else ok == os.warmExec || ok == os.coldExec
    case _ => true
  }

  predicate AllAnswered(tr: seq<Effect>, os: Os) { forall i :: 0 <= i < |tr| ==> Answered(tr[i], os) }

  lemma AnsweredConcat(a: seq<Effect>, b: seq<Effect>, os: Os)
    requires AllAnswered(a, os) && AllAnswered(b, os)
    ensures AllAnswered(a + b, os)
  {
    hide Answered;
  }

  // ---------------------------------------------------------------- extraction budget

  /** Decoder allowance by codec. */
  function DecoderAllowance(compression: string): int {
    if compression == "none" then 128 * 1024
    else if compression == "zstd" then 32 * 1024 + 512 * 1024 * 1024
    else if compression == "lz4" then 32 * 1024 + 12 * 1024 * 1024
    else 32 * 1024
  }

  function Sum(values: seq<int>): int {
    if values == [] then 0 else Sum(values[..|values| - 1]) + values[|values| - 1]
  }

  lemma {:induction false} SumBelowWhole(values: seq<int>, k: nat)
    requires k <= |values|
    requires Sum(values[..k]) > MAX_INT64
    ensures Sum(values) > MAX_INT64 || exists i :: 0 <= i < |values| && values[i] < 0
    decreases |values| - k
  {
    if k == |values| {
      assert values[..k] == values;
    } else if values[k] >= 0 {
      assert values[..k + 1][..k] == values[..k];
      SumBelowWhole(values, k + 1);
    }
  }

  /** `ExtractionMemory`: the exact sum, or nothing when a term is negative or the sum leaves 64 bits. */
  method ExtractionMemory(values: seq<int>) returns (r: Option<int>)
    requires forall i :: 0 <= i < |values| ==> MIN_INT64 <= values[i] <= MAX_INT64
    ensures r.Some? <==> (forall i :: 0 <= i < |values| ==> values[i] >= 0) && Sum(values) <= MAX_INT64
    ensures r.Some? ==> r.value == Sum(values)
  {
    var total: int64 := 0;
    for k := 0 to |values|
      invariant total == Sum(values[..k]) && total >= 0
      invariant forall i :: 0 <= i < k ==> values[i] >= 0
    {
      assert values[..k + 1][..k] == values[..k];
      if values[k] < 0 || values[k] > MAX_INT64 - total {
        if values[k] >= 0 { SumBelowWhole(values, k + 1); }
        return None;
      }
      total := total + values[k];
    }
    assert values[..|values|] == values;
    return Some(total);
  }

  const KiB: int := 1024
  const MiB: int := 1024 * KiB
  const GiB: int := 1024 * MiB
  const PiB: int := 1024 * 1024 * GiB

  /** Payload, dictionary, and by codec the decoder's buffers with 64 MiB left free. */
  function Estimate(job: Job): int {
    job.entry.size + (if job.dictionary.Some? then job.dictionary.value else 0) +
    match job.compression
    case "none" => 64 * MiB + 128 * KiB
    case "zstd" => 576 * MiB + 32 * KiB
    case "lz4" => 76 * MiB + 32 * KiB
    case _ => 64 * MiB + 32 * KiB
  }

  /** When extraction may start: sizes in range and the estimate within a finite ceiling. */
  predicate WithinBudget(job: Job, ceiling: Ceiling) {
    && 0 < job.entry.size <= GiB
    && (job.dictionary.Some? ==> 0 <= job.dictionary.value <= MiB)
    && (ceiling.Finite? && ceiling.limit < PiB ==> Estimate(job) <= ceiling.limit)
  }

  lemma SizeWithin(job: Job, ceiling: Ceiling)
    requires WithinBudget(job, ceiling)
    ensures 0 < job.entry.size <= GiB
  {
  }

  lemma SumOfFour(a: int, b: int, c: int, d: int)
    ensures Sum([a, b, c, d]) == a + b + c + d
  {
    assert [a][..0] == [] && Sum([a]) == a;
    assert [a, b][..1] == [a] && Sum([a, b]) == a + b;
    assert [a, b, c][..2] == [a, b] && Sum([a, b, c]) == a + b + c;
    assert [a, b, c, d][..3] == [a, b, c];
  }

  /** `isPayloadCorruptionOrDecompressionError` */
  predicate IntegrityError(err: Error) {
    || ErrMemfdExtract in err || ErrPayloadCorrupted in err || ErrDictionaryCorrupted in err
    || ErrInvalidDictionary in err || ErrInvalidChecksum in err || ErrPayloadTooLarge in err
    || ErrDecompressionFailed in err || ErrSizeMismatch in err || ErrUnsupportedCodec in err
  }

  /** Memory-file failures after which materializing the cache is pointless. */
  predicate NotHelpedByCache(err: Error) {
    ErrMemoryBudget in err || IntegrityError(err)
  }

  method CheckExtractionBudget(job: Job, ceiling: Ceiling) returns (err: Option<Error>)
    ensures err.None? <==> WithinBudget(job, ceiling)
    ensures err.Some? ==> NotHelpedByCache(err.value)
    ensures err == Some({ErrPayloadTooLarge}) <==> !(0 < job.entry.size <= GiB)
    ensures err == Some({ErrInvalidDictionary}) <==>
      0 < job.entry.size <= GiB && job.dictionary.Some? && !(0 <= job.dictionary.value <= MiB)
    ensures err.Some? ==> err.value in {{ErrPayloadTooLarge}, {ErrInvalidDictionary}, {ErrMemoryBudget}}
  {
    if job.entry.size <= 0 || job.entry.size > MAX_PAYLOAD_SIZE {
      return Some({ErrPayloadTooLarge});
    }
    var dictionary := if job.dictionary.Some? then job.dictionary.value else 0;
    if dictionary < 0 || dictionary > MAX_DICTIONARY_SIZE {
      return Some({ErrInvalidDictionary});
    }
    if !ceiling.Finite? || ceiling.limit >= UNLIMITED_THRESHOLD {
      return None;
    }
    var terms := [job.entry.size, dictionary, DecoderAllowance(job.compression), DEFAULT_MIN_HEADROOM];
    var estimate := ExtractionMemory(terms);
    SumOfFour(job.entry.size, dictionary, DecoderAllowance(job.compression), DEFAULT_MIN_HEADROOM);
    if estimate.None? {
      return Some({ErrMemoryBudget});
    }
    if estimate.value > ceiling.limit {
      return Some({ErrMemoryBudget});
    }
    return None;
  }

  // ---------------------------------------------------------------- the three routes

  function ExtractSentinel(e: ExtractError): Sentinel {
    match e
    case SizeMismatch => ErrSizeMismatch
    case DecompressionFailed => ErrDecompressionFailed
    case PayloadCorrupted => ErrPayloadCorrupted
    case PayloadTooLarge => ErrPayloadTooLarge
    case InvalidChecksum => ErrInvalidChecksum
  }

  /** Failures to create, seal or execute leave the cache as an option; a failed extraction does not. */
  lemma FallbackClasses()
    ensures !NotHelpedByCache({ErrMemfdCreate}) && !NotHelpedByCache({ErrMemfdSealingFailed})
    ensures !NotHelpedByCache({ErrExecve})
    ensures forall e :: NotHelpedByCache({ErrMemfdExtract, ExtractSentinel(e)})
  {
  }

  predicate Consults(job: Job, os: Os) {
    (job.entry.sha == "" || IsHexDigest(job.entry.sha)) && os.existingDir
  }

  predicate WarmHit(job: Job, os: Os) {
    Consults(job, os) && os.warm.Hit?
  }

  predicate UnsafeEntry(job: Job, os: Os) {
    Consults(job, os) && os.warm.Refused?
  }

  predicate ExecFree(tr: seq<Effect>) {
    forall i :: 0 <= i < |tr| ==> !tr[i].Exec?
  }

  lemma ExecAfterVerification(tr: seq<Effect>, fd: int, node: Inode, ok: bool, env: seq<string>, entry: Entry,
                              hash: Hash)
    requires ExecFree(tr) && Verified(node, entry, hash)
    ensures var r := tr + [OpenVerified(fd, node)] + [Exec(fd, ViaCache, ok, env)];
      Lawful(r, entry, hash) && (EndsInSuccess(r) <==> ok)
  {
  }

  lemma ExecFreeIsLawful(tr: seq<Effect>, ctx: Context, job: Job, os: Os, hash: Hash)
    requires ExecFree(tr)
    ensures Lawful(tr, job.entry, hash) && ExecsDeliver(tr, ctx, job, os) && !EndsInSuccess(tr)
  {
  }

  lemma NotAnExec(e: Effect, ctx: Context, job: Job, os: Os)
    requires !e.Exec?
    ensures ExecDelivers(e, ctx, job, os)
  {
  }

  lemma LastExecDelivers(tr: seq<Effect>, e: Effect, ctx: Context, job: Job, os: Os)
    requires ExecFree(tr) && ExecDelivers(e, ctx, job, os)
    ensures ExecsDeliver(tr + [e], ctx, job, os)
  {
    hide ExecDelivers;
    forall i | 0 <= i < |tr| ensures ExecDelivers(tr[i], ctx, job, os) { NotAnExec(tr[i], ctx, job, os); }
  }

  /** `executeExistingCache` */
  method ExecuteExistingCache(ctx: Context, job: Job, os: Os, hash: Hash)
    returns (hit: bool, err: Option<Error>, tr: seq<Effect>)
    requires CacheContract(os, job.entry, hash)
    ensures Lawful(tr, job.entry, hash)
    ensures ExecsDeliver(tr, ctx, job, os)
    ensures forall i :: 0 <= i < |tr| ==> !ChangesCache(tr[i]) && !TouchesMemfd(tr[i])
    ensures hit <==> WarmHit(job, os)
    ensures AllAnswered(tr, os)
    ensures !hit ==> NoExec(tr, ViaCache)
    ensures err.None? && hit <==> WarmHit(job, os) && os.warmExec
    ensures err.Some? && ErrExecve !in err.value <==> UnsafeEntry(job, os)
    ensures err.Some? ==> err.value == if hit then {ErrExecve} else {ErrCacheWrite}
    ensures EndsInSuccess(tr) <==> hit && err.None?
  {
    hide Lawful, EndsInSuccess, ExecsDeliver, Environ.Delivers, Verified;
    ExecFreeIsLawful([], ctx, job, os, hash);
    ExecFreeIsLawful([FindCacheDir], ctx, job, os, hash);
    ExecFreeIsLawful([FindCacheDir, InspectEntry], ctx, job, os, hash);
    if job.entry.sha != "" && !IsHexDigest(job.entry.sha) {
      return false, None, [];
    }
    tr := [FindCacheDir];
    if !os.existingDir {
      return false, None, tr;
    }
    match os.warm
    case Refused => return false, Some({ErrCacheWrite}), [FindCacheDir, InspectEntry];
    case Miss => return false, None, [FindCacheDir, InspectEntry];
    case Hit(fd, node) =>
      var env := Environ.BuildAutoTunedEnviron(ctx.base, LaunchVia(ctx, job, ViaCache), os.warmSeen, ctx.settings);
      ExecAfterVerification(tr, fd, node, os.warmExec, env, job.entry, hash);
      LastExecDelivers(tr + [OpenVerified(fd, node)], Exec(fd, ViaCache, os.warmExec, env), ctx, job, os);
      tr := tr + [OpenVerified(fd, node)] + [Exec(fd, ViaCache, os.warmExec, env)];
      return true, if os.warmExec then None else Some({ErrExecve}), tr;
  }

  ghost predicate Extracts(job: Job, os: Os, hash: Hash) {
    Extractable(os.stream, job.entry.size, job.entry.sha, os.accept, hash)
  }

  /** What an extraction error says of its cause: a bad digest, wrong bytes, a wrong length, or a failed stream. */
  ghost predicate TellsWhy(err: Error, job: Job, os: Os, hash: Hash) {
    var payload, size := Concat(os.stream.chunks), job.entry.size;
    && (ErrInvalidChecksum in err <==> !IsHexDigest(job.entry.sha))
    && (IsHexDigest(job.entry.sha) ==>
          && (ErrPayloadCorrupted in err <==>
                Intact(os.stream, os.accept) && |payload| == size && hash(payload) != job.entry.sha)
          && (Intact(os.stream, os.accept) && |payload| != size ==> ErrSizeMismatch in err)
          && (!Intact(os.stream, os.accept) && |payload| <= size ==> ErrDecompressionFailed in err))
  }

  lemma CauseIsTold(e: ExtractError, job: Job, os: Os, hash: Hash)
    requires 0 < job.entry.size <= MAX_PAYLOAD_SIZE
    requires e == InvalidChecksum <==> !IsHexDigest(job.entry.sha)
    requires IsHexDigest(job.entry.sha) ==>
      var payload, size := Concat(os.stream.chunks), job.entry.size;
      && (e == PayloadCorrupted <==>
            Intact(os.stream, os.accept) && |payload| == size && hash(payload) != job.entry.sha)
      && (Intact(os.stream, os.accept) && |payload| != size ==> e == SizeMismatch)
      && (!Intact(os.stream, os.accept) && |payload| <= size ==> e == DecompressionFailed)
    ensures TellsWhy({ErrMemfdExtract, ExtractSentinel(e)}, job, os, hash)
  {
    hide IsHexDigest, Intact, Concat;
  }

  /** The memory-file failures that a materialized cache entry may get around: create, seal, exec. */
  ghost predicate EligibleForCache(job: Job, os: Os, hash: Hash) {
    && WithinBudget(job, os.ceiling)
    && (os.memfd.None? || (Extracts(job, os, hash) && !(os.seal && os.memfdExec)))
  }

  /** Create, fill, seal, execute: a lawful trace when the filled content is the verified payload. */
  lemma MemfdTraceIsLawful(fd: int, content: Bytes, ok: bool, env: seq<string>, entry: Entry, hash: Hash)
    requires |content| == entry.size && hash(content) == entry.sha
    ensures var tr := [CreateMemfd(fd), FillMemfd(fd, content), SealMemfd(fd), Exec(fd, ViaMemfd, ok, env)];
      && Lawful(tr, entry, hash) && (EndsInSuccess(tr) <==> ok)
      && forall i :: 0 <= i < |tr| ==> !TouchesCache(tr[i])
  {
  }

  /** `executeViaMemfd` */
  method ExecuteViaMemfd(ctx: Context, job: Job, os: Os, hash: Hash) returns (err: Option<Error>, tr: seq<Effect>)
    requires ValidAcceptance(os.accept)
    ensures Lawful(tr, job.entry, hash)
    ensures ExecsDeliver(tr, ctx, job, os)
    ensures forall i :: 0 <= i < |tr| ==> !TouchesCache(tr[i])
    ensures AllAnswered(tr, os)
    ensures err.None? <==> EndsInSuccess(tr)
    ensures err.None? <==>
      WithinBudget(job, os.ceiling) && os.memfd.Some? && Extracts(job, os, hash) && os.seal && os.memfdExec
    ensures err.Some? ==> (!NotHelpedByCache(err.value) <==> EligibleForCache(job, os, hash))
    ensures (exists i :: 0 <= i < |tr| && tr[i].CreateMemfd?) <==> WithinBudget(job, os.ceiling) && os.memfd.Some?
    ensures WithinBudget(job, os.ceiling) ==>
      && (os.memfd.None? ==> err == Some({ErrMemfdCreate}))
      && (os.memfd.Some? && !Extracts(job, os, hash) ==>
            err.Some? && ErrMemfdExtract in err.value && TellsWhy(err.value, job, os, hash))
      && (os.memfd.Some? && Extracts(job, os, hash) && !os.seal ==> err == Some({ErrMemfdSealingFailed}))
      && (os.memfd.Some? && Extracts(job, os, hash) && os.seal && !os.memfdExec ==> err == Some({ErrExecve}))
  {
    hide TellsWhy;
    hide Lawful, EndsInSuccess, ExecsDeliver, Extractable, WithinBudget, Environ.Delivers, NotHelpedByCache;
    ExecFreeIsLawful([], ctx, job, os, hash);
    FallbackClasses();
    var budget := CheckExtractionBudget(job, os.ceiling);
    if budget.Some? {
      return budget, [];
    }
    var env := Environ.BuildAutoTunedEnviron(ctx.base, LaunchVia(ctx, job, ViaMemfd), os.memfdSeen, ctx.settings);
    if os.memfd.None? {
      return Some({ErrMemfdCreate}), [];
    }
    var fd := os.memfd.value;
    var e, content := ExtractToMemfd(os.stream, job.entry.size, job.entry.sha, os.presized, os.accept, hash);
    if e.Some? {
      tr := [CreateMemfd(fd)];
      assert tr[0] == CreateMemfd(fd);
      ExecFreeIsLawful(tr, ctx, job, os, hash);
      assert 0 < job.entry.size <= GiB by { SizeWithin(job, os.ceiling); }
      CauseIsTold(e.value, job, os, hash);
      return Some({ErrMemfdExtract, ExtractSentinel(e.value)}), tr;
    }
    tr := [CreateMemfd(fd), FillMemfd(fd, content)];
    assert tr[0] == CreateMemfd(fd);
    if !os.seal {
      ExecFreeIsLawful(tr, ctx, job, os, hash);
      return Some({ErrMemfdSealingFailed}), tr;
    }
    MemfdTraceIsLawful(fd, content, os.memfdExec, env, job.entry, hash);
    LastExecDelivers(tr + [SealMemfd(fd)], Exec(fd, ViaMemfd, os.memfdExec, env), ctx, job, os);
    tr := tr + [SealMemfd(fd)] + [Exec(fd, ViaMemfd, os.memfdExec, env)];
    assert tr == [CreateMemfd(fd), FillMemfd(fd, content), SealMemfd(fd), Exec(fd, ViaMemfd, os.memfdExec, env)];
    assert tr[0] == CreateMemfd(fd);
    return if os.memfdExec then None else Some({ErrExecve}), tr;
  }

  /** When the materializing route ends up with a verified descriptor. */
  predicate ColdEntry(job: Job, os: Os) {
    && os.cacheDir.DirReady? && IsHexDigest(job.entry.sha)
    && (os.cold.Hit? || (os.cold.Miss? && WithinBudget(job, os.coldCeiling) && os.materialized.Ok?))
  }

  /** When that route publishes a new entry. */
  predicate Publishes(job: Job, os: Os) {
    os.cacheDir.DirReady? && IsHexDigest(job.entry.sha) && os.cold.Miss? && WithinBudget(job, os.coldCeiling)
  }

  /** The part of `executeViaCache` up to a verified descriptor: a hit, or a materialized entry. */
  method AcquireEntry(job: Job, os: Os, base: Error, hash: Hash)
    returns (err: Option<Error>, fd: int, node: Inode, tr: seq<Effect>)
    requires CacheContract(os, job.entry, hash)
    ensures |tr| > 0 && tr[0] == MakeCacheDir
    ensures ExecFree(tr) && forall i :: 0 <= i < |tr| ==> !TouchesMemfd(tr[i])
    ensures err.None? ==> Verified(node, job.entry, hash)
    ensures err.None? ==> if os.cold.Hit? then os.cold == Hit(fd, node) else os.materialized == Ok((fd, node))
    ensures err.None? <==> ColdEntry(job, os)
    ensures AllAnswered(tr, os) && (RemovingLookup in tr <==> os.cacheDir.DirReady? && IsHexDigest(job.entry.sha))
    ensures Materialize in tr <==> Publishes(job, os)
    ensures os.cacheDir.DirError? ==> err == Some(base + {ErrCacheInit})
    ensures os.cacheDir.DirInvalid? ==> err == Some({ErrCacheInit})
    ensures os.cacheDir.DirReady? && (!IsHexDigest(job.entry.sha) || os.cold.Refused?) ==>
      err == Some(base + {ErrCacheWrite})
    ensures err.Some? && os.cacheDir.DirReady? && IsHexDigest(job.entry.sha) && os.cold.Miss? && !Publishes(job, os) ==>
      ErrCacheExtract in err.value && NotHelpedByCache(err.value)
    ensures err.Some? && Publishes(job, os) ==>
      && os.materialized.Err?
      && var e := os.materialized.error;
         var written := ErrCacheWrite in e || !(ErrCacheExtract in e || IntegrityError(e));
         err.value == base + e + {if written then ErrCacheWrite else ErrCacheExtract}
  {
    fd, node, tr := -1, Inode(Special, false, true, false, []), [MakeCacheDir];
    if os.cacheDir.DirError? {
      err := Some(base + {ErrCacheInit});
      return;
    }
    if os.cacheDir.DirInvalid? {
      err := Some({ErrCacheInit});
      return;
    }
    if !IsHexDigest(job.entry.sha) {
      err := Some(base + {ErrCacheWrite});
      return;
    }
    tr := tr + [RemovingLookup];
    match os.cold
    case Refused =>
      err := Some(base + {ErrCacheWrite});
    case Hit(f, n) =>
      err, fd, node := None, f, n;
    case Miss =>
      var budget := CheckExtractionBudget(job, os.coldCeiling);
      if budget.Some? {
        err := Some(budget.value + {ErrCacheExtract});
        return;
      }
      tr := tr + [Materialize];
      if os.materialized.Err? {
        var e := os.materialized.error;
        var extraction := ErrCacheWrite !in e && (ErrCacheExtract in e || IntegrityError(e));
        var stage := if extraction then ErrCacheExtract else ErrCacheWrite;
        err := Some(base + e + {stage});
        return;
      }
      err, fd, node := None, os.materialized.value.0, os.materialized.value.1;
  }

  /** `executeViaCache` */
  method ExecuteViaCache(ctx: Context, job: Job, os: Os, primary: Option<Error>, hash: Hash)
    returns (err: Option<Error>, tr: seq<Effect>)
    requires CacheContract(os, job.entry, hash)
    ensures Lawful(tr, job.entry, hash)
    ensures ExecsDeliver(tr, ctx, job, os)
    ensures |tr| > 0 && tr[0] == MakeCacheDir
    ensures forall i :: 0 <= i < |tr| ==> !TouchesMemfd(tr[i])
    ensures AllAnswered(tr, os)
    ensures err.None? <==> EndsInSuccess(tr)
    ensures err.None? <==> ColdEntry(job, os) && os.coldExec
    ensures Materialize in tr <==> Publishes(job, os)
    ensures err.Some? && ColdEntry(job, os) ==> ErrExecve in err.value && (primary.Some? ==> primary.value <= err.value)
  {
    hide Lawful, EndsInSuccess, ExecsDeliver, Environ.Delivers, Verified, WithinBudget;
    var base := if primary.Some? then primary.value else {};
    var env := Environ.BuildAutoTunedEnviron(ctx.base, LaunchVia(ctx, job, ViaCache), os.coldSeen, ctx.settings);
    var fd, node;
    err, fd, node, tr := AcquireEntry(job, os, base, hash);
    if err.Some? {
      ExecFreeIsLawful(tr, ctx, job, os, hash);
      return;
    }
    ExecAfterVerification(tr, fd, node, os.coldExec, env, job.entry, hash);
    LastExecDelivers(tr + [OpenVerified(fd, node)], Exec(fd, ViaCache, os.coldExec, env), ctx, job, os);
    tr := tr + [OpenVerified(fd, node)] + [Exec(fd, ViaCache, os.coldExec, env)];
    err := if os.coldExec then None else Some(base + {ErrExecve});
  }

  // ---------------------------------------------------------------- dispatch

  function LowerASCII(s: string): string {
    seq(|s|, i requires 0 <= i < |s| => if 'A' <= s[i] <= 'Z' then s[i] - 'A' + 'a' else s[i])
  }

  /** `resolveRequestedExecMode`: case-insensitive, legacy variable second, anything unknown is auto. */
  function RequestedMode(execMode: string, dispatchMode: string): Mode {
    var requested := LowerASCII(if execMode == "" then dispatchMode else execMode);
    if requested == "cache" then ModeCache else if requested == "memfd" then ModeMemfd else Auto
  }

  /** The same letter, small or capital. */
  predicate SameLetter(c: char, small: char) {
    c == small || ('A' <= c <= 'Z' && c as int + 32 == small as int)
  }

  /** `strings.EqualFold` with a small-letter word; none of the letters of the mode names folds outside ASCII. */
  predicate EqualFold(s: string, word: string) {
    |s| == |word| && forall i :: 0 <= i < |s| ==> SameLetter(s[i], word[i])
  }

  /** The mode that a text asks for. */
  function ModeNamed(text: string): Mode {
    if EqualFold(text, "cache") then ModeCache else if EqualFold(text, "memfd") then ModeMemfd else Auto
  }

  lemma LoweredIsFolded(s: string, word: string)
    requires forall i :: 0 <= i < |word| ==> 'a' <= word[i] <= 'z'
    ensures LowerASCII(s) == word <==> EqualFold(s, word)
  {
    assert LowerASCII(s) == word <==> |s| == |word| && forall i :: 0 <= i < |s| ==> LowerASCII(s)[i] == word[i];
  }

  lemma NamedExplicitly(text: string)
    ensures EqualFold(text, "memfd") <==> ModeNamed(text) == ModeMemfd
    ensures EqualFold(text, "cache") <==> ModeNamed(text) == ModeCache
  {
    if EqualFold(text, "memfd") { assert text[0] != 'c' && text[0] != 'C'; }
  }

  /** The first nonempty of the two variables decides. */
  lemma RequestedIsNamed(execMode: string, dispatchMode: string)
    ensures RequestedMode(execMode, dispatchMode) == ModeNamed(if execMode != "" then execMode else dispatchMode)
  {
    var wanted := if execMode != "" then execMode else dispatchMode;
    LoweredIsFolded(wanted, "cache");
    LoweredIsFolded(wanted, "memfd");
    hide LowerASCII, EqualFold;
  }

  /** Auto mode materializes exactly after a miss and an eligible memory-file failure. */
  ghost predicate Materializes(mode: Mode, job: Job, os: Os, hash: Hash) {
    match mode
    case ModeCache => true
    case ModeMemfd => false
    case Auto => !WarmHit(job, os) && !UnsafeEntry(job, os) && EligibleForCache(job, os, hash)
  }

  ghost predicate MemfdSucceeds(job: Job, os: Os, hash: Hash) {
    WithinBudget(job, os.ceiling) && os.memfd.Some? && Extracts(job, os, hash) && os.seal && os.memfdExec
  }

  /** Exactly when dispatch ends in a successful exec. */
  ghost predicate Succeeds(mode: Mode, job: Job, os: Os, hash: Hash) {
    match mode
    case ModeCache => ColdEntry(job, os) && os.coldExec
    case ModeMemfd => MemfdSucceeds(job, os, hash)
    case Auto =>
      || (WarmHit(job, os) && os.warmExec)
      || (!UnsafeEntry(job, os) && MemfdSucceeds(job, os, hash))
      || (Materializes(Auto, job, os, hash) && ColdEntry(job, os) && os.coldExec)
  }

  lemma VerifiedConcat(a: seq<Effect>, b: seq<Effect>, entry: Entry, hash: Hash)
    requires ExecsAreVerified(a, entry, hash) && ExecsAreVerified(b, entry, hash)
    ensures ExecsAreVerified(a + b, entry, hash)
  {
  }

  lemma OneExecConcat(a: seq<Effect>, b: seq<Effect>, route: Route)
    requires AtMostOneExec(a, route) && AtMostOneExec(b, route)
    requires NoExec(a, route) || NoExec(b, route)
    ensures AtMostOneExec(a + b, route)
  {
  }

  /** A failed attempt followed by an attempt on a route not yet tried. */
  lemma LawfulConcat(a: seq<Effect>, b: seq<Effect>, entry: Entry, hash: Hash)
    requires Lawful(a, entry, hash) && Lawful(b, entry, hash)
    requires NoExec(a, ViaCache) || NoExec(b, ViaCache)
    requires NoExec(a, ViaMemfd) || NoExec(b, ViaMemfd)
    requires !EndsInSuccess(a)
    ensures Lawful(a + b, entry, hash)
    ensures EndsInSuccess(a + b) <==> EndsInSuccess(b)
  {
    VerifiedConcat(a, b, entry, hash);
    OneExecConcat(a, b, ViaCache);
    OneExecConcat(a, b, ViaMemfd);
    assert b == [] ==> a + b == a;
  }

  lemma DeliverConcat(a: seq<Effect>, b: seq<Effect>, ctx: Context, job: Job, os: Os)
    requires ExecsDeliver(a, ctx, job, os) && ExecsDeliver(b, ctx, job, os)
    ensures ExecsDeliver(a + b, ctx, job, os)
  {
    hide ExecDelivers;
  }

  method ExecuteAuto(ctx: Context, job: Job, os: Os, hash: Hash) returns (err: Option<Error>, tr: seq<Effect>)
    requires CacheContract(os, job.entry, hash)
    ensures Lawful(tr, job.entry, hash)
    ensures ExecsDeliver(tr, ctx, job, os) && AllAnswered(tr, os)
    ensures (exists i :: 0 <= i < |tr| && ChangesCache(tr[i])) <==> Materializes(Auto, job, os, hash)
    ensures err.None? <==> EndsInSuccess(tr)
    ensures err.None? <==> Succeeds(Auto, job, os, hash)
    ensures Materialize in tr <==> Materializes(Auto, job, os, hash) && Publishes(job, os)
    ensures (exists i :: 0 <= i < |tr| && tr[i].CreateMemfd?) ==> WithinBudget(job, os.ceiling)
    ensures UnsafeEntry(job, os) ==> err == Some({ErrCacheWrite})
    ensures WarmHit(job, os) && err.Some? ==> ErrExecve in err.value
    ensures !WarmHit(job, os) && !UnsafeEntry(job, os) && !EligibleForCache(job, os, hash) && err.Some? ==>
      NotHelpedByCache(err.value)
  {
    hide Lawful, EndsInSuccess, ExecsDeliver, AllAnswered, Extractable, WithinBudget, Verified;
    var hit, cacheErr, tr1 := ExecuteExistingCache(ctx, job, os, hash);
    tr := tr1;
    if hit && cacheErr.None? {
      return None, tr;
    }
    if cacheErr.Some? && ErrExecve !in cacheErr.value {
      return cacheErr, tr;
    }
    var memErr, tr2 := ExecuteViaMemfd(ctx, job, os, hash);
    LawfulConcat(tr, tr2, job.entry, hash);
    DeliverConcat(tr, tr2, ctx, job, os);
    AnsweredConcat(tr, tr2, os);
    tr := tr + tr2;
    if memErr.None? {
      return None, tr;
    }
    if hit {
      return Some(memErr.value + cacheErr.value + {ErrExecve}), tr;
    }
    if NotHelpedByCache(memErr.value) {
      return memErr, tr;
    }
    var tr3;
    err, tr3 := ExecuteViaCache(ctx, job, os, memErr, hash);
    LawfulConcat(tr, tr3, job.entry, hash);
    DeliverConcat(tr, tr3, ctx, job, os);
    AnsweredConcat(tr, tr3, os);
    assert (tr + tr3)[|tr|] == MakeCacheDir;
    tr := tr + tr3;
  }

  /**
   `executeVariant`. Over all answers of the operating system: at most one exec per route, each on the very
   descriptor whose full contents were verified; explicit modes stay on their side; the cache is changed
   exactly when `Materializes` says so; nothing is extracted or published beyond the memory budget; and the
   call succeeds exactly when its last effect is a successful exec.
   */
  method ExecuteVariant(execMode: string, dispatchMode: string, ctx: Context, job: Job, os: Os, hash: Hash)
    returns (err: Option<Error>, tr: seq<Effect>)
    requires CacheAnswers(os, job.entry, hash)
    ensures Lawful(tr, job.entry, hash)
    ensures ExecsDeliver(tr, ctx, job, os) && AllAnswered(tr, os)
    ensures var text := if execMode != "" then execMode else dispatchMode;
      && (EqualFold(text, "memfd") ==> forall i :: 0 <= i < |tr| ==> !TouchesCache(tr[i]))
      && (EqualFold(text, "cache") ==> forall i :: 0 <= i < |tr| ==> !TouchesMemfd(tr[i]))
    ensures var mode := ModeNamed(if execMode != "" then execMode else dispatchMode);
      && ((exists i :: 0 <= i < |tr| && ChangesCache(tr[i])) <==> Materializes(mode, job, os, hash))
      && (Materialize in tr <==> Materializes(mode, job, os, hash) && Publishes(job, os))
      && (err.None? <==> Succeeds(mode, job, os, hash))
    ensures (exists i :: 0 <= i < |tr| && tr[i].CreateMemfd?) ==> WithinBudget(job, os.ceiling)
    ensures err.None? <==> EndsInSuccess(tr)
  {
    var mode := RequestedMode(execMode, dispatchMode);
    RequestedIsNamed(execMode, dispatchMode);
    NamedExplicitly(if execMode != "" then execMode else dispatchMode);
    CacheAnswersAreVerified(os, job.entry, hash);
    hide CacheAnswers, EqualFold, ModeNamed, RequestedMode, Lawful, EndsInSuccess, ExecsDeliver, AllAnswered,
      Extractable, WithinBudget;
    if mode.ModeCache? {
      err, tr := ExecuteViaCache(ctx, job, os, None, hash);
      return;
    }
    if mode.ModeMemfd? {
      err, tr := ExecuteViaMemfd(ctx, job, os, hash);
      return;
    }
    err, tr := ExecuteAuto(ctx, job, os, hash);
  }

  /**
   Inspection predicts dispatch: if the limits do not change between readings, the report for a mode gives, key by key,
   what every exec on that mode's route passes.
   */
  lemma InspectionPredictsExecs(tr: seq<Effect>, ctx: Context, job: Job, os: Os, i: nat,
                                report: map<string, Environ.Reported>)
    requires ExecsDeliver(tr, ctx, job, os) && os.warmSeen == os.memfdSeen == os.coldSeen
    requires i < |tr| && tr[i].Exec?
    requires Environ.Predicts(report, ctx.base, job.entry.size, os.memfdSeen, LaunchVia(ctx, job, tr[i].route).mode,
                              ctx.settings)
    ensures forall k :: Environ.IsRuntimeKey(k) ==>
      k in report && report[k] == Environ.Report(Environ.Lookup(tr[i].env, k), Environ.Lookup(ctx.base, k).Some?)
  {
    hide Environ.Predicts, Environ.Delivers, Environ.Lookup, Environ.IsRuntimeKey;
    assert ExecDelivers(tr[i], ctx, job, os);
    Environ.PredictionIsDelivered(tr[i].env, report, ctx.base, LaunchVia(ctx, job, tr[i].route), os.memfdSeen,
                                  ctx.settings);
  }

  /** Every exec tells its payload which route it came by and which verified variant it is. */
  lemma ExecsTellTheTruth(tr: seq<Effect>, ctx: Context, job: Job, os: Os, i: nat)
    requires ExecsDeliver(tr, ctx, job, os) && i < |tr| && tr[i].Exec?
    ensures var env := tr[i].env; var route := if tr[i].route.ViaMemfd? then "memfd" else "cache";
      && Environ.Lookup(env, "MICROFAT_EXEC_MODE") == Environ.Lookup(env, "MICROFAT_DISPATCH_MODE") == Some(route)
      && Environ.Lookup(env, "MICROFAT_SELECTED_SHA256") == Some(job.entry.sha)
      && Environ.Lookup(env, "MICROFAT_SELECTED_SIZE") == Some(Decimal.FormatInt(job.entry.size))
      && Environ.Lookup(env, "MICROFAT_SELECTED_VARIANT") == Some(ctx.launch.level)
      && Environ.Lookup(env, "MICROFAT_ORIGINAL_EXE") == ctx.launch.exe
  {
    assert ExecDelivers(tr[i], ctx, job, os);
    var x := LaunchVia(ctx, job, tr[i].route);
    var seen :| Environ.Delivers(tr[i].env, ctx.base, x, seen, ctx.settings);
    Environ.LaunchIsDelivered(tr[i].env, ctx.base, x, seen, ctx.settings);
    hide Environ.Delivers, Environ.Lookup, Decimal.FormatInt;
  }
}
