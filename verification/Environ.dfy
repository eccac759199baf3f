/**
 The environment that the launcher passes to the payload, and the report of it that inspection prints.

 Dispatch copies the inherited environment into a slice, drops the launcher's own variables, keeps an index
 from key to position in step with the slice, and upserts its metadata and the tuning plan. Inspection takes
 a shorter way: it indexes the inherited slice as it is and applies the same plan.
 */
module Environ {
  import opened Basics
  import opened Decimal
  import opened Tuning

  // ---------------------------------------------------------------- entries

  /** Position of the first '=' at or after `i`, or the length. */
  function FirstEquals(e: string, i: nat): (r: nat)
    requires i <= |e|
    ensures i <= r <= |e|
    ensures forall k :: i <= k < r ==> e[k] != '='
    ensures r < |e| ==> e[r] == '='
    decreases |e| - i
  {
    if i == |e| || e[i] == '=' then i else FirstEquals(e, i + 1)
  }

  /** The key of a well-formed entry; an entry without '=' or with an empty key has none. */
  function Key(e: string): Option<string> {
    var i := FirstEquals(e, 0);
    if i == |e| || i == 0 then None else Some(e[..i])
  }

  function Val(e: string): string {
    var i := FirstEquals(e, 0);
    if i == |e| then "" else e[i + 1..]
  }

  predicate GoodKey(key: string) { key != "" && '=' !in key }

  function Entry(key: string, val: string): string { key + "=" + val }

  lemma EntryParts(key: string, val: string)
    requires GoodKey(key)
    ensures Key(Entry(key, val)) == Some(key) && Val(Entry(key, val)) == val
  {
    var e := Entry(key, val);
    assert e[|key|] == '=';
    assert forall k :: 0 <= k < |key| ==> e[k] == key[k];
    assert FirstEquals(e, 0) == |key|;
    assert e[..|key|] == key && e[|key| + 1..] == val;
  }

  /** An entry has a key exactly when it is that key, nonempty and without '=', then '=' and its value. */
  lemma KeyExact(e: string, key: string, val: string)
    ensures Key(e) == Some(key) && Val(e) == val <==> GoodKey(key) && e == key + "=" + val
  {
    if GoodKey(key) { EntryParts(key, val); }
    if Key(e) == Some(key) && Val(e) == val {
      var i := FirstEquals(e, 0);
      assert forall c :: c in e[..i] ==> c != '=';
      assert e == e[..i] + "=" + e[i + 1..];
    }
  }

  // ---------------------------------------------------------------- environments as values

  /** The last entry with key `k`, or -1. */
  function LastIndex(env: seq<string>, k: string): (i: int)
    ensures -1 <= i < |env|
    ensures i >= 0 ==> Key(env[i]) == Some(k)
    ensures forall j :: i < j < |env| ==> Key(env[j]) != Some(k)
  {
    if env == [] then -1
    else if Key(env[|env| - 1]) == Some(k) then |env| - 1
    else LastIndex(env[..|env| - 1], k)
  }

  /** The value a reader sees for `k`: the last one wins. */
  function Lookup(env: seq<string>, k: string): Option<string> {
    var i := LastIndex(env, k);
    if i < 0 then None else Some(Val(env[i]))
  }

  predicate UniqueKeys(env: seq<string>) {
    forall i, j :: 0 <= i < j < |env| && Key(env[i]).Some? ==> Key(env[i]) != Key(env[j])
  }

  function Malformed(env: seq<string>): seq<string> {
    if env == [] then []
    else Malformed(env[..|env| - 1]) + if Key(env[|env| - 1]).None? then [env[|env| - 1]] else []
  }

  /** Replace the last entry with the same key, or append. */
  function Put(env: seq<string>, e: string): seq<string>
    requires Key(e).Some?
  {
    var i := LastIndex(env, Key(e).value);
    if i >= 0 then env[i := e] else env + [e]
  }

  lemma {:induction false} LastIndexIs(env: seq<string>, k: string, i: int)
    requires -1 <= i < |env| && (i >= 0 ==> Key(env[i]) == Some(k))
    requires forall j :: i < j < |env| ==> Key(env[j]) != Some(k)
    ensures LastIndex(env, k) == i
  {
  }

  lemma PutLookup(env: seq<string>, e: string, k: string)
    requires Key(e).Some?
    ensures Lookup(Put(env, e), k) == if Key(e) == Some(k) then Some(Val(e)) else Lookup(env, k)
  {
    var i := LastIndex(env, Key(e).value);
    var env' := Put(env, e);
    var at := if i >= 0 then i else |env|;
    if Key(e) == Some(k) {
      LastIndexIs(env', k, at);
    } else {
      LastIndexIs(env', k, LastIndex(env, k));
    }
  }

  lemma PutUnique(env: seq<string>, e: string)
    requires Key(e).Some? && UniqueKeys(env)
    ensures UniqueKeys(Put(env, e))
  {
  }

  lemma {:induction false} MalformedUpdate(env: seq<string>, i: nat, e: string)
    requires i < |env| && Key(env[i]).Some? && Key(e).Some?
    ensures Malformed(env[i := e]) == Malformed(env)
  {
    var n := |env| - 1;
    if i < n {
      assert env[i := e][..n] == env[..n][i := e];
      MalformedUpdate(env[..n], i, e);
    } else {
      assert env[i := e][..n] == env[..n];
    }
  }

  lemma PutMalformed(env: seq<string>, e: string)
    requires Key(e).Some?
    ensures Malformed(Put(env, e)) == Malformed(env)
  {
    var i := LastIndex(env, Key(e).value);
    if i >= 0 {
      MalformedUpdate(env, i, e);
    } else {
      assert (env + [e])[..|env|] == env;
    }
  }

  // ---------------------------------------------------------------- the launcher's own variables

  const LAUNCH_KEYS: set<string> := {
    "MICROFAT_ORIGINAL_EXE", "MICROFAT_SELECTED_VARIANT", "MICROFAT_SELECTED_SHA256", "MICROFAT_SELECTED_SIZE",
    "MICROFAT_EXEC_MODE", "MICROFAT_DISPATCH_MODE"
  }

  const HOST_KEYS: set<string> := {
    "MICROFAT_HOST_ARCH", "MICROFAT_HOST_LEVEL", "MICROFAT_POLICY_APPLIED", "MICROFAT_OVERRIDE_REASON"
  }

  const CGROUP_KEYS: set<string> := {
    "MICROFAT_CGROUP_VERSION", "MICROFAT_CGROUP_LIMIT_BYTES", "MICROFAT_CGROUP_HIGH_BYTES",
    "MICROFAT_CGROUP_EFFECTIVE_LIMIT_BYTES", "MICROFAT_CGROUP_CPUS"
  }

  const PLAN_KEYS: set<string> := {
    "MICROFAT_CGROUP_GOMEMLIMIT", "MICROFAT_CGROUP_GOMAXPROCS", "MICROFAT_CGROUP_GOGC", "MICROFAT_CGROUP_GC_PROFILE",
    "MICROFAT_CGROUP_GOGC_SKIPPED_REASON"
  }

  /** `isMicrofatInternalEnv` */
  predicate IsInternal(k: string) { k in LAUNCH_KEYS || k in HOST_KEYS || k in CGROUP_KEYS || k in PLAN_KEYS }

  predicate IsRuntimeKey(k: string) { k == "GOMEMLIMIT" || k == "GOMAXPROCS" || k == "GOGC" }

  lemma LaunchKeysAreGood(k: string)
    requires k in LAUNCH_KEYS
    ensures GoodKey(k) && "MICROFAT_" <= k
  {
  }

  lemma HostKeysAreGood(k: string)
    requires k in HOST_KEYS
    ensures GoodKey(k) && "MICROFAT_" <= k
  {
  }

  lemma CgroupKeysAreGood(k: string)
    requires k in CGROUP_KEYS
    ensures GoodKey(k) && "MICROFAT_" <= k
  {
  }

  lemma PlanKeysAreGood(k: string)
    requires k in PLAN_KEYS
    ensures GoodKey(k) && "MICROFAT_" <= k
  {
  }

  lemma KeysAreGood(k: string)
    requires IsInternal(k) || IsRuntimeKey(k)
    ensures GoodKey(k) && (IsInternal(k) <==> !IsRuntimeKey(k)) && (IsInternal(k) ==> "MICROFAT_" <= k)
  {
    if k in LAUNCH_KEYS {
      LaunchKeysAreGood(k);
    } else if k in HOST_KEYS {
      HostKeysAreGood(k);
    } else if k in CGROUP_KEYS {
      CgroupKeysAreGood(k);
    } else if k in PLAN_KEYS {
      PlanKeysAreGood(k);
    } else {
      assert IsRuntimeKey(k);
    }
  }

  /** The copy of the inherited environment that dispatch starts from. */
  function Copied(base: seq<string>): seq<string> {
    if base == [] then []
    else
      var env, e := Copied(base[..|base| - 1]), base[|base| - 1];
      if Key(e).None? then env + [e]
      else if IsInternal(Key(e).value) then env
      else Put(env, e)
  }

  lemma AppendLookup(env: seq<string>, e: string, k: string)
    ensures Lookup(env + [e], k) == if Key(e) == Some(k) then Some(Val(e)) else Lookup(env, k)
  {
  }

  lemma AppendMalformed(env: seq<string>, e: string)
    ensures Malformed(env + [e]) == Malformed(env) + if Key(e).None? then [e] else []
    ensures Key(e).None? && UniqueKeys(env) ==> UniqueKeys(env + [e])
  {
  }

  lemma CopiedStep(env: seq<string>, init: seq<string>, e: string)
    requires UniqueKeys(env) && Malformed(env) == Malformed(init)
    requires forall k :: Lookup(env, k) == if IsInternal(k) then None else Lookup(init, k)
    ensures var r := if Key(e).None? then env + [e] else if IsInternal(Key(e).value) then env else Put(env, e);
      && UniqueKeys(r) && Malformed(r) == Malformed(init + [e])
      && forall k :: Lookup(r, k) == if IsInternal(k) then None else Lookup(init + [e], k)
  {
    hide Key, Val, Lookup, Malformed, UniqueKeys, Put, IsInternal;
    AppendMalformed(env, e);
    AppendMalformed(init, e);
    if Key(e).Some? {
      PutUnique(env, e);
      PutMalformed(env, e);
    }
    var r := if Key(e).None? then env + [e] else if IsInternal(Key(e).value) then env else Put(env, e);
    forall k ensures Lookup(r, k) == if IsInternal(k) then None else Lookup(init + [e], k) {
      AppendLookup(env, e, k);
      AppendLookup(init, e, k);
      if Key(e).Some? { PutLookup(env, e, k); }
    }
  }

  /** Malformed entries stay, launcher variables go, and of every other key the last value stays, once. */
  lemma {:induction false} CopiedIsClean(base: seq<string>)
    ensures UniqueKeys(Copied(base))
    ensures Malformed(Copied(base)) == Malformed(base)
    ensures forall k :: Lookup(Copied(base), k) == if IsInternal(k) then None else Lookup(base, k)
  {
    hide Key, Val, Put, IsInternal;
    if base != [] {
      var init, e := base[..|base| - 1], base[|base| - 1];
      CopiedIsClean(init);
      hide Lookup, Malformed, UniqueKeys;
      assert base == init + [e];
      CopiedStep(Copied(init), init, e);
    }
  }

  // ---------------------------------------------------------------- metadata and plan, as values

  type Pairs = seq<(string, string)>

  predicate AllInternal(pairs: Pairs) {
    forall i :: 0 <= i < |pairs| ==> IsInternal(pairs[i].0)
  }

  function PutAll(env: seq<string>, pairs: Pairs): seq<string>
    requires AllInternal(pairs)
  {
    if pairs == [] then env
    else
      KeysAreGood(pairs[|pairs| - 1].0);
      EntryParts(pairs[|pairs| - 1].0, pairs[|pairs| - 1].1);
      Put(PutAll(env, pairs[..|pairs| - 1]), Entry(pairs[|pairs| - 1].0, pairs[|pairs| - 1].1))
  }

  /** The last value that the launcher gives to `k`. */
  function PairLookup(pairs: Pairs, k: string): Option<string> {
    if pairs == [] then None
    else if pairs[|pairs| - 1].0 == k then Some(pairs[|pairs| - 1].1)
    else PairLookup(pairs[..|pairs| - 1], k)
  }

  lemma {:induction false} PutAllLookup(env: seq<string>, pairs: Pairs, k: string)
    requires AllInternal(pairs)
    ensures Lookup(PutAll(env, pairs), k) == if PairLookup(pairs, k).Some? then PairLookup(pairs, k) else Lookup(env, k)
    ensures !IsInternal(k) ==> Lookup(PutAll(env, pairs), k) == Lookup(env, k)
  {
    if pairs != [] {
      var init, last := pairs[..|pairs| - 1], pairs[|pairs| - 1];
      PutAllLookup(env, init, k);
      KeysAreGood(last.0);
      EntryParts(last.0, last.1);
      PutLookup(PutAll(env, init), Entry(last.0, last.1), k);
    }
  }

  lemma {:induction false} PutAllShape(env: seq<string>, pairs: Pairs)
    requires AllInternal(pairs) && UniqueKeys(env)
    ensures UniqueKeys(PutAll(env, pairs)) && Malformed(PutAll(env, pairs)) == Malformed(env)
  {
    if pairs != [] {
      var init, last := pairs[..|pairs| - 1], pairs[|pairs| - 1];
      PutAllShape(env, init);
      KeysAreGood(last.0);
      EntryParts(last.0, last.1);
      PutUnique(PutAll(env, init), Entry(last.0, last.1));
      PutMalformed(PutAll(env, init), Entry(last.0, last.1));
    }
  }

  /** What a plan offers for a runtime key. */
  function PlanValue(plan: Plan, k: string): Option<string> {
    if k == "GOMEMLIMIT" && plan.memText != "" then Some(plan.memText)
    else if k == "GOMAXPROCS" && plan.procsText != "" then Some(plan.procsText)
    else if k == "GOGC" && plan.gogcApplied && plan.gogcText != "" then Some(plan.gogcText)
    else None
  }

  /** Add a plan's value for one key unless the environment has one. */
  function Offer(env: seq<string>, plan: Plan, k: string): seq<string>
    requires GoodKey(k)
  {
    if Lookup(env, k).None? && PlanValue(plan, k).Some? then
      EntryParts(k, PlanValue(plan, k).value);
      Put(env, Entry(k, PlanValue(plan, k).value))
    else env
  }

  lemma OfferShape(env: seq<string>, plan: Plan, k: string)
    requires GoodKey(k)
    ensures UniqueKeys(env) ==> UniqueKeys(Offer(env, plan, k))
    ensures Malformed(Offer(env, plan, k)) == Malformed(env)
    ensures forall q :: Lookup(Offer(env, plan, k), q) ==
              if q == k && Lookup(env, k).None? then PlanValue(plan, k) else Lookup(env, q)
  {
    if Lookup(env, k).None? && PlanValue(plan, k).Some? {
      var e := Entry(k, PlanValue(plan, k).value);
      EntryParts(k, PlanValue(plan, k).value);
      if UniqueKeys(env) { PutUnique(env, e); }
      PutMalformed(env, e);
      forall q ensures Lookup(Put(env, e), q) == if q == k then PlanValue(plan, k) else Lookup(env, q) {
        PutLookup(env, e, q);
      }
    }
  }

  /** `applyRuntimeTuningPlan` */
  function Applied(env: seq<string>, plan: Plan): seq<string> {
    Offer(Offer(Offer(env, plan, "GOMEMLIMIT"), plan, "GOMAXPROCS"), plan, "GOGC")
  }

  lemma AppliedShape(env: seq<string>, plan: Plan)
    ensures UniqueKeys(env) ==> UniqueKeys(Applied(env, plan))
    ensures Malformed(Applied(env, plan)) == Malformed(env)
    ensures forall k :: Lookup(Applied(env, plan), k) ==
              if IsRuntimeKey(k) && Lookup(env, k).None? then PlanValue(plan, k) else Lookup(env, k)
  {
    hide Offer, PlanValue, Lookup, Malformed, UniqueKeys;
    var e1 := Offer(env, plan, "GOMEMLIMIT");
    var e2 := Offer(e1, plan, "GOMAXPROCS");
    OfferShape(env, plan, "GOMEMLIMIT");
    OfferShape(e1, plan, "GOMAXPROCS");
    OfferShape(e2, plan, "GOGC");
  }

  // ---------------------------------------------------------------- the runtime plan

  datatype Mode = Memfd | Cache

  type Page = p: nat | p > 0 witness 4096

  /** The tuning variables of the launcher's own process. */
  datatype Settings = Settings(profile: Profile, liveHeap: int, ratio: Option<real>, nativeCPU: bool, autotune: bool,
                               pageSize: Page)

  lemma PageRounding(size: int, page: int)
    requires page > 0 && size > 0
    ensures size <= (size + page - 1) / page * page < size + page
  {
  }

  lemma PagesAreWhole(pages: int, page: int)
    requires page > 0
    ensures pages * page % page == 0
  {
    var q, r := pages * page / page, pages * page % page;
    assert pages * page == q * page + r;
    Spaced(pages, q, page);
    Spaced(q, pages, page);
  }

  /** `runtimeRetainedExecutableBytes`: the memory file, rounded up to pages. */
  function RetainedBytes(size: int, mode: Mode, pageSize: Page): (r: int)
    ensures mode.Memfd? && 0 < size <= 1024 * 1024 * 1024 ==> size <= r < size + pageSize && r % pageSize == 0
    ensures mode.Cache? || size <= 0 || size > 1024 * 1024 * 1024 ==> r == 0
  {
    if mode.Cache? || size <= 0 || size > MAX_PAYLOAD_SIZE then 0
    else
      var pages := (size + pageSize - 1) / pageSize;
      PageRounding(size, pageSize);
      PagesAreWhole(pages, pageSize);
      pages * pageSize
  }

  /** The limits with the pages of the memory file counted in. */
  function Charged(l: Limits, size: int, mode: Mode, s: Settings): Limits {
    var pages := RetainedBytes(size, mode, s.pageSize);
    if pages > 0 then l.(retained := pages) else l
  }

  /** `resolveRuntimeTuning`, given the inherited `GOMEMLIMIT`. */
  function RuntimePlan(l: Limits, size: int, mode: Mode, inherited: Option<string>, s: Settings): Plan
  {
    var plan := PlanFor(Charged(l, size, mode, s), s.ratio, DEFAULT_MEMORY_RATIO, DEFAULT_MIN_HEADROOM, s.profile,
                        s.liveHeap);
    var plan' := if s.nativeCPU then plan.(procs := 0, procsText := "") else plan;
    if inherited.Some? then WithBatchGOGC(plan', RuntimeLimit(inherited.value)) else plan'
  }

  /** What the CPU policy and an inherited limit change in a plan. */
  lemma AdjustedPlan(plan: Plan, inherited: Option<string>, native: bool)
    ensures
      var plan' := if native then plan.(procs := 0, procsText := "") else plan;
      var q := if inherited.Some? then WithBatchGOGC(plan', RuntimeLimit(inherited.value)) else plan';
      && q.memBytes == plan.memBytes && q.memText == plan.memText && q.ratio == plan.ratio
      && q.procs == (if native then 0 else plan.procs) && q.procsText == (if native then "" else plan.procsText)
      && (inherited.None? || !plan.profile.BatchETL? ==>
            q.gogc == plan.gogc && q.gogcText == plan.gogcText && q.gogcApplied == plan.gogcApplied)
      && (inherited.Some? && plan.profile.BatchETL? ==>
            var off := RuntimeLimit(inherited.value) > 0;
            q.gogcApplied == off && q.gogcText == if off then "off" else "")
  {
    hide RuntimeLimit;
  }

  /**
   The plan in numbers: the greatest budget that the ceiling affords besides the pages of the memory file, and whole
   processors unless the runtime is to count them itself.
   */
  lemma RuntimePlanExact(l: Limits, size: int, mode: Mode, inherited: Option<string>, s: Settings, v: int)
    requires v > 0
    ensures
      var plan := RuntimePlan(l, size, mode, inherited, s);
      && plan.memBytes >= 0
      && (v <= plan.memBytes <==> AffordableUnder(v, Charged(l, size, mode, s), plan.ratio, 64 * 1024 * 1024))
      && (s.nativeCPU ==> plan.procs == 0) && (!s.nativeCPU && l.cpus > 0 ==> plan.procs == l.cpus)
      && (!s.nativeCPU && l.cpus <= 0 && l.cpuQuota > 0.0 ==> WholeProcessors(plan.procs, l.cpuQuota))
  {
    var l' := Charged(l, size, mode, s);
    PlanIsGreatest(l', s.ratio, 0.9, 64 * 1024 * 1024, s.profile, s.liveHeap, v);
    ProcessorsExact(l', s.ratio, 0.9, 64 * 1024 * 1024, s.profile, s.liveHeap);
    AdjustedPlan(PlanFor(l', s.ratio, 0.9, 64 * 1024 * 1024, s.profile, s.liveHeap), inherited, s.nativeCPU);
    hide PlanFor, RetainedBytes, AffordableUnder, WholeProcessors, RuntimeLimit, Print, WithBatchGOGC;
  }

  /** The bytes and processors a plan offers are its numbers, printed. */
  lemma OfferedNumbers(l: Limits, size: int, mode: Mode, inherited: Option<string>, s: Settings)
    ensures
      var plan := RuntimePlan(l, size, mode, inherited, s);
      && PlanValue(plan, "GOMEMLIMIT") == (if plan.memBytes > 0 then Some(Print(plan.memBytes) + "B")
                                           else if l.EffectiveMemoryLimit() == (0, true) then Some("0B") else None)
      && PlanValue(plan, "GOMAXPROCS") == (if plan.procs > 0 then Some(Print(plan.procs)) else None)
  {
    var l' := Charged(l, size, mode, s);
    RetainedKeepsCeiling(l, RetainedBytes(size, mode, s.pageSize));
    PlanIsGreatest(l', s.ratio, 0.9, 64 * 1024 * 1024, s.profile, s.liveHeap, 1);
    ProcessorsExact(l', s.ratio, 0.9, 64 * 1024 * 1024, s.profile, s.liveHeap);
    AdjustedPlan(PlanFor(l', s.ratio, 0.9, 64 * 1024 * 1024, s.profile, s.liveHeap), inherited, s.nativeCPU);
    hide PlanFor, RetainedBytes, AffordableUnder, WholeProcessors, RuntimeLimit, Print, WithBatchGOGC,
      Limits.EffectiveMemoryLimit;
  }

  /**
   The collector's target by profile: a fixed number, off against a finite limit (the inherited one if there is one),
   or a printed percentage.
   */
  lemma OfferedCollector(l: Limits, size: int, mode: Mode, inherited: Option<string>, s: Settings)
    ensures
      var plan := RuntimePlan(l, size, mode, inherited, s);
      var limit := if inherited.Some? then RuntimeLimit(inherited.value) else plan.memBytes;
      PlanValue(plan, "GOGC") == match s.profile {
        case Default => None
        case LatencyCritical => Some("75")
        case MemoryConstrained => Some("40")
        case BatchETL => if limit > 0 then Some("off") else None
        case Adaptive => if s.liveHeap > 0 && plan.memBytes > 0 then Some(FormatInt(plan.gogc)) else None
      }
  {
    var l' := Charged(l, size, mode, s);
    CollectorExact(l', s.ratio, 0.9, 64 * 1024 * 1024, s.profile, s.liveHeap);
    NeverOffOutsideBatch(l', s.ratio, 0.9, 64 * 1024 * 1024, s.profile, s.liveHeap);
    AdjustedPlan(PlanFor(l', s.ratio, 0.9, 64 * 1024 * 1024, s.profile, s.liveHeap), inherited, s.nativeCPU);
    hide PlanFor, RetainedBytes, NearestIn, RuntimeLimit, FormatInt, WithBatchGOGC;
  }

  /** The value of a runtime key that the payload gets: inherited, else planned, else none. */
  function Effective(base: seq<string>, k: string, limits: Option<Limits>, size: int, mode: Mode, s: Settings)
    : Option<string>
  {
    if Lookup(base, k).Some? then Lookup(base, k)
    else if limits.Some? && s.autotune then
      PlanValue(RuntimePlan(limits.value, size, mode, Lookup(base, "GOMEMLIMIT"), s), k)
    else None
  }

  /** A plan that turns periodic collection off carries a finite limit, inherited or its own. */
  lemma OffNeedsALimit(l: Limits, size: int, mode: Mode, inherited: Option<string>, s: Settings)
    ensures
      var plan := RuntimePlan(l, size, mode, inherited, s);
      PlanValue(plan, "GOGC") == Some("off") ==>
        if inherited.Some? then RuntimeLimit(inherited.value) > 0
        else 0 < plan.memBytes < MAX_INT64 && plan.memText == Print(plan.memBytes) + "B"
  {
    var l' := Charged(l, size, mode, s);
    PlanFitsCeiling(l', s.ratio, DEFAULT_MEMORY_RATIO, DEFAULT_MIN_HEADROOM, s.profile, s.liveHeap);
    NeverOffOutsideBatch(l', s.ratio, DEFAULT_MEMORY_RATIO, DEFAULT_MIN_HEADROOM, s.profile, s.liveHeap);
  }

  /**
   Whenever the launcher itself adds `GOGC=off`, the same environment has a `GOMEMLIMIT` that parses back to a
   finite positive limit, whether it was inherited or printed by the plan.
   */
  lemma GogcOffHasFiniteLimit(base: seq<string>, limits: Option<Limits>, size: int, mode: Mode, s: Settings)
    requires Lookup(base, "GOGC").None? && Effective(base, "GOGC", limits, size, mode, s) == Some("off")
    ensures Effective(base, "GOMEMLIMIT", limits, size, mode, s).Some?
    ensures 0 < RuntimeLimit(Effective(base, "GOMEMLIMIT", limits, size, mode, s).value) < MAX_INT64
  {
    var inherited := Lookup(base, "GOMEMLIMIT");
    OffNeedsALimit(limits.value, size, mode, inherited, s);
    if inherited.None? {
      PrintedLimitParses(RuntimePlan(limits.value, size, mode, inherited, s).memBytes);
    }
  }

  // ---------------------------------------------------------------- the builder: slice and index in step

  /** The index holds, for exactly the keys that occur, the position of their last entry. */
  ghost predicate InStep(env: seq<string>, keyIndex: map<string, int>) {
    forall k :: (k in keyIndex <==> LastIndex(env, k) >= 0) && (k in keyIndex ==> keyIndex[k] == LastIndex(env, k))
  }

  lemma PutMovesIndex(env: seq<string>, e: string, k: string)
    requires Key(e).Some?
    ensures LastIndex(Put(env, e), k) == if Key(e) == Some(k) && LastIndex(env, k) < 0 then |env| else LastIndex(env, k)
  {
    hide Key, LastIndex;
    var i, env' := LastIndex(env, Key(e).value), Put(env, e);
    assert forall m :: 0 <= m < |env| && m != i ==> env'[m] == env[m];
    assert i >= 0 ==> Key(env'[i]) == Key(env[i]);
    LastIndexIs(env', k, if Key(e) == Some(k) && LastIndex(env, k) < 0 then |env| else LastIndex(env, k));
  }

  lemma PutInStep(env: seq<string>, keyIndex: map<string, int>, e: string)
    requires InStep(env, keyIndex) && Key(e).Some?
    ensures var k := Key(e).value;
      && (k in keyIndex ==> Put(env, e) == env[keyIndex[k] := e] && InStep(Put(env, e), keyIndex))
      && (k !in keyIndex ==> Put(env, e) == env + [e] && InStep(Put(env, e), keyIndex[k := |env|]))
  {
    hide Key, LastIndex;
    var env', index := Put(env, e), if Key(e).value in keyIndex then keyIndex else keyIndex[Key(e).value := |env|];
    forall k ensures (k in index <==> LastIndex(env', k) >= 0) && (k in index ==> index[k] == LastIndex(env', k)) {
      PutMovesIndex(env, e, k);
    }
  }

  lemma KeepMalformed(env: seq<string>, keyIndex: map<string, int>, e: string)
    requires InStep(env, keyIndex) && Key(e).None?
    ensures InStep(env + [e], keyIndex)
  {
  }

  class Builder {
    var env: seq<string>
    var keyIndex: map<string, int>

    ghost predicate Valid()
      reads this
    {
      InStep(env, keyIndex)
    }

    /** Dispatch: the filtering copy at the head of `buildAutoTunedEnviron`. */
    constructor Copy(base: seq<string>)
      ensures Valid() && env == Copied(base)
    {
      env, keyIndex := [], map[];
      new;
      for n := 0 to |base|
        invariant Valid() && env == Copied(base[..n])
      {
        var e := base[n];
        assert base[..n + 1][..n] == base[..n];
        var k := Key(e);
        if k.None? {
          KeepMalformed(env, keyIndex, e);
          env := env + [e];
        } else if !IsInternal(k.value) {
          PutInStep(env, keyIndex, e);
          if k.value in keyIndex {
            env := env[keyIndex[k.value] := e];
          } else {
            keyIndex := keyIndex[k.value := |env|];
            env := env + [e];
          }
        }
      }
      assert base[..|base|] == base;
    }

    /** Inspection: the indexing loop at the head of `buildRuntimeCandidate`. */
    constructor Index(base: seq<string>)
      ensures Valid() && env == base
    {
      env, keyIndex := base, map[];
      new;
      for n := 0 to |base|
        invariant env == base && InStep(base[..n], keyIndex)
      {
        assert base[..n + 1][..n] == base[..n];
        var k := Key(base[n]);
        if k.Some? {
          keyIndex := keyIndex[k.value := n];
        }
      }
      assert base[..|base|] == base;
    }

    /** `upsertEnv` */
    method Upsert(key: string, val: string)
      requires Valid() && GoodKey(key)
      modifies this
      ensures Valid() && Key(Entry(key, val)) == Some(key)
      ensures env == Put(old(env), Entry(key, val))
    {
      var e := Entry(key, val);
      EntryParts(key, val);
      PutInStep(env, keyIndex, e);
      if key in keyIndex {
        env := env[keyIndex[key] := e];
      } else {
        keyIndex := keyIndex[key := |env|];
        env := env + [e];
      }
    }

    method UpsertAll(pairs: Pairs)
      requires Valid() && AllInternal(pairs)
      modifies this
      ensures Valid() && env == PutAll(old(env), pairs)
    {
      ghost var start := env;
      for n := 0 to |pairs|
        invariant Valid() && env == PutAll(start, pairs[..n])
      {
        assert pairs[..n + 1][..n] == pairs[..n];
        KeysAreGood(pairs[n].0);
        Upsert(pairs[n].0, pairs[n].1);
      }
      assert pairs[..|pairs|] == pairs;
    }

    /** `resolveRuntimeTuning` */
    method ResolveRuntimeTuning(limits: Limits, size: int, mode: Mode, s: Settings) returns (plan: Plan)
      requires Valid()
      ensures plan == RuntimePlan(limits, size, mode, Lookup(env, "GOMEMLIMIT"), s)
    {
      var l := limits;
      var retained := RetainedBytes(size, mode, s.pageSize);
      if retained > 0 {
        l := l.(retained := retained);
      }
      var tuning := new TuningPlan.Resolve(l, s.ratio, DEFAULT_MEMORY_RATIO, DEFAULT_MIN_HEADROOM, s.profile,
                                           s.liveHeap);
      tuning.ApplyCPUPolicy(s.nativeCPU);
      if "GOMEMLIMIT" in keyIndex {
        var limit := RuntimeMemoryLimit(Val(env[keyIndex["GOMEMLIMIT"]]));
        tuning.ResolveBatchGOGC(limit);
      }
      return tuning.Contents();
    }

    /** `applyRuntimeTuningPlan` */
    method ApplyRuntimeTuningPlan(plan: Plan)
      requires Valid()
      modifies this
      ensures Valid() && env == Applied(old(env), plan)
    {
      OfferKey(plan, "GOMEMLIMIT");
      OfferKey(plan, "GOMAXPROCS");
      OfferKey(plan, "GOGC");
    }

    method OfferKey(plan: Plan, k: string)
      requires Valid() && GoodKey(k)
      modifies this
      ensures Valid() && env == Offer(old(env), plan, k)
    {
      if k !in keyIndex && PlanValue(plan, k).Some? {
        Upsert(k, PlanValue(plan, k).value);
      }
    }
  }

  // ---------------------------------------------------------------- dispatch and inspection

  /** What the launcher knows about the launch; `exe` is absent when the path is unknown. */
  datatype Launch = Launch(exe: Option<string>, level: string, arch: string, hostLevel: string, mode: Mode,
                           sha: string, size: int, policy: string, reason: string)

  function ModeName(m: Mode): string { if m.Memfd? then "memfd" else "cache" }

  function HostPairs(x: Launch): (pairs: Pairs)
    ensures AllInternal(pairs)
  {
    (if x.exe.Some? then [("MICROFAT_ORIGINAL_EXE", x.exe.value)] else []) +
    [("MICROFAT_SELECTED_VARIANT", x.level), ("MICROFAT_HOST_ARCH", x.arch), ("MICROFAT_HOST_LEVEL", x.hostLevel)]
  }

  function SelectionPairs(x: Launch): (pairs: Pairs)
    ensures AllInternal(pairs)
  {
    [("MICROFAT_EXEC_MODE", ModeName(x.mode)), ("MICROFAT_DISPATCH_MODE", ModeName(x.mode))] +
    [("MICROFAT_SELECTED_SHA256", x.sha), ("MICROFAT_SELECTED_SIZE", FormatInt(x.size))]
  }

  function PolicyPairs(x: Launch): (pairs: Pairs)
    ensures AllInternal(pairs)
  {
    if x.policy != "" then [("MICROFAT_POLICY_APPLIED", x.policy), ("MICROFAT_OVERRIDE_REASON", x.reason)] else []
  }

  /** The metadata variables of every launch. */
  function LaunchPairs(x: Launch): (pairs: Pairs)
    ensures AllInternal(pairs)
  {
    HostPairs(x) + SelectionPairs(x) + PolicyPairs(x)
  }

  lemma {:induction false} PairLookupAppend(a: Pairs, b: Pairs, k: string)
    ensures PairLookup(a + b, k) == if PairLookup(b, k).Some? then PairLookup(b, k) else PairLookup(a, k)
  {
    if b == [] {
      assert a + b == a;
    } else {
      assert (a + b)[..|a + b| - 1] == a + b[..|b| - 1];
      PairLookupAppend(a, b[..|b| - 1], k);
    }
  }

  lemma PairLookupNone(k: string)
    ensures PairLookup([], k) == None
  {
  }

  /** One pair, two pairs: the last one with the key counts. */
  lemma PairLookupOne(p: (string, string), k: string)
    ensures PairLookup([p], k) == if p.0 == k then Some(p.1) else None
  {
    assert [p][..0] == [];
  }

  lemma PairLookupTwo(p: (string, string), q: (string, string), k: string)
    ensures PairLookup([p, q], k) == if q.0 == k then Some(q.1) else if p.0 == k then Some(p.1) else None
  {
    assert [p, q][..1] == [p];
    PairLookupOne(p, k);
  }

  /** What each variable of the launch metadata says. */
  function LaunchValue(x: Launch, k: string): Option<string> {
    match k
    case "MICROFAT_ORIGINAL_EXE" => x.exe
    case "MICROFAT_SELECTED_VARIANT" => Some(x.level)
    case "MICROFAT_SELECTED_SHA256" => Some(x.sha)
    case "MICROFAT_SELECTED_SIZE" => Some(FormatInt(x.size))
    case "MICROFAT_HOST_ARCH" => Some(x.arch)
    case "MICROFAT_HOST_LEVEL" => Some(x.hostLevel)
    case "MICROFAT_EXEC_MODE" => Some(if x.mode.Memfd? then "memfd" else "cache")
    case "MICROFAT_DISPATCH_MODE" => Some(if x.mode.Memfd? then "memfd" else "cache")
    case "MICROFAT_POLICY_APPLIED" => if x.policy == "" then None else Some(x.policy)
    case "MICROFAT_OVERRIDE_REASON" => if x.policy == "" then None else Some(x.reason)
    case _ => None
  }

  lemma HostLookup(x: Launch, k: string)
    ensures PairLookup(HostPairs(x), k) ==
      if k == "MICROFAT_ORIGINAL_EXE" then x.exe
      else if k == "MICROFAT_SELECTED_VARIANT" then Some(x.level)
      else if k == "MICROFAT_HOST_ARCH" then Some(x.arch)
      else if k == "MICROFAT_HOST_LEVEL" then Some(x.hostLevel)
      else None
  {
    var exe := if x.exe.Some? then [("MICROFAT_ORIGINAL_EXE", x.exe.value)] else [];
    var level, arch := ("MICROFAT_SELECTED_VARIANT", x.level), ("MICROFAT_HOST_ARCH", x.arch);
    var hostLevel := ("MICROFAT_HOST_LEVEL", x.hostLevel);
    hide PairLookup, AllInternal;
    PairLookupAppend(exe, [level, arch, hostLevel], k);
    assert [level, arch, hostLevel] == [level] + [arch, hostLevel];
    PairLookupAppend([level], [arch, hostLevel], k);
    PairLookupOne(level, k);
    PairLookupTwo(arch, hostLevel, k);
    PairLookupNone(k);
    if x.exe.Some? { PairLookupOne(exe[0], k); }
  }

  lemma SelectionLookup(x: Launch, k: string)
    ensures PairLookup(SelectionPairs(x), k) ==
      if k == "MICROFAT_EXEC_MODE" || k == "MICROFAT_DISPATCH_MODE" then Some(ModeName(x.mode))
      else if k == "MICROFAT_SELECTED_SHA256" then Some(x.sha)
      else if k == "MICROFAT_SELECTED_SIZE" then Some(FormatInt(x.size))
      else None
  {
    var exec, dispatch := ("MICROFAT_EXEC_MODE", ModeName(x.mode)), ("MICROFAT_DISPATCH_MODE", ModeName(x.mode));
    var sha, size := ("MICROFAT_SELECTED_SHA256", x.sha), ("MICROFAT_SELECTED_SIZE", FormatInt(x.size));
    hide PairLookup, AllInternal, ModeName, FormatInt;
    PairLookupAppend([exec, dispatch], [sha, size], k);
    PairLookupTwo(exec, dispatch, k);
    PairLookupTwo(sha, size, k);
  }

  lemma PolicyLookup(x: Launch, k: string)
    ensures PairLookup(PolicyPairs(x), k) ==
      if x.policy == "" then None
      else if k == "MICROFAT_POLICY_APPLIED" then Some(x.policy)
      else if k == "MICROFAT_OVERRIDE_REASON" then Some(x.reason)
      else None
  {
    PairLookupTwo(("MICROFAT_POLICY_APPLIED", x.policy), ("MICROFAT_OVERRIDE_REASON", x.reason), k);
    PairLookupNone(k);
    hide PairLookup;
  }

  lemma LaunchLookup(x: Launch, k: string)
    ensures PairLookup(LaunchPairs(x), k) == LaunchValue(x, k)
  {
    hide PairLookup, AllInternal, HostPairs, SelectionPairs, PolicyPairs, FormatInt;
    PairLookupAppend(HostPairs(x) + SelectionPairs(x), PolicyPairs(x), k);
    PairLookupAppend(HostPairs(x), SelectionPairs(x), k);
    HostLookup(x, k);
    SelectionLookup(x, k);
    PolicyLookup(x, k);
  }

  /** `populateCgroupEnviron`; `cpuText` is the quota printed with two decimals. */
  function CgroupPairs(version: nat, l: Limits, cpuText: string): (pairs: Pairs)
    ensures AllInternal(pairs)
  {
    [("MICROFAT_CGROUP_VERSION", FormatInt(version)), ("MICROFAT_CGROUP_LIMIT_BYTES", FormatInt(l.memoryLimit))] +
    (if l.HasMemoryHigh() then [("MICROFAT_CGROUP_HIGH_BYTES", FormatInt(l.memoryHigh))] else []) +
    (if l.EffectiveMemoryLimit().1 then [("MICROFAT_CGROUP_EFFECTIVE_LIMIT_BYTES", FormatInt(l.effective))] else []) +
    [("MICROFAT_CGROUP_CPUS", cpuText)]
  }

  function CgroupValue(version: nat, l: Limits, cpuText: string, k: string): Option<string> {
    match k
    case "MICROFAT_CGROUP_VERSION" => Some(FormatInt(version))
    case "MICROFAT_CGROUP_LIMIT_BYTES" => Some(FormatInt(l.memoryLimit))
    case "MICROFAT_CGROUP_HIGH_BYTES" => if l.HasMemoryHigh() then Some(FormatInt(l.memoryHigh)) else None
    case "MICROFAT_CGROUP_EFFECTIVE_LIMIT_BYTES" =>
      if l.EffectiveMemoryLimit().1 then Some(FormatInt(l.effective)) else None
    case "MICROFAT_CGROUP_CPUS" => Some(cpuText)
    case _ => None
  }

  lemma CgroupLookup(version: nat, l: Limits, cpuText: string, k: string)
    ensures PairLookup(CgroupPairs(version, l, cpuText), k) == CgroupValue(version, l, cpuText, k)
  {
    var v, max := ("MICROFAT_CGROUP_VERSION", FormatInt(version)),
      ("MICROFAT_CGROUP_LIMIT_BYTES", FormatInt(l.memoryLimit));
    var high := if l.HasMemoryHigh() then [("MICROFAT_CGROUP_HIGH_BYTES", FormatInt(l.memoryHigh))] else [];
    var least := if l.EffectiveMemoryLimit().1
      then [("MICROFAT_CGROUP_EFFECTIVE_LIMIT_BYTES", FormatInt(l.effective))] else [];
    var cpus := ("MICROFAT_CGROUP_CPUS", cpuText);
    hide PairLookup, FormatInt, AllInternal;
    assert CgroupPairs(version, l, cpuText) == [v, max] + high + least + [cpus];
    PairLookupAppend([v, max] + high + least, [cpus], k);
    PairLookupAppend([v, max] + high, least, k);
    PairLookupAppend([v, max], high, k);
    PairLookupTwo(v, max, k);
    PairLookupOne(cpus, k);
    PairLookupNone(k);
    if high != [] { PairLookupOne(high[0], k); }
    if least != [] { PairLookupOne(least[0], k); }
  }

  function ProfileName(p: Profile): string {
    match p
    case Default => "default"
    case LatencyCritical => "latency_critical"
    case MemoryConstrained => "memory_constrained"
    case BatchETL => "batch_etl"
    case Adaptive => "adaptive"
  }

  function PlanPairs(plan: Plan, explicitGC: bool): (pairs: Pairs)
    ensures AllInternal(pairs)
  {
    (if !explicitGC && plan.skipped != "" then [("MICROFAT_CGROUP_GOGC_SKIPPED_REASON", plan.skipped)] else []) +
    (if plan.memText != "" then [("MICROFAT_CGROUP_GOMEMLIMIT", plan.memText)] else []) +
    (if plan.procsText != "" then [("MICROFAT_CGROUP_GOMAXPROCS", plan.procsText)] else []) +
    (if plan.gogcText != "" then [("MICROFAT_CGROUP_GOGC", plan.gogcText)] else []) +
    (if !plan.profile.Default? then [("MICROFAT_CGROUP_GC_PROFILE", ProfileName(plan.profile))] else [])
  }

  function PlanMetadata(plan: Plan, explicitGC: bool, k: string): Option<string> {
    match k
    case "MICROFAT_CGROUP_GOGC_SKIPPED_REASON" =>
      if explicitGC || plan.skipped == "" then None else Some(plan.skipped)
    case "MICROFAT_CGROUP_GOMEMLIMIT" => if plan.memText == "" then None else Some(plan.memText)
    case "MICROFAT_CGROUP_GOMAXPROCS" => if plan.procsText == "" then None else Some(plan.procsText)
    case "MICROFAT_CGROUP_GOGC" => if plan.gogcText == "" then None else Some(plan.gogcText)
    case "MICROFAT_CGROUP_GC_PROFILE" =>
      (match plan.profile
       case Default => None
       case LatencyCritical => Some("latency_critical")
       case MemoryConstrained => Some("memory_constrained")
       case BatchETL => Some("batch_etl")
       case Adaptive => Some("adaptive"))
    case _ => None
  }

  lemma PlanLookup(plan: Plan, explicitGC: bool, k: string)
    ensures PairLookup(PlanPairs(plan, explicitGC), k) == PlanMetadata(plan, explicitGC, k)
  {
    var reason := if !explicitGC && plan.skipped != ""
      then [("MICROFAT_CGROUP_GOGC_SKIPPED_REASON", plan.skipped)] else [];
    var mem := if plan.memText != "" then [("MICROFAT_CGROUP_GOMEMLIMIT", plan.memText)] else [];
    var procs := if plan.procsText != "" then [("MICROFAT_CGROUP_GOMAXPROCS", plan.procsText)] else [];
    var gogc := if plan.gogcText != "" then [("MICROFAT_CGROUP_GOGC", plan.gogcText)] else [];
    var name := if !plan.profile.Default? then [("MICROFAT_CGROUP_GC_PROFILE", ProfileName(plan.profile))] else [];
    hide PairLookup, AllInternal;
    assert PlanPairs(plan, explicitGC) == reason + mem + procs + gogc + name;
    PairLookupAppend(reason + mem + procs + gogc, name, k);
    PairLookupAppend(reason + mem + procs, gogc, k);
    PairLookupAppend(reason + mem, procs, k);
    PairLookupAppend(reason, mem, k);
    PairLookupNone(k);
    if reason != [] { PairLookupOne(reason[0], k); }
    if mem != [] { PairLookupOne(mem[0], k); }
    if procs != [] { PairLookupOne(procs[0], k); }
    if gogc != [] { PairLookupOne(gogc[0], k); }
    if name != [] { PairLookupOne(name[0], k); }
  }

  /** A cgroup observation: its version, limits and printed CPU quota. */
  datatype Observation = Observation(version: nat, limits: Limits, cpuText: string)

  function LimitsOf(o: Option<Observation>): Option<Limits> {
    if o.Some? then Some(o.value.limits) else None
  }

  /** Everything the launcher itself writes under its own names. */
  function AllPairs(base: seq<string>, x: Launch, o: Option<Observation>, s: Settings): (pairs: Pairs)
    ensures AllInternal(pairs)
  {
    LaunchPairs(x) +
    if o.None? then []
    else CgroupPairs(o.value.version, o.value.limits, o.value.cpuText) +
         PlanPairs(RuntimePlan(o.value.limits, x.size, x.mode, Lookup(base, "GOMEMLIMIT"), s),
                   Lookup(base, "GOGC").Some?)
  }

  /** What the payload finds under a launcher variable: the launch, and with an observation also limits and plan. */
  function Metadata(base: seq<string>, x: Launch, o: Option<Observation>, s: Settings, k: string): Option<string> {
    if o.None? then LaunchValue(x, k)
    else
      var Observation(version, limits, cpuText) := o.value;
      var plan := RuntimePlan(limits, x.size, x.mode, Lookup(base, "GOMEMLIMIT"), s);
      var planned := PlanMetadata(plan, Lookup(base, "GOGC").Some?, k);
      var observed := CgroupValue(version, limits, cpuText, k);
      if planned.Some? then planned else if observed.Some? then observed else LaunchValue(x, k)
  }

  lemma MetadataLookup(base: seq<string>, x: Launch, o: Option<Observation>, s: Settings, k: string)
    ensures PairLookup(AllPairs(base, x, o, s), k) == Metadata(base, x, o, s, k)
  {
    LaunchLookup(x, k);
    hide PairLookup, LaunchPairs, LaunchValue, CgroupPairs, CgroupValue, PlanPairs, PlanMetadata, RuntimePlan, Lookup;
    if o.None? {
      assert AllPairs(base, x, o, s) == LaunchPairs(x);
    } else {
      var Observation(version, limits, cpuText) := o.value;
      var plan := RuntimePlan(limits, x.size, x.mode, Lookup(base, "GOMEMLIMIT"), s);
      var explicitGC := Lookup(base, "GOGC").Some?;
      CgroupLookup(version, limits, cpuText, k);
      PlanLookup(plan, explicitGC, k);
      PairLookupAppend(CgroupPairs(version, limits, cpuText), PlanPairs(plan, explicitGC), k);
      PairLookupAppend(LaunchPairs(x), CgroupPairs(version, limits, cpuText) + PlanPairs(plan, explicitGC), k);
    }
  }

  /** What the payload finds in its environment, in terms of what the launcher inherited. */
  ghost predicate Delivers(env: seq<string>, base: seq<string>, x: Launch, o: Option<Observation>, s: Settings) {
    && UniqueKeys(env)
    && Malformed(env) == Malformed(base)
    && forall k ::
      Lookup(env, k) ==
        if IsInternal(k) then Metadata(base, x, o, s, k)
        else if IsRuntimeKey(k) then Effective(base, k, LimitsOf(o), x.size, x.mode, s)
        else Lookup(base, k)
  }

  lemma {:induction false} PutAllAppend(env: seq<string>, a: Pairs, b: Pairs)
    requires AllInternal(a) && AllInternal(b)
    ensures AllInternal(a + b) && PutAll(PutAll(env, a), b) == PutAll(env, a + b)
  {
    if b == [] {
      assert a + b == a;
    } else {
      PutAllAppend(env, a, b[..|b| - 1]);
      assert (a + b)[..|a + b| - 1] == a + b[..|b| - 1];
    }
  }

  /** Metadata over the copy, then (when tuning is on) the plan: the payload's view follows. */
  lemma DeliveryFollows(base: seq<string>, x: Launch, o: Option<Observation>, s: Settings)
    ensures var env := PutAll(Copied(base), AllPairs(base, x, o, s));
      Delivers(if o.Some? && s.autotune
               then Applied(env, RuntimePlan(o.value.limits, x.size, x.mode, Lookup(base, "GOMEMLIMIT"), s))
               else env, base, x, o, s)
  {
    hide AllPairs, PutAll, Copied, Applied, Lookup, Malformed, UniqueKeys, RuntimePlan, PlanValue, PairLookup,
      IsInternal, IsRuntimeKey, Metadata;
    var pairs := AllPairs(base, x, o, s);
    var env := PutAll(Copied(base), pairs);
    CopiedIsClean(base);
    PutAllShape(Copied(base), pairs);
    forall k ensures Lookup(env, k) == if IsInternal(k) then Metadata(base, x, o, s, k) else Lookup(base, k) {
      PutAllLookup(Copied(base), pairs, k);
      MetadataLookup(base, x, o, s, k);
    }
    forall k ensures !(IsInternal(k) && IsRuntimeKey(k)) { if IsInternal(k) { KeysAreGood(k); } }
    if o.Some? && s.autotune {
      AppliedShape(env, RuntimePlan(o.value.limits, x.size, x.mode, Lookup(base, "GOMEMLIMIT"), s));
    }
  }

  lemma RuntimeKeysSurvive(base: seq<string>, pairs: Pairs, k: string)
    requires AllInternal(pairs) && IsRuntimeKey(k)
    ensures Lookup(PutAll(Copied(base), pairs), k) == Lookup(base, k)
  {
    KeysAreGood(k);
    PutAllLookup(Copied(base), pairs, k);
    CopiedIsClean(base);
  }

  /** The copy with the launch and cgroup metadata; the runtime keys are still the inherited ones. */
  method Tagged(base: seq<string>, launch: Pairs, cgroup: Pairs) returns (b: Builder)
    requires AllInternal(launch) && AllInternal(cgroup)
    ensures fresh(b) && b.Valid() && b.env == PutAll(Copied(base), launch + cgroup)
    ensures Lookup(b.env, "GOMEMLIMIT") == Lookup(base, "GOMEMLIMIT")
    ensures "GOGC" in b.keyIndex <==> Lookup(base, "GOGC").Some?
  {
    b := new Builder.Copy(base);
    b.UpsertAll(launch);
    b.UpsertAll(cgroup);
    PutAllAppend(Copied(base), launch, cgroup);
    RuntimeKeysSurvive(base, launch + cgroup, "GOMEMLIMIT");
    RuntimeKeysSurvive(base, launch + cgroup, "GOGC");
    assert LastIndex(b.env, "GOGC") >= 0 <==> Lookup(b.env, "GOGC").Some?;
  }

  /** Resolve the plan against the tagged environment and record it. */
  method Planned(b: Builder, base: seq<string>, ghost tags: Pairs, o: Observation, size: int, mode: Mode, s: Settings)
    returns (plan: Plan)
    requires b.Valid() && AllInternal(tags) && b.env == PutAll(Copied(base), tags)
    requires Lookup(b.env, "GOMEMLIMIT") == Lookup(base, "GOMEMLIMIT")
    requires "GOGC" in b.keyIndex <==> Lookup(base, "GOGC").Some?
    modifies b
    ensures plan == RuntimePlan(o.limits, size, mode, Lookup(base, "GOMEMLIMIT"), s)
    ensures b.Valid() && b.env == PutAll(Copied(base), tags + PlanPairs(plan, Lookup(base, "GOGC").Some?))
  {
    plan := b.ResolveRuntimeTuning(o.limits, size, mode, s);
    var metadata := PlanPairs(plan, "GOGC" in b.keyIndex);
    b.UpsertAll(metadata);
    PutAllAppend(Copied(base), tags, metadata);
  }

  lemma PairsInOrder(base: seq<string>, x: Launch, o: Observation, s: Settings, plan: Plan)
    requires plan == RuntimePlan(o.limits, x.size, x.mode, Lookup(base, "GOMEMLIMIT"), s)
    ensures LaunchPairs(x) + CgroupPairs(o.version, o.limits, o.cpuText) + PlanPairs(plan, Lookup(base, "GOGC").Some?)
         == AllPairs(base, x, Some(o), s)
  {
    var a, b, c := LaunchPairs(x), CgroupPairs(o.version, o.limits, o.cpuText),
      PlanPairs(plan, Lookup(base, "GOGC").Some?);
    assert (a + b) + c == a + (b + c);
  }

  method Annotate(base: seq<string>, x: Launch, o: Observation, s: Settings) returns (b: Builder, plan: Plan)
    ensures fresh(b) && b.Valid() && b.env == PutAll(Copied(base), AllPairs(base, x, Some(o), s))
    ensures plan == RuntimePlan(o.limits, x.size, x.mode, Lookup(base, "GOMEMLIMIT"), s)
  {
    var launch, cgroup := LaunchPairs(x), CgroupPairs(o.version, o.limits, o.cpuText);
    b := Tagged(base, launch, cgroup);
    plan := Planned(b, base, launch + cgroup, o, x.size, x.mode, s);
    PairsInOrder(base, x, o, s, plan);
  }

  /**
   `buildAutoTunedEnviron`: for any inherited environment, duplicates and malformed entries included, every
   well-formed key is passed once, the last inherited value of an ordinary key survives, inherited launcher
   variables do not, and the runtime keys get their effective values.
   */
  method BuildAutoTunedEnviron(base: seq<string>, x: Launch, o: Option<Observation>, s: Settings)
    returns (env: seq<string>)
    ensures Delivers(env, base, x, o, s)
  {
    if o.None? {
      var b := Tagged(base, LaunchPairs(x), []);
      DeliveryFollows(base, x, o, s);
      return b.env;
    }
    var b, plan := Annotate(base, x, o.value, s);
    if s.autotune {
      b.ApplyRuntimeTuningPlan(plan);
    }
    DeliveryFollows(base, x, o, s);
    return b.env;
  }

  datatype Source = Absent | Inherited | Autotune

  datatype Reported = Reported(present: bool, value: string, source: Source)

  function Report(value: Option<string>, inherited: bool): Reported {
    if value.None? then Reported(false, "", Absent)
    else Reported(true, value.value, if inherited then Inherited else Autotune)
  }

  /** The final loop of `buildRuntimeCandidate`. */
  method ReportKeys(b: Builder, inherited: map<string, int>) returns (report: map<string, Reported>)
    requires b.Valid()
    ensures forall k :: IsRuntimeKey(k) <==> k in report
    ensures forall k :: k in report ==> report[k] == Report(Lookup(b.env, k), k in inherited)
  {
    report := map[];
    var keys := ["GOMEMLIMIT", "GOMAXPROCS", "GOGC"];
    for n := 0 to 3
      invariant forall k :: k in report <==> k in keys[..n]
      invariant forall k :: k in report ==> report[k] == Report(Lookup(b.env, k), k in inherited)
    {
      var k := keys[n];
      var r := Reported(false, "", Absent);
      if k in b.keyIndex {
        r := Reported(true, Val(b.env[b.keyIndex[k]]), if k in inherited then Inherited else Autotune);
      }
      report := report[k := r];
      assert keys[..n + 1] == keys[..n] + [k];
    }
    assert keys[..3] == keys;
  }

  /** The report for a mode: the effective value of each runtime key, and where it comes from. */
  ghost predicate Predicts(report: map<string, Reported>, base: seq<string>, size: int, o: Option<Observation>,
                           mode: Mode, s: Settings) {
    && (forall k :: IsRuntimeKey(k) <==> k in report)
    && (forall k :: IsRuntimeKey(k) ==>
          report[k] == Report(Effective(base, k, LimitsOf(o), size, mode, s), Lookup(base, k).Some?))
  }

  lemma IndexedKeys(env: seq<string>, keyIndex: map<string, int>)
    requires InStep(env, keyIndex)
    ensures forall k :: k in keyIndex <==> Lookup(env, k).Some?
  {
  }

  /** The plan applied to the inherited slice as it is gives the effective values. */
  lemma InspectedValues(base: seq<string>, size: int, o: Option<Observation>, mode: Mode, s: Settings)
    ensures var env := if o.Some? && s.autotune
                       then Applied(base, RuntimePlan(o.value.limits, size, mode, Lookup(base, "GOMEMLIMIT"), s))
                       else base;
      forall k :: IsRuntimeKey(k) ==> Lookup(env, k) == Effective(base, k, LimitsOf(o), size, mode, s)
  {
    if o.Some? && s.autotune {
      var plan := RuntimePlan(o.value.limits, size, mode, Lookup(base, "GOMEMLIMIT"), s);
      AppliedShape(base, plan);
      hide Applied, Lookup, RuntimePlan, PlanValue;
    }
  }

  /** `buildRuntimeCandidate`: what inspection reports for each runtime key in one mode. */
  method BuildRuntimeCandidate(base: seq<string>, size: int, o: Option<Observation>, mode: Mode, s: Settings)
    returns (report: map<string, Reported>)
    ensures Predicts(report, base, size, o, mode, s)
  {
    hide RuntimePlan, Applied, Key, Val, Effective, Lookup, IsRuntimeKey, Report;
    InspectedValues(base, size, o, mode, s);
    var b := new Builder.Index(base);
    var inherited := b.keyIndex;
    IndexedKeys(base, inherited);
    if o.Some? {
      var plan := b.ResolveRuntimeTuning(o.value.limits, size, mode, s);
      if s.autotune {
        b.ApplyRuntimeTuningPlan(plan);
      }
    }
    report := ReportKeys(b, inherited);
  }

  /** Among the payload's variables, a runtime key has its effective value. */
  lemma DeliveredRuntimeKey(env: seq<string>, base: seq<string>, x: Launch, o: Option<Observation>, s: Settings,
                            k: string)
    requires Delivers(env, base, x, o, s) && IsRuntimeKey(k)
    ensures Lookup(env, k) == Effective(base, k, LimitsOf(o), x.size, x.mode, s)
  {
    KeysAreGood(k);
  }

  lemma ObservedKeys(version: nat, l: Limits, cpuText: string, k: string)
    requires CgroupValue(version, l, cpuText, k).Some?
    ensures k in CGROUP_KEYS
  {
  }

  lemma PlannedKeys(plan: Plan, explicitGC: bool, k: string)
    requires PlanMetadata(plan, explicitGC, k).Some?
    ensures k in PLAN_KEYS
  {
  }

  lemma LaunchKeysAreOwn()
    ensures (LAUNCH_KEYS + HOST_KEYS) !! CGROUP_KEYS && (LAUNCH_KEYS + HOST_KEYS) !! PLAN_KEYS
  {
  }

  lemma LaunchKeyDelivered(env: seq<string>, base: seq<string>, x: Launch, o: Option<Observation>, s: Settings,
                           k: string)
    requires Delivers(env, base, x, o, s) && k in LAUNCH_KEYS + HOST_KEYS
    ensures Lookup(env, k) == LaunchValue(x, k)
  {
    hide Lookup, Effective, LaunchValue, RuntimePlan, IsRuntimeKey, CgroupValue, PlanMetadata, LAUNCH_KEYS, HOST_KEYS,
      CGROUP_KEYS, PLAN_KEYS;
    LaunchKeysAreOwn();
    if o.Some? {
      var Observation(version, limits, cpuText) := o.value;
      var plan := RuntimePlan(limits, x.size, x.mode, Lookup(base, "GOMEMLIMIT"), s);
      var explicitGC := Lookup(base, "GOGC").Some?;
      if CgroupValue(version, limits, cpuText, k).Some? { ObservedKeys(version, limits, cpuText, k); }
      if PlanMetadata(plan, explicitGC, k).Some? { PlannedKeys(plan, explicitGC, k); }
    }
  }

  /** The payload finds the launch it was started by. */
  lemma LaunchIsDelivered(env: seq<string>, base: seq<string>, x: Launch, o: Option<Observation>, s: Settings)
    requires Delivers(env, base, x, o, s)
    ensures var mode := if x.mode.Memfd? then "memfd" else "cache";
      && Lookup(env, "MICROFAT_EXEC_MODE") == Some(mode) && Lookup(env, "MICROFAT_DISPATCH_MODE") == Some(mode)
    ensures Lookup(env, "MICROFAT_SELECTED_SHA256") == Some(x.sha)
    ensures Lookup(env, "MICROFAT_SELECTED_SIZE") == Some(FormatInt(x.size))
    ensures Lookup(env, "MICROFAT_SELECTED_VARIANT") == Some(x.level) && Lookup(env, "MICROFAT_ORIGINAL_EXE") == x.exe
  {
    hide Lookup, Delivers, FormatInt;
    LaunchKeyDelivered(env, base, x, o, s, "MICROFAT_EXEC_MODE");
    LaunchKeyDelivered(env, base, x, o, s, "MICROFAT_DISPATCH_MODE");
    LaunchKeyDelivered(env, base, x, o, s, "MICROFAT_SELECTED_SHA256");
    LaunchKeyDelivered(env, base, x, o, s, "MICROFAT_SELECTED_SIZE");
    LaunchKeyDelivered(env, base, x, o, s, "MICROFAT_SELECTED_VARIANT");
    LaunchKeyDelivered(env, base, x, o, s, "MICROFAT_ORIGINAL_EXE");
  }

  /** A variable that is neither the launcher's nor a runtime key reaches the payload as it was inherited. */
  lemma OrdinaryKeysSurvive(env: seq<string>, base: seq<string>, x: Launch, o: Option<Observation>, s: Settings,
                            k: string)
    requires Delivers(env, base, x, o, s)
    requires !("MICROFAT_" <= k) && k != "GOMEMLIMIT" && k != "GOMAXPROCS" && k != "GOGC"
    ensures Lookup(env, k) == Lookup(base, k)
  {
    hide Lookup, Metadata, Effective, IsInternal;
    if IsInternal(k) { KeysAreGood(k); }
  }

  /** In the delivered environment, `GOGC=off` that was not inherited comes with a finite positive `GOMEMLIMIT`. */
  lemma DeliveredOffHasFiniteLimit(env: seq<string>, base: seq<string>, x: Launch, o: Option<Observation>, s: Settings)
    requires Delivers(env, base, x, o, s)
    requires Lookup(base, "GOGC").None? && Lookup(env, "GOGC") == Some("off")
    ensures Lookup(env, "GOMEMLIMIT").Some? && 0 < RuntimeLimit(Lookup(env, "GOMEMLIMIT").value) < MAX_INT64
  {
    DeliveredRuntimeKey(env, base, x, o, s, "GOGC");
    DeliveredRuntimeKey(env, base, x, o, s, "GOMEMLIMIT");
    GogcOffHasFiniteLimit(base, LimitsOf(o), x.size, x.mode, s);
  }

  /** A report and an environment for the same launch tell the same values, presence included. */
  lemma PredictionIsDelivered(env: seq<string>, report: map<string, Reported>, base: seq<string>, x: Launch,
                              o: Option<Observation>, s: Settings)
    requires Delivers(env, base, x, o, s) && Predicts(report, base, x.size, o, x.mode, s)
    ensures forall k :: IsRuntimeKey(k) ==> k in report && report[k] == Report(Lookup(env, k), Lookup(base, k).Some?)
  {
    hide Effective, Lookup, IsRuntimeKey, IsInternal;
    forall k | IsRuntimeKey(k) ensures Lookup(env, k) == Effective(base, k, LimitsOf(o), x.size, x.mode, s) {
      DeliveredRuntimeKey(env, base, x, o, s, k);
    }
  }

  /**
   Inspection tells the truth: over the same inherited environment, observation and settings, the report for a
   mode equals what dispatch passes in that mode, key by key, presence included.
   */
  method InspectionAgreesWithDispatch(base: seq<string>, x: Launch, o: Option<Observation>, s: Settings)
    returns (env: seq<string>, report: map<string, Reported>)
    ensures Delivers(env, base, x, o, s) && Predicts(report, base, x.size, o, x.mode, s)
    ensures forall k :: IsRuntimeKey(k) ==> k in report && report[k] == Report(Lookup(env, k), Lookup(base, k).Some?)
  {
    env := BuildAutoTunedEnviron(base, x, o, s);
    report := BuildRuntimeCandidate(base, x.size, o, x.mode, s);
    PredictionIsDelivered(env, report, base, x, o, s);
  }
}
