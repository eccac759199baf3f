/**
 Container limits and the runtime tuning plan: reading the v2 memory hierarchy, the memory budget for the
 Go heap, the GC profile, and the text of `GOMEMLIMIT`. Ratios and CPU quotas are exact reals.
 */
module Tuning {
  import opened Basics
  import opened Decimal
  import opened Hierarchy

  // ---------------------------------------------------------------- reading the hierarchy

  datatype Reading = Unset | Limit(bytes: int) | Corrupted

  /** `readCgroupV2MemoryValue` */
  function ReadMemoryValue(f: File): (r: Reading)
    ensures r.Limit? ==> 0 <= r.bytes <= MAX_INT64
  {
    match f
    case Missing => Unset
    case Unreadable => Corrupted
    case Line(text) =>
      if text == "max" then Unset
      else
        var parsed := ParseInt64(text);
        if parsed.Some? && parsed.value >= 0 then Limit(parsed.value) else Corrupted
  }

  /** A printed limit reads as itself; "max" and a missing file set none; everything else is corrupt. */
  lemma ReadMemoryValueExact(n: int64, text: string)
    ensures ReadMemoryValue(Line(FormatInt(n))) == if n >= 0 then Limit(n) else Corrupted
    ensures ReadMemoryValue(Line("max")) == Unset && ReadMemoryValue(Missing) == Unset
    ensures ReadMemoryValue(Unreadable) == Corrupted
    ensures text != "max" && ParseInt64(text).None? ==> ReadMemoryValue(Line(text)) == Corrupted
  {
    ParseOfFormat(n);
    assert FormatInt(n)[0] != 'm';
  }

  /** `best` is the least of the limits that the files of `dirs` set, or nothing when none sets one. */
  ghost predicate IsMinimum(best: Option<int>, dirs: seq<Path>, file: Path -> File) {
    && (best.Some? ==> exists p :: p in dirs && ReadMemoryValue(file(p)) == Limit(best.value))
    && (forall p :: p in dirs && ReadMemoryValue(file(p)).Limit? ==>
          best.Some? && best.value <= ReadMemoryValue(file(p)).bytes)
  }

  ghost predicate Intact(dirs: seq<Path>, max: Path -> File, high: Path -> File) {
    forall p :: p in dirs ==> !ReadMemoryValue(max(p)).Corrupted? && !ReadMemoryValue(high(p)).Corrupted?
  }

  function Tighter(best: Option<int>, r: Reading): Option<int> {
    if r.Limit? && (best.None? || r.bytes < best.value) then Some(r.bytes) else best
  }

  lemma MinimumExtends(best: Option<int>, dirs: seq<Path>, p: Path, file: Path -> File)
    requires IsMinimum(best, dirs, file)
    ensures IsMinimum(Tighter(best, ReadMemoryValue(file(p))), dirs + [p], file)
  {
  }

  /** `traverseCgroupV2Memory`: the least finite `memory.max` and `memory.high` on the way to the root, or an error. */
  method TraverseMemory(target: Path, root: Path, max: Path -> File, high: Path -> File)
    returns (r: Option<(Option<int>, Option<int>)>)
    ensures r.Some? <==> Intact(Chain(target, root), max, high)
    ensures r.Some? ==> IsMinimum(r.value.0, Chain(target, root), max)
    ensures r.Some? ==> IsMinimum(r.value.1, Chain(target, root), high)
  {
    hide ReadMemoryValue, IsSubpath, Chain, Tighter;
    var minMax: Option<int>, minHigh: Option<int> := None, None;
    var curr := target;
    ghost var seen: seq<Path> := [];
    while true
      invariant seen + Chain(curr, root) == Chain(target, root)
      invariant IsMinimum(minMax, seen, max) && IsMinimum(minHigh, seen, high)
      invariant Intact(seen, max, high)
      decreases |curr|
    {
      ghost var seen' := seen + [curr];
      ChainStep(target, root, seen, curr);
      var m := ReadMemoryValue(max(curr));
      if m.Corrupted? { return None; }
      var h := ReadMemoryValue(high(curr));
      if h.Corrupted? { return None; }
      MinimumExtends(minMax, seen, curr, max);
      MinimumExtends(minHigh, seen, curr, high);
      minMax, minHigh := Tighter(minMax, m), Tighter(minHigh, h);
      seen := seen';
      if curr == root { break; }
      var parent := Parent(curr);
      if parent == curr || !IsSubpath(root, parent) { break; }
      curr := parent;
    }
    return Some((minMax, minHigh));
  }

  // ---------------------------------------------------------------- limits

  const DEFAULT_MEMORY_RATIO: real := 0.9
  const DEFAULT_MEMORY_CONSTRAINED_RATIO: real := 0.8

  function CalculateEffective(maxBytes: int, highBytes: int): int {
    if maxBytes > 0 && highBytes > 0 then (if highBytes < maxBytes then highBytes else maxBytes)
    else if highBytes > 0 then highBytes
    else if maxBytes > 0 then maxBytes
    else 0
  }

  datatype Limits = Limits(
    retained: int, memoryLimit: int, memoryHigh: int, effective: int,
    limitFinite: bool, highFinite: bool, cpuQuota: real, cpus: int)
  {
    predicate HasMemoryLimit() { limitFinite || memoryLimit > 0 }

    predicate HasMemoryHigh() { highFinite || memoryHigh > 0 }

    /** `EffectiveMemoryLimit`: the ceiling and whether it is finite. */
    function EffectiveMemoryLimit(): (int, bool) {
      if (HasMemoryLimit() && memoryLimit == 0) || (HasMemoryHigh() && memoryHigh == 0) then (0, true)
      else if effective > 0 then (effective, true)
      else (CalculateEffective(memoryLimit, memoryHigh), HasMemoryLimit() || HasMemoryHigh())
    }
  }

  /**
   The effective ceiling is the least finite boundary of the whole hierarchy: finite exactly when some file
   sets a limit, attained by one of them, and at most each of them.
   */
  ghost predicate DescribesHierarchy(l: Limits, dirs: seq<Path>, max: Path -> File, high: Path -> File) {
    var (ceiling, finite) := l.EffectiveMemoryLimit();
    && (finite <==> exists p :: p in dirs && (ReadMemoryValue(max(p)).Limit? || ReadMemoryValue(high(p)).Limit?))
    && (finite ==>
          exists p ::
            p in dirs && (ReadMemoryValue(max(p)) == Limit(ceiling) || ReadMemoryValue(high(p)) == Limit(ceiling)))
    && (forall p :: p in dirs && ReadMemoryValue(max(p)).Limit? ==> ceiling <= ReadMemoryValue(max(p)).bytes)
    && (forall p :: p in dirs && ReadMemoryValue(high(p)).Limit? ==> ceiling <= ReadMemoryValue(high(p)).bytes)
  }

  /** The recorded ceiling is the lesser of the two recorded boundaries. */
  predicate Consistent(l: Limits) {
    && l.memoryLimit >= 0 && l.memoryHigh >= 0
    && l.effective == (if !l.HasMemoryHigh() then l.memoryLimit
                       else if !l.HasMemoryLimit() || l.memoryHigh < l.memoryLimit then l.memoryHigh
                       else l.memoryLimit)
  }

  lemma MinimaDescribe(l: Limits, m: Option<int>, h: Option<int>, dirs: seq<Path>, max: Path -> File,
                       high: Path -> File)
    requires IsMinimum(m, dirs, max) && IsMinimum(h, dirs, high)
    requires l.limitFinite == m.Some? && l.memoryLimit == (if m.Some? then m.value else 0)
    requires l.highFinite == h.Some? && l.memoryHigh == (if h.Some? then h.value else 0)
    requires l.effective == l.(effective := 0).EffectiveMemoryLimit().0
    ensures DescribesHierarchy(l, dirs, max, high) && Consistent(l)
  {
    assert m.Some? ==> m.value >= 0;
    assert h.Some? ==> h.value >= 0;
    hide ReadMemoryValue;
  }

  /** `CalculateGOMAXPROCS` */
  function CalculateGOMAXPROCS(quota: real): Option<int> {
    if quota <= 0.0 then None else Some(if quota.Floor < 1 then 1 else quota.Floor)
  }

  /** `procs` processors for a quota: its whole part, but at least one. */
  predicate WholeProcessors(procs: int, quota: real) {
    procs >= 1 && quota < procs as real + 1.0 && (procs as real <= quota || procs == 1)
  }

  /** `readCgroupV2`, given the CPU quota found by its own walk. */
  method ReadCgroupV2(target: Path, root: Path, max: Path -> File, high: Path -> File, quota: Option<real>)
    returns (r: Option<Limits>)
    ensures r.Some? <==> Intact(Chain(target, root), max, high)
    ensures r.Some? ==> r.value.retained == 0 && DescribesHierarchy(r.value, Chain(target, root), max, high)
    ensures r.Some? ==> r.value.cpuQuota == if quota.Some? && quota.value > 0.0 then quota.value else 0.0
    ensures r.Some? ==>
      if r.value.cpuQuota > 0.0 then WholeProcessors(r.value.cpus, r.value.cpuQuota) else r.value.cpus == 0
    ensures r.Some? ==> Consistent(r.value)
  {
    hide DescribesHierarchy, Intact, Chain, IsMinimum;
    var found := TraverseMemory(target, root, max, high);
    if found.None? { return None; }
    var limits := Limits(0, 0, 0, 0, false, false, 0.0, 0);
    if found.value.0.Some? {
      limits := limits.(memoryLimit := found.value.0.value, limitFinite := true);
    }
    if found.value.1.Some? {
      limits := limits.(memoryHigh := found.value.1.value, highFinite := true);
    }
    limits := limits.(effective := limits.EffectiveMemoryLimit().0);
    if quota.Some? && quota.value > 0.0 {
      limits := limits.(cpuQuota := quota.value, cpus := CalculateGOMAXPROCS(quota.value).value);
    }
    MinimaDescribe(limits, found.value.0, found.value.1, Chain(target, root), max, high);
    return Some(limits);
  }

  // ---------------------------------------------------------------- the memory budget

  /** `RetainedMemoryLimit` */
  function RetainedMemoryLimit(limit: int, retained: int): int {
    if retained < 0 || retained >= limit then 0 else limit - retained
  }

  function Min(a: int, b: int): int { if a < b then a else b }

  predicate ValidRatio(r: real) { 0.0 < r <= 1.0 }

  /** What stays reserved for non-heap memory under a ceiling: the headroom, at most half rounded up. */
  function Reserved(limit: int, headroom: int): int { Min(headroom, limit - limit / 2) }

  function Scaled(limit: int, ratio: real): int { (limit as real * ratio).Floor }

  function Headroom(minHeadroom: int): int { if minHeadroom <= 0 then DEFAULT_MIN_HEADROOM else minHeadroom }

  /** `CalculateGOMEMLIMIT` */
  function CalculateGOMEMLIMIT(limit: int, ratio: real, minHeadroom: int): (b: Option<int>)
    ensures b.Some? ==> b.value > 0
  {
    if limit <= 0 || limit >= UNLIMITED_THRESHOLD then None
    else
      var ratioBudget := Scaled(limit, if ValidRatio(ratio) then ratio else DEFAULT_MEMORY_RATIO);
      var headroomBudget := limit - Reserved(limit, Headroom(minHeadroom));
      var budget := Min(ratioBudget, headroomBudget);
      if budget <= 0 then None else Some(budget)
  }

  /** The budget leaves its reservation free, and never takes more than the ratio allows. */
  lemma BudgetLeavesHeadroom(limit: int, ratio: real, minHeadroom: int)
    ensures var b := CalculateGOMEMLIMIT(limit, ratio, minHeadroom);
      b.Some? ==>
        && 0 < b.value < UNLIMITED_THRESHOLD
        && b.value + Reserved(limit, Headroom(minHeadroom)) <= limit
        && (ValidRatio(ratio) ==> b.value as real <= limit as real * ratio)
  {
  }

  lemma ScaledExact(limit: int, ratio: real, v: int)
    ensures v <= Scaled(limit, ratio) <==> v as real <= limit as real * ratio
  {
    var x := limit as real * ratio;
    assert x.Floor as real <= x < x.Floor as real + 1.0;
  }

  lemma ReservedExact(limit: int, headroom: int, v: int)
    ensures v <= limit - Reserved(limit, headroom) <==> v + headroom <= limit || v <= limit / 2
  {
  }

  /**
   What a ceiling affords: within the ratio, and leaving the headroom (64 MiB unless positive) or taking at most half. A
   ceiling that is not positive, or 1 PiB and more, affords nothing.
   */
  predicate Affordable(v: int, ceiling: int, ratio: real, minHeadroom: int) {
    var headroom := if minHeadroom > 0 then minHeadroom else 64 * 1024 * 1024;
    && 0 < ceiling < 1024 * 1024 * 1024 * 1024 * 1024
    && v as real <= ceiling as real * ratio
    && (v + headroom <= ceiling || v <= ceiling / 2)
  }

  /** The budget is the greatest affordable amount; a ratio outside (0, 1] counts as 0.9. */
  lemma BudgetExact(limit: int, ratio: real, minHeadroom: int, v: int)
    requires v > 0
    ensures var b := CalculateGOMEMLIMIT(limit, ratio, minHeadroom);
      b.Some? && v <= b.value <==> Affordable(v, limit, if 0.0 < ratio <= 1.0 then ratio else 0.9, minHeadroom)
  {
    hide Scaled, Reserved;
    ScaledExact(limit, if ValidRatio(ratio) then ratio else DEFAULT_MEMORY_RATIO, v);
    ReservedExact(limit, Headroom(minHeadroom), v);
  }

  lemma ScaleIsMonotone(a: int, b: int, ratio: real)
    requires a <= b && ratio >= 0.0
    ensures Scaled(a, ratio) <= Scaled(b, ratio)
  {
  }

  lemma HeadroomIsMonotone(a: int, b: int, headroom: int)
    requires a <= b
    ensures a - Reserved(a, headroom) <= b - Reserved(b, headroom)
  {
  }

  /** A larger ceiling never yields a smaller budget, wherever both are defined. */
  lemma BudgetIsMonotone(limit1: int, limit2: int, ratio: real, minHeadroom: int)
    requires limit1 <= limit2
    ensures
      var b1 := CalculateGOMEMLIMIT(limit1, ratio, minHeadroom);
      var b2 := CalculateGOMEMLIMIT(limit2, ratio, minHeadroom);
      b1.Some? && limit2 < UNLIMITED_THRESHOLD ==> b2.Some? && b1.value <= b2.value
  {
    if limit1 > 0 && limit2 < UNLIMITED_THRESHOLD {
      ScaleIsMonotone(limit1, limit2, if ValidRatio(ratio) then ratio else DEFAULT_MEMORY_RATIO);
      HeadroomIsMonotone(limit1, limit2, Headroom(minHeadroom));
    }
  }

  // ---------------------------------------------------------------- the plan

  datatype Profile = Default | LatencyCritical | MemoryConstrained | BatchETL | Adaptive

  datatype Plan = Plan(
    memBytes: int, memText: string, constraining: string,
    procs: int, procsText: string, ratio: real,
    gogc: int, gogcText: string, profile: Profile, gogcApplied: bool, skipped: string)

  /** `CalculateAdaptiveGOGC` */
  function CalculateAdaptiveGOGC(headroom: int, liveHeap: int): (r: Option<int>)
    ensures r.Some? ==> 10 <= r.value <= 100
  {
    if headroom <= 0 || liveHeap <= 0 then None
    else
      var g := (headroom as real / liveHeap as real - 1.0) * 100.0;
      var clamped := if g < 10.0 then 10.0 else if g > 100.0 then 100.0 else g;
      Some((clamped + 0.5).Floor)
  }

  /** `resolveTuningRatio`; `env` is the parsed override, if it is a number. */
  function ResolveRatio(env: Option<real>, defaultRatio: real, profile: Profile): (r: real)
    ensures ValidRatio(r)
  {
    if env.Some? && ValidRatio(env.value) then env.value
    else
      var base := if profile.MemoryConstrained? && defaultRatio == DEFAULT_MEMORY_RATIO
                  then DEFAULT_MEMORY_CONSTRAINED_RATIO else defaultRatio;
      if ValidRatio(base) then base else DEFAULT_MEMORY_RATIO
  }

  const SKIPPED: string := "batch_etl GOGC tuning skipped (no finite effective memory ceiling)"

  /** GC and CPU decisions leave the memory part of a plan alone. */
  predicate SameMemory(p: Plan, q: Plan) {
    q.memBytes == p.memBytes && q.memText == p.memText && q.profile == p.profile
  }

  /** Periodic collection off, but only against a finite memory limit. */
  function WithBatchGOGC(p: Plan, memoryLimit: int): (q: Plan)
    ensures SameMemory(p, q)
  {
    if !p.profile.BatchETL? then p
    else if memoryLimit <= 0 || memoryLimit == MAX_INT64 then
      p.(gogc := 0, gogcText := "", gogcApplied := false, skipped := SKIPPED)
    else p.(gogc := -1, gogcText := "off", gogcApplied := true, skipped := "")
  }

  /** What a GC profile adds to a plan. */
  function WithProfileGOGC(p: Plan, profile: Profile, liveHeap: int): (q: Plan)
    ensures SameMemory(p, q)
  {
    match profile
    case LatencyCritical => p.(gogc := 75, gogcText := "75", gogcApplied := true)
    case MemoryConstrained => p.(gogc := 40, gogcText := "40", gogcApplied := true)
    case BatchETL => WithBatchGOGC(p, p.memBytes)
    case Adaptive =>
      if liveHeap > 0 && p.memBytes > 0 then
        var g := CalculateAdaptiveGOGC(p.memBytes, liveHeap);
        if g.Some? then p.(gogc := g.value, gogcText := Print(g.value), gogcApplied := true) else p
      else p
    case Default => p
  }

  function Constraining(l: Limits): string {
    if l.HasMemoryHigh() && (!l.HasMemoryLimit() || l.memoryHigh < l.memoryLimit) then "high"
    else if l.HasMemoryLimit() then "max"
    else ""
  }

  /** The memory part of the plan. */
  function WithMemory(p: Plan, l: Limits, minHeadroom: int): (q: Plan)
    ensures q.profile == p.profile && q.gogcText == p.gogcText && q.gogcApplied == p.gogcApplied
  {
    var (ceiling, finite) := l.EffectiveMemoryLimit();
    var p1 := if finite && ceiling == 0 then p.(memText := "0B", constraining := Constraining(l)) else p;
    var usable := RetainedMemoryLimit(ceiling, l.retained);
    var budget := if usable > 0 then CalculateGOMEMLIMIT(usable, p.ratio, minHeadroom) else None;
    if budget.Some? then
      p1.(memBytes := budget.value, memText := Print(budget.value) + "B",
          constraining := if Constraining(l) == "" then "max" else Constraining(l))
    else p1
  }

  function WithCPU(p: Plan, l: Limits): (q: Plan)
    ensures SameMemory(p, q) && q.gogcText == p.gogcText && q.gogcApplied == p.gogcApplied
  {
    if l.cpus > 0 then p.(procs := l.cpus, procsText := Print(l.cpus))
    else
      var cpus := CalculateGOMAXPROCS(l.cpuQuota);
      if cpus.Some? then p.(procs := cpus.value, procsText := Print(cpus.value)) else p
  }

  /** The plan for given limits and settings. */
  function PlanFor(l: Limits, env: Option<real>, defaultRatio: real, minHeadroom: int, profile: Profile,
                   liveHeap: int): Plan {
    var start := Plan(0, "", "", 0, "", ResolveRatio(env, defaultRatio, profile), 0, "", profile, false, "");
    WithProfileGOGC(WithCPU(WithMemory(start, l, minHeadroom), l), profile, liveHeap)
  }

  /** The memory step alone. */
  lemma MemoryFitsCeiling(p: Plan, l: Limits, minHeadroom: int)
    requires p.memBytes == 0
    ensures
      var plan := WithMemory(p, l, minHeadroom);
      var ceiling := l.EffectiveMemoryLimit().0;
      plan.memBytes > 0 ==>
        && l.retained >= 0 && plan.memBytes < UNLIMITED_THRESHOLD
        && plan.memText == Print(plan.memBytes) + "B"
        && plan.memBytes + l.retained + Reserved(ceiling - l.retained, Headroom(minHeadroom)) <= ceiling
  {
    hide CalculateGOMEMLIMIT, Reserved, Headroom, Print;
    BudgetLeavesHeadroom(RetainedMemoryLimit(l.EffectiveMemoryLimit().0, l.retained), p.ratio, minHeadroom);
  }

  /** A positive planned budget, with what the executable retains and the headroom, fits under the effective ceiling. */
  lemma PlanFitsCeiling(l: Limits, env: Option<real>, defaultRatio: real, minHeadroom: int, profile: Profile,
                        liveHeap: int)
    ensures
      var plan := PlanFor(l, env, defaultRatio, minHeadroom, profile, liveHeap);
      var ceiling := l.EffectiveMemoryLimit().0;
      plan.memBytes > 0 ==>
        && l.retained >= 0 && plan.memBytes < UNLIMITED_THRESHOLD
        && plan.memText == Print(plan.memBytes) + "B"
        && plan.memBytes + l.retained + Reserved(ceiling - l.retained, Headroom(minHeadroom)) <= ceiling
  {
    var start := Plan(0, "", "", 0, "", ResolveRatio(env, defaultRatio, profile), 0, "", profile, false, "");
    MemoryFitsCeiling(start, l, minHeadroom);
    hide WithMemory, WithCPU, WithProfileGOGC, Reserved, Print;
  }

  lemma NothingAffordable(ceiling: int, ratio: real, minHeadroom: int, v: int)
    requires ceiling <= 0
    ensures !Affordable(v, ceiling, ratio, minHeadroom)
  {
  }

  lemma RatioKept(p: Plan, l: Limits, profile: Profile, liveHeap: int)
    ensures WithProfileGOGC(WithCPU(p, l), profile, liveHeap).ratio == p.ratio
  {
  }

  lemma MemoryKeepsRest(p: Plan, l: Limits, minHeadroom: int)
    ensures var q := WithMemory(p, l, minHeadroom);
      q.gogc == p.gogc && q.skipped == p.skipped && q.procs == p.procs && q.procsText == p.procsText
  {
  }

  /** What the effective ceiling affords besides the retained executable. */
  predicate AffordableUnder(v: int, l: Limits, ratio: real, minHeadroom: int) {
    l.retained >= 0 && Affordable(v, l.EffectiveMemoryLimit().0 - l.retained, ratio, minHeadroom)
  }

  lemma MemoryIsGreatest(p: Plan, l: Limits, minHeadroom: int, v: int)
    requires p.memBytes == 0 && p.memText == "" && ValidRatio(p.ratio) && v > 0
    ensures
      var plan := WithMemory(p, l, minHeadroom);
      var (ceiling, finite) := l.EffectiveMemoryLimit();
      && plan.ratio == p.ratio && plan.memBytes >= 0
      && (v <= plan.memBytes <==> AffordableUnder(v, l, p.ratio, minHeadroom))
      && plan.memText == (if plan.memBytes > 0 then Print(plan.memBytes) + "B"
                          else if finite && ceiling == 0 then "0B" else "")
  {
    hide CalculateGOMEMLIMIT, Affordable, Print;
    BudgetExact(RetainedMemoryLimit(l.EffectiveMemoryLimit().0, l.retained), p.ratio, minHeadroom, v);
    if l.EffectiveMemoryLimit().0 <= l.retained {
      NothingAffordable(l.EffectiveMemoryLimit().0 - l.retained, p.ratio, minHeadroom, v);
    }
  }

  /**
   The planned budget is the greatest amount that the ceiling affords besides what the executable retains. A valid
   override of the ratio wins; else the memory-constrained profile turns the default of 0.9 into 0.8; else a valid
   default counts, and 0.9 otherwise. The text is the budget in bytes, or "0B" for a ceiling of zero.
   */
  lemma PlanIsGreatest(l: Limits, env: Option<real>, defaultRatio: real, minHeadroom: int, profile: Profile,
                       liveHeap: int, v: int)
    requires v > 0
    ensures
      var plan := PlanFor(l, env, defaultRatio, minHeadroom, profile, liveHeap);
      var (ceiling, finite) := l.EffectiveMemoryLimit();
      && plan.ratio == (if env.Some? && 0.0 < env.value <= 1.0 then env.value
                        else if profile.MemoryConstrained? && defaultRatio == 0.9 then 0.8
                        else if 0.0 < defaultRatio <= 1.0 then defaultRatio else 0.9)
      && plan.memBytes >= 0
      && (v <= plan.memBytes <==> AffordableUnder(v, l, plan.ratio, minHeadroom))
      && plan.memText == (if plan.memBytes > 0 then Print(plan.memBytes) + "B"
                          else if finite && ceiling == 0 then "0B" else "")
  {
    var start := Plan(0, "", "", 0, "", ResolveRatio(env, defaultRatio, profile), 0, "", profile, false, "");
    MemoryIsGreatest(start, l, minHeadroom, v);
    RatioKept(WithMemory(start, l, minHeadroom), l, profile, liveHeap);
    hide WithMemory, WithCPU, WithProfileGOGC, AffordableUnder, Print;
  }

  /** The processors: the recorded count if positive, else the whole part of the quota, else none. */
  lemma ProcessorsExact(l: Limits, env: Option<real>, defaultRatio: real, minHeadroom: int, profile: Profile,
                        liveHeap: int)
    ensures
      var plan := PlanFor(l, env, defaultRatio, minHeadroom, profile, liveHeap);
      && (l.cpus > 0 ==> plan.procs == l.cpus)
      && (l.cpus <= 0 && l.cpuQuota > 0.0 ==> WholeProcessors(plan.procs, l.cpuQuota))
      && (l.cpus <= 0 && l.cpuQuota <= 0.0 ==> plan.procs == 0)
      && plan.procsText == if plan.procs > 0 then Print(plan.procs) else ""
  {
    var start := Plan(0, "", "", 0, "", ResolveRatio(env, defaultRatio, profile), 0, "", profile, false, "");
    MemoryKeepsRest(start, l, minHeadroom);
    hide WithMemory, Print, CalculateAdaptiveGOGC;
  }

  lemma LaterStepsKeepConstraint(p: Plan, l: Limits, profile: Profile, liveHeap: int)
    ensures WithProfileGOGC(WithCPU(p, l), profile, liveHeap).constraining == p.constraining
  {
  }

  /** A plan with a memory text names the boundary that is the ceiling, `memory.max` where both are. */
  lemma ConstraintIsTheCeiling(l: Limits, env: Option<real>, defaultRatio: real, minHeadroom: int, profile: Profile,
                               liveHeap: int)
    ensures
      var plan := PlanFor(l, env, defaultRatio, minHeadroom, profile, liveHeap);
      var ceiling := l.EffectiveMemoryLimit().0;
      && (plan.memText == "" ==> plan.constraining == "")
      && (plan.memText != "" ==> plan.constraining == "high" || plan.constraining == "max")
      && (Consistent(l) && plan.constraining == "max" ==> l.HasMemoryLimit() && ceiling == l.memoryLimit)
      && (Consistent(l) && plan.constraining == "high" ==>
            l.HasMemoryHigh() && ceiling == l.memoryHigh && !(l.HasMemoryLimit() && ceiling == l.memoryLimit))
  {
    var start := Plan(0, "", "", 0, "", ResolveRatio(env, defaultRatio, profile), 0, "", profile, false, "");
    LaterStepsKeepConstraint(WithMemory(start, l, minHeadroom), l, profile, liveHeap);
    hide WithCPU, WithProfileGOGC, CalculateGOMEMLIMIT, Print, ResolveRatio;
  }

  /** The nearest whole number to a real that lies in a range, else the nearer end of the range. */
  predicate NearestIn(g: int, x: real, lo: int, hi: int) {
    && lo <= g <= hi
    && (x > lo as real ==> g as real - 0.5 <= x || g == hi)
    && (x < hi as real ==> x < g as real + 0.5 || g == lo)
    && (x <= lo as real ==> g == lo) && (x >= hi as real ==> g == hi)
  }

  /**
   The collector's target by profile: fixed numbers, off for a batch job with a budget, and for the adaptive profile
   the budget over the live heap minus one, in percent, rounded and kept between 10 and 100.
   */
  lemma CollectorExact(l: Limits, env: Option<real>, defaultRatio: real, minHeadroom: int, profile: Profile,
                       liveHeap: int)
    ensures
      var plan := PlanFor(l, env, defaultRatio, minHeadroom, profile, liveHeap);
      && (profile.LatencyCritical? ==> plan.gogcApplied && plan.gogc == 75 && plan.gogcText == "75")
      && (profile.MemoryConstrained? ==> plan.gogcApplied && plan.gogc == 40 && plan.gogcText == "40")
      && (profile.BatchETL? && plan.memBytes > 0 ==> plan.gogcApplied && plan.gogc == -1 && plan.gogcText == "off")
      && (profile.Adaptive? && liveHeap > 0 && plan.memBytes > 0 ==>
            && plan.gogcApplied && plan.gogcText == FormatInt(plan.gogc)
            && NearestIn(plan.gogc, (plan.memBytes as real / liveHeap as real - 1.0) * 100.0, 10, 100))
      && (profile.Default? || (profile.Adaptive? && liveHeap <= 0) || (!profile.LatencyCritical? &&
            !profile.MemoryConstrained? && plan.memBytes <= 0) ==>
            !plan.gogcApplied && plan.gogc == 0 && plan.gogcText == "")
      && (plan.skipped != "" <==> profile.BatchETL? && plan.memBytes <= 0)
  {
    var start := Plan(0, "", "", 0, "", ResolveRatio(env, defaultRatio, profile), 0, "", profile, false, "");
    MemoryFitsCeiling(start, l, minHeadroom);
    MemoryKeepsRest(start, l, minHeadroom);
    hide WithMemory, Print, ResolveRatio;
  }

  /** Only the batch profile turns periodic collection off, and only with a budget of its own. */
  lemma NeverOffOutsideBatch(l: Limits, env: Option<real>, defaultRatio: real, minHeadroom: int, profile: Profile,
                             liveHeap: int)
    ensures
      var plan := PlanFor(l, env, defaultRatio, minHeadroom, profile, liveHeap);
      && plan.profile == profile
      && (plan.gogcText == "off" ==> profile.BatchETL? && 0 < plan.memBytes && plan.memBytes != MAX_INT64)
  {
    hide WithMemory, CalculateAdaptiveGOGC;
  }

  /** The plan as the resolver builds it, field by field. */
  class TuningPlan {
    var memBytes: int
    var memText: string
    var constraining: string
    var procs: int
    var procsText: string
    var ratio: real
    var gogc: int
    var gogcText: string
    var profile: Profile
    var gogcApplied: bool
    var skipped: string

    function Contents(): Plan
      reads this
    {
      Plan(memBytes, memText, constraining, procs, procsText, ratio, gogc, gogcText, profile, gogcApplied, skipped)
    }

    /** `ResolveTuningPlanWithProfile` */
    constructor Resolve(l: Limits, env: Option<real>, defaultRatio: real, minHeadroom: int, profile: Profile,
                        liveHeap: int)
      ensures Contents() == PlanFor(l, env, defaultRatio, minHeadroom, profile, liveHeap)
      ensures memBytes > 0 ==>
        var ceiling := l.EffectiveMemoryLimit().0;
        memBytes + l.retained + Reserved(ceiling - l.retained, Headroom(minHeadroom)) <= ceiling
      ensures forall v: int :: v > 0 ==> (v <= memBytes <==> AffordableUnder(v, l, ratio, minHeadroom))
      ensures gogcText == "off" ==> profile.BatchETL? && 0 < memBytes < MAX_INT64
    {
      memBytes, memText, constraining, procs, procsText := 0, "", "", 0, "";
      gogc, gogcText, gogcApplied, skipped := 0, "", false, "";
      this.profile, this.ratio := profile, ResolveRatio(env, defaultRatio, profile);
      new;
      PlanMemory(l, minHeadroom);
      PlanCPU(l);
      ApplyProfileGOGC(profile, liveHeap);
      PlanFitsCeiling(l, env, defaultRatio, minHeadroom, profile, liveHeap);
      forall v: int | v > 0 ensures v <= memBytes <==> AffordableUnder(v, l, ratio, minHeadroom) {
        PlanIsGreatest(l, env, defaultRatio, minHeadroom, profile, liveHeap, v);
      }
      NeverOffOutsideBatch(l, env, defaultRatio, minHeadroom, profile, liveHeap);
      hide WithMemory, WithCPU, WithProfileGOGC, Reserved, Headroom, AffordableUnder;
    }

    method PlanMemory(l: Limits, minHeadroom: int)
      modifies this
      ensures Contents() == WithMemory(old(Contents()), l, minHeadroom)
    {
      var (ceiling, finite) := l.EffectiveMemoryLimit();
      if finite && ceiling == 0 {
        memText := "0B";
        constraining := Constraining(l);
      }
      var usable := RetainedMemoryLimit(ceiling, l.retained);
      if usable > 0 {
        var budget := CalculateGOMEMLIMIT(usable, ratio, minHeadroom);
        if budget.Some? {
          memBytes := budget.value;
          memText := Print(budget.value) + "B";
          constraining := Constraining(l);
          if constraining == "" {
            constraining := "max";
          }
        }
      }
    }

    method PlanCPU(l: Limits)
      modifies this
      ensures Contents() == WithCPU(old(Contents()), l)
    {
      if l.cpus > 0 {
        procs, procsText := l.cpus, Print(l.cpus);
      } else {
        var cpus := CalculateGOMAXPROCS(l.cpuQuota);
        if cpus.Some? {
          procs, procsText := cpus.value, Print(cpus.value);
        }
      }
    }

    /** `applyProfileGOGC` */
    method ApplyProfileGOGC(profile: Profile, liveHeap: int)
      modifies this
      ensures Contents() == WithProfileGOGC(old(Contents()), profile, liveHeap)
    {
      match profile {
        case LatencyCritical =>
          gogc, gogcText, gogcApplied := 75, "75", true;
        case MemoryConstrained =>
          gogc, gogcText, gogcApplied := 40, "40", true;
        case BatchETL =>
          ResolveBatchGOGC(memBytes);
        case Adaptive =>
          if liveHeap > 0 && memBytes > 0 {
            var g := CalculateAdaptiveGOGC(memBytes, liveHeap);
            if g.Some? {
              gogc, gogcText, gogcApplied := g.value, Print(g.value), true;
            }
          }
        case Default =>
      }
    }

    /** `ResolveBatchGOGC` */
    method ResolveBatchGOGC(memoryLimit: int)
      modifies this
      ensures Contents() == WithBatchGOGC(old(Contents()), memoryLimit)
      ensures profile.BatchETL? ==> (gogcText == "off" <==> 0 < memoryLimit && memoryLimit != MAX_INT64)
    {
      if profile != BatchETL { return; }
      if memoryLimit <= 0 || memoryLimit == MAX_INT64 {
        gogc, gogcText, gogcApplied := 0, "", false;
        skipped := SKIPPED;
        return;
      }
      gogc, gogcText, gogcApplied := -1, "off", true;
      skipped := "";
    }

    /** `ApplyCPUPolicy`: the native policy leaves the processor count to the runtime. */
    method ApplyCPUPolicy(native: bool)
      modifies this
      ensures Contents() == if native then old(Contents()).(procs := 0, procsText := "") else old(Contents())
    {
      if native { procs, procsText := 0, ""; }
    }
  }

  lemma RetainedKeepsCeiling(l: Limits, retained: int)
    ensures l.(retained := retained).EffectiveMemoryLimit() == l.EffectiveMemoryLimit()
  {
  }

  /**
   Conservation over the whole hierarchy: a positive planned budget, the retained executable and the reserved
   headroom together fit under every finite `memory.max` and `memory.high` from the target up to the root.
   */
  lemma BudgetFitsEveryBoundary(l: Limits, retained: int, target: Path, root: Path, max: Path -> File,
                                high: Path -> File, env: Option<real>, defaultRatio: real, minHeadroom: int,
                                profile: Profile, liveHeap: int, p: Path)
    requires WellFormed(target) && WellFormed(root) && root <= target
    requires DescribesHierarchy(l, Chain(target, root), max, high)
    requires root <= p <= target
    ensures
      var plan := PlanFor(l.(retained := retained), env, defaultRatio, minHeadroom, profile, liveHeap);
      var usable := l.EffectiveMemoryLimit().0 - retained;
      var needed := plan.memBytes + retained + Reserved(usable, Headroom(minHeadroom));
      plan.memBytes > 0 ==>
        && retained >= 0
        && (ReadMemoryValue(max(p)).Limit? ==> needed <= ReadMemoryValue(max(p)).bytes)
        && (ReadMemoryValue(high(p)).Limit? ==> needed <= ReadMemoryValue(high(p)).bytes)
  {
    hide PlanFor, ReadMemoryValue, Chain, Reserved, Headroom, WellFormed;
    ChainIsAncestry(target, root, p);
    PlanFitsCeiling(l.(retained := retained), env, defaultRatio, minHeadroom, profile, liveHeap);
    RetainedKeepsCeiling(l, retained);
  }

  // ---------------------------------------------------------------- the text of GOMEMLIMIT

  predicate HasSuffix(s: string, suffix: string) {
    |suffix| <= |s| && s[|s| - |suffix|..] == suffix
  }

  function TrimSuffix(s: string, suffix: string): string {
    if HasSuffix(s, suffix) then s[..|s| - |suffix|] else s
  }

  const SUFFIXES: seq<string> := ["B", "KiB", "MiB", "GiB", "TiB"]

  /** What a `GOMEMLIMIT` value means: its number of units and the unit's exponent. */
  function UnitOf(value: string): (string, nat) {
    if HasSuffix(value, "KiB") then (TrimSuffix(value, "KiB"), 1)
    else if HasSuffix(value, "MiB") then (TrimSuffix(value, "MiB"), 2)
    else if HasSuffix(value, "GiB") then (TrimSuffix(value, "GiB"), 3)
    else if HasSuffix(value, "TiB") then (TrimSuffix(value, "TiB"), 4)
    else if HasSuffix(value, "B") && !HasSuffix(value, "iB") then (TrimSuffix(value, "B"), 0)
    else (value, 0)
  }

  /** The finite limit that a value denotes, or zero. */
  function RuntimeLimit(value: string): (n: int)
    ensures 0 <= n < MAX_INT64
  {
    var (number, unit) := UnitOf(value);
    var count := ParseInt64(number);
    if count.Some? && count.value > 0 && count.value * Pow1024(unit) < MAX_INT64 then count.value * Pow1024(unit) else 0
  }

  /** At most one suffix of the table matches. */
  lemma SuffixesExclude(value: string, i: int)
    requires 0 <= i < 5 && HasSuffix(value, SUFFIXES[i]) && (i == 0 ==> !HasSuffix(value, "iB"))
    ensures UnitOf(value) == (TrimSuffix(value, SUFFIXES[i]), i)
  {
  }

  lemma DivisionGuard(n: int, m: int)
    requires n > 0 && m > 0
    ensures n > MAX_INT64 / m <==> n * m > MAX_INT64
  {
    var q := MAX_INT64 / m;
    assert q * m <= MAX_INT64 < (q + 1) * m;
    if n > q {
      assert n * m >= (q + 1) * m;
    } else {
      assert n * m <= q * m;
    }
  }

  /** `RuntimeMemoryLimit`: the loop over suffixes and the overflow-free range check compute `RuntimeLimit`. */
  method RuntimeMemoryLimit(value: string) returns (n: int)
    ensures n == RuntimeLimit(value)
  {
    hide HasSuffix, TrimSuffix, ParseInt64;
    var number, multiplier, exponent := value, 1, 0;
    for i := 0 to 5
      invariant number == value && multiplier == 1 && exponent == 0
      invariant i >= 1 ==> !(HasSuffix(value, "B") && !HasSuffix(value, "iB"))
      invariant i >= 2 ==> !HasSuffix(value, "KiB")
      invariant i >= 3 ==> !HasSuffix(value, "MiB")
      invariant i >= 4 ==> !HasSuffix(value, "GiB")
      invariant i >= 5 ==> !HasSuffix(value, "TiB")
    {
      var suffix := SUFFIXES[i];
      if HasSuffix(value, suffix) && (suffix != "B" || !HasSuffix(value, "iB")) {
        SuffixesExclude(value, i);
        number := TrimSuffix(value, suffix);
        for k := 0 to i
          invariant multiplier == Pow1024(k)
        {
          multiplier := multiplier * 1024;
        }
        exponent := i;
        break;
      }
    }
    assert (number, exponent) == UnitOf(value) && multiplier == Pow1024(exponent);
    hide UnitOf, Pow1024;
    var count := ParseInt64(number);
    if count.None? || count.value <= 0 {
      return 0;
    }
    DivisionGuard(count.value, multiplier);
    if count.value > MAX_INT64 / multiplier || count.value * multiplier == MAX_INT64 {
      return 0;
    }
    return count.value * multiplier;
  }

  lemma NotSuffix(s: string, t: string, k: nat)
    requires k < |s| && k < |t| && s[|s| - 1 - k] != t[|t| - 1 - k]
    ensures !HasSuffix(s, t)
  {
  }

  /** A printed budget reads back as itself. */
  lemma PrintedLimitParses(n: int)
    requires 0 < n < MAX_INT64
    ensures RuntimeLimit(Print(n) + "B") == n
  {
    var s := Print(n) + "B";
    assert IsDigit(s[|s| - 2]);
    NotSuffix(s, "KiB", 1);
    NotSuffix(s, "MiB", 1);
    NotSuffix(s, "GiB", 1);
    NotSuffix(s, "TiB", 1);
    NotSuffix(s, "iB", 1);
    assert s[|s| - 1..] == "B" && TrimSuffix(s, "B") == Print(n);
    ParseOfFormat(n);
    assert UnitOf(s) == (Print(n), 0);
  }
}
