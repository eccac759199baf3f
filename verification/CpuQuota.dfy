/**
 The CPU quota in force for a control group: the tightest quota/period pair between the group and the hierarchy root,
 compared exactly through 128-bit products.
 */
module CpuQuota {
  import opened Basics
  import opened Decimal
  import opened Hierarchy

  /** The `cpu.max` file of cgroup v2, its line split into fields. */
  datatype MaxFile = NoMax | UnreadableMax | Fields(fields: seq<string>)

  /** What one directory says about CPU time. */
  datatype Reading = Absent | Unlimited(period: int64) | Quota(quota: int64, period: int64) | Broken

  function Positive(s: string): Option<int64> {
    var n := ParseInt64(s);
    if n.Some? && n.value > 0 then n else None
  }

  function ReadV2(f: MaxFile): (r: Reading)
    ensures r.Quota? ==> r.quota > 0 && r.period > 0
  {
    match f
    case NoMax => Absent
    case UnreadableMax => Broken
    case Fields(fields) =>
      if |fields| != 2 then Broken
      else
        var period := Positive(fields[1]);
        if period.None? then Broken
        else if fields[0] == "max" || fields[0] == "" then Unlimited(period.value)
        else
          var quota := Positive(fields[0]);
          if quota.None? then Broken else Quota(quota.value, period.value)
  }

  /** A finite v1 quota is only meaningful beside its own period. */
  function ReadV1(periodFile: File, quotaFile: File): (r: Reading)
    ensures r.Quota? ==> r.quota > 0 && r.period > 0
  {
    var period := if periodFile.Line? then Positive(periodFile.text) else None;
    if periodFile.Unreadable? || (periodFile.Line? && period.None?) || quotaFile.Unreadable? then Broken
    else if quotaFile.Missing? || quotaFile.text == "-1" || quotaFile.text == "" then
      if period.Some? then Unlimited(period.value) else Absent
    else
      var quota := Positive(quotaFile.text);
      if quota.None? || period.None? then Broken else Quota(quota.value, period.value)
  }

  lemma PositiveExact(n: int64)
    ensures Positive(FormatInt(n)) == if n > 0 then Some(n) else None
    ensures FormatInt(n) != "" && FormatInt(n)[0] != 'm' && (FormatInt(n) == "-1" <==> n == -1)
  {
    ParseOfFormat(n);
    ParseOfFormat(-1);
    assert FormatInt(-1) == "-" + Print(1) == "-1";
  }

  /** A printed pair reads as itself; "max" or an empty quota is no limit; whatever is not positive is malformed. */
  lemma ReadV2Exact(q: int64, p: int64, fields: seq<string>)
    ensures ReadV2(Fields([FormatInt(q), FormatInt(p)])) == if q > 0 && p > 0 then Quota(q, p) else Broken
    ensures ReadV2(Fields(["max", FormatInt(p)])) == ReadV2(Fields(["", FormatInt(p)]))
         == if p > 0 then Unlimited(p) else Broken
    ensures |fields| != 2 || ParseInt64(fields[1]).None? ==> ReadV2(Fields(fields)) == Broken
    ensures ReadV2(NoMax) == Absent && ReadV2(UnreadableMax) == Broken
  {
    PositiveExact(q);
    PositiveExact(p);
    hide FormatInt, ParseInt64;
  }

  /** The same of the two v1 files, where -1 is no limit and a limit needs its own period. */
  lemma ReadV1Exact(q: int64, p: int64)
    requires p > 0
    ensures var period, quota := Line(FormatInt(p)), Line(FormatInt(q));
      && ReadV1(period, quota) == (if q == -1 then Unlimited(p) else if q > 0 then Quota(q, p) else Broken)
      && ReadV1(period, Missing) == ReadV1(period, Line("")) == Unlimited(p)
      && ReadV1(Missing, quota) == (if q == -1 then Absent else Broken)
    ensures ReadV1(Missing, Missing) == Absent
    ensures ReadV1(Unreadable, Line(FormatInt(q))) == ReadV1(Line(FormatInt(p)), Unreadable) == Broken
    ensures q <= 0 ==> ReadV1(Line(FormatInt(q)), Line(FormatInt(p))) == Broken
  {
    PositiveExact(q);
    PositiveExact(p);
    hide FormatInt, ParseInt64;
  }

  // ---------------------------------------------------------------- comparing quotas

  lemma ProductBound(a: int, b: int, w: int)
    requires 0 <= a && 0 <= b <= w
    ensures 0 <= a * b <= a * w
  {
    assert a * w == a * b + a * (w - b);
  }

  lemma QuotientBound(p: int, a: int, w: int)
    requires 0 <= p <= a * w && w > 0
    ensures 0 <= p / w <= a
  {
    var q, r := p / w, p % w;
    assert p == q * w + r && 0 <= r;
    Spaced(a, q, w);
  }

  /** `bits.Mul64` */
  function Mul64(x: uint64, y: uint64): (r: (uint64, uint64))
    ensures x as int * y as int == r.0 as int * TWO_64 + r.1 as int
  {
    var p := x as int * y as int;
    ProductBound(x as int, y as int, TWO_64);
    QuotientBound(p, x as int, TWO_64);
    ((p / TWO_64) as uint64, (p % TWO_64) as uint64)
  }

  /** `tighterCPUQuota`: the exact order of the two rationals. */
  predicate TighterCPUQuota(quota: int64, period: int64, previousQuota: int64, previousPeriod: int64)
    requires quota > 0 && period > 0 && previousQuota > 0 && previousPeriod > 0
    ensures TighterCPUQuota(quota, period, previousQuota, previousPeriod)
       <==> quota * previousPeriod < previousQuota * period
  {
    var (hi, lo) := Mul64(quota as uint64, previousPeriod as uint64);
    var (previousHi, previousLo) := Mul64(previousQuota as uint64, period as uint64);
    hi < previousHi || (hi == previousHi && lo < previousLo)
  }

  /** q/p < b/d and b/d <= x/y give q/p <= x/y. */
  lemma TighterThanAll(q: int, p: int, b: int, d: int, x: int, y: int)
    requires q > 0 && p > 0 && b > 0 && d > 0 && x > 0 && y > 0
    requires q * d <= b * p && b * y <= x * d
    ensures q * y <= x * p
  {
  }

  // ---------------------------------------------------------------- the tightest pair of a hierarchy

  ghost predicate Intact(dirs: seq<Path>, read: Path -> Reading) {
    forall p :: p in dirs ==> !read(p).Broken?
  }

  /** One directory's own pair, at most every finite pair of `dirs` as an exact ratio. */
  ghost predicate Tightest(quota: int64, period: int64, dirs: seq<Path>, read: Path -> Reading) {
    && (exists p :: p in dirs && read(p) == Quota(quota, period))
    && (forall p :: p in dirs && read(p).Quota? ==> quota * read(p).period <= read(p).quota * period)
  }

  ghost predicate NoneFinite(dirs: seq<Path>, read: Path -> Reading) {
    forall p :: p in dirs ==> !read(p).Quota?
  }

  /** The period nearest to the target. */
  ghost function NearestPeriod(dirs: seq<Path>, read: Path -> Reading): Option<int64> {
    if dirs == [] then None
    else if read(dirs[0]).Unlimited? || read(dirs[0]).Quota? then Some(read(dirs[0]).period)
    else NearestPeriod(dirs[1..], read)
  }

  /** What a traversal has established after visiting `dirs`. */
  ghost predicate Found(quota: int64, period: Option<int64>, has: bool, dirs: seq<Path>, read: Path -> Reading) {
    && Intact(dirs, read)
    && (has ==> period.Some? && Tightest(quota, period.value, dirs, read))
    && (!has ==> quota == 0 && NoneFinite(dirs, read) && period == NearestPeriod(dirs, read))
  }

  ghost predicate ReadsPositive(read: Path -> Reading) {
    forall p :: read(p).Quota? ==> read(p).quota > 0 && read(p).period > 0
  }

  lemma {:induction false} NearestAppend(dirs: seq<Path>, p: Path, read: Path -> Reading)
    ensures NearestPeriod(dirs + [p], read)
         == if NearestPeriod(dirs, read).Some? then NearestPeriod(dirs, read) else NearestPeriod([p], read)
  {
    if dirs == [] {
      assert dirs + [p] == [p];
    } else {
      assert (dirs + [p])[1..] == dirs[1..] + [p];
      NearestAppend(dirs[1..], p, read);
    }
  }

  /** The state after one more directory. */
  function Step(quota: int64, period: Option<int64>, has: bool, r: Reading): (int64, Option<int64>, bool)
    requires has ==> quota > 0 && period.Some? && period.value > 0
    requires r.Quota? ==> r.quota > 0 && r.period > 0
  {
    match r
    case Unlimited(p) => (quota, if period.None? then Some(p) else period, has)
    case Quota(q, p) =>
      if !has || TighterCPUQuota(q, p, quota, period.value) then (q, Some(p), true) else (quota, period, has)
    case _ => (quota, period, has)
  }

  lemma FoundPositive(quota: int64, period: Option<int64>, has: bool, dirs: seq<Path>, read: Path -> Reading)
    requires Found(quota, period, has, dirs, read) && ReadsPositive(read)
    ensures has ==> quota > 0 && period.Some? && period.value > 0
  {
  }

  lemma StepKeepsTightest(quota: int64, period: int64, dirs: seq<Path>, p: Path, read: Path -> Reading)
    requires ReadsPositive(read) && quota > 0 && period > 0 && Tightest(quota, period, dirs, read)
    ensures var (q', p', _) := Step(quota, Some(period), true, read(p));
      p'.Some? && Tightest(q', p'.value, dirs + [p], read)
  {
    var (q', p', _) := Step(quota, Some(period), true, read(p));
    if read(p).Quota? && TighterCPUQuota(read(p).quota, read(p).period, quota, period) {
      assert p in dirs + [p];
      forall d | d in dirs + [p] && read(d).Quota? ensures q' * read(d).period <= read(d).quota * p'.value {
        if d in dirs { TighterThanAll(q', p'.value, quota, period, read(d).quota, read(d).period); }
      }
    } else {
      var w :| w in dirs && read(w) == Quota(quota, period);
      assert w in dirs + [p];
    }
  }

  lemma StepKeepsFound(quota: int64, period: Option<int64>, has: bool, dirs: seq<Path>, p: Path, read: Path -> Reading)
    requires ReadsPositive(read) && Found(quota, period, has, dirs, read) && !read(p).Broken?
    requires has ==> quota > 0 && period.Some? && period.value > 0
    ensures var (q', p', has') := Step(quota, period, has, read(p)); Found(q', p', has', dirs + [p], read)
  {
    NearestAppend(dirs, p, read);
    if has {
      StepKeepsTightest(quota, period.value, dirs, p, read);
    } else if read(p).Quota? {
      assert p in dirs + [p];
      assert Tightest(read(p).quota, read(p).period, dirs + [p], read);
    }
  }

  datatype Answer = Answer(quota: int64, period: Option<int64>, has: bool)

  /** What every directory of a hierarchy says, read by either version's rules. */
  ghost function ReaderV2(max: Path -> MaxFile): (read: Path -> Reading)
    ensures forall p :: read(p) == ReadV2(max(p))
  {
    (p: Path) => ReadV2(max(p))
  }

  ghost function ReaderV1(periods: Path -> File, quotas: Path -> File): (read: Path -> Reading)
    ensures forall p :: read(p) == ReadV1(periods(p), quotas(p))
  {
    (p: Path) => ReadV1(periods(p), quotas(p))
  }

  lemma V2ReadsPositive(max: Path -> MaxFile)
    ensures ReadsPositive(ReaderV2(max))
  {
    hide ReadV2, ReaderV2;
    forall p ensures var r := ReaderV2(max)(p); r.Quota? ==> r.quota > 0 && r.period > 0 {
      assert ReaderV2(max)(p) == ReadV2(max(p));
    }
  }

  lemma V1ReadsPositive(periods: Path -> File, quotas: Path -> File)
    ensures ReadsPositive(ReaderV1(periods, quotas))
  {
    hide ReadV1, ReaderV1;
    forall p ensures var r := ReaderV1(periods, quotas)(p); r.Quota? ==> r.quota > 0 && r.period > 0 {
      assert ReaderV1(periods, quotas)(p) == ReadV1(periods(p), quotas(p));
    }
  }

  lemma FoundNothing(read: Path -> Reading)
    ensures Found(0, None, false, [], read)
  {
  }

  lemma FoundIntact(quota: int64, period: Option<int64>, has: bool, dirs: seq<Path>, read: Path -> Reading)
    requires Found(quota, period, has, dirs, read)
    ensures Intact(dirs, read)
  {
  }

  /** `traverseCgroupV2CPUMax`: an error exactly when some visited directory is broken. */
  method TraverseV2CPUMax(target: Path, root: Path, max: Path -> MaxFile) returns (r: Option<Answer>)
    ensures r.Some? <==> Intact(Chain(target, root), ReaderV2(max))
    ensures r.Some? ==> Found(r.value.quota, r.value.period, r.value.has, Chain(target, root), ReaderV2(max))
  {
    hide Found, ReadV2, ReaderV2, Chain, IsSubpath, TighterCPUQuota, ReadsPositive;
    ghost var read := ReaderV2(max);
    V2ReadsPositive(max);
    FoundNothing(read);
    var quota: int64, period: Option<int64>, has := 0, None, false;
    var curr := target;
    ghost var seen: seq<Path> := [];
    while true
      invariant seen + Chain(curr, root) == Chain(target, root)
      invariant Found(quota, period, has, seen, read)
      decreases |curr|
    {
      ChainStep(target, root, seen, curr);
      FoundPositive(quota, period, has, seen, read);
      var reading := ReadV2(max(curr));
      if reading.Broken? { return None; }
      StepKeepsFound(quota, period, has, seen, curr, read);
      if reading.Unlimited? || reading.Quota? {
        if period.None? { period := Some(reading.period); }
        if reading.Quota? && (!has || TighterCPUQuota(reading.quota, reading.period, quota, period.value)) {
          quota, period, has := reading.quota, Some(reading.period), true;
        }
      }
      seen := seen + [curr];
      if curr == root { break; }
      var parent := Parent(curr);
      if parent == curr || !IsSubpath(root, parent) { break; }
      curr := parent;
    }
    FoundIntact(quota, period, has, seen, read);
    return Some(Answer(quota, period, has));
  }

  /**
   One round of the v1 walk: the directory's own period first, then its quota; nothing when the directory is broken.
   */
  method VisitV1(periodFile: File, quotaFile: File, state: Answer) returns (r: Option<Answer>)
    requires state.has ==> state.quota > 0 && state.period.Some? && state.period.value > 0
    ensures var reading := ReadV1(periodFile, quotaFile);
      && (r.None? <==> reading.Broken?)
      && (r.Some? ==>
            (r.value.quota, r.value.period, r.value.has) == Step(state.quota, state.period, state.has, reading))
  {
    hide ParseInt64, TighterCPUQuota;
    var quota, period, has := state.quota, state.period, state.has;
    var currPeriod: Option<int64> := None;
    match periodFile {
      case Missing =>
      case Unreadable => return None;
      case Line(text) =>
        currPeriod := Positive(text);
        if currPeriod.None? { return None; }
        if period.None? { period := currPeriod; }
    }
    match quotaFile {
      case Missing =>
      case Unreadable => return None;
      case Line(text) =>
        if text != "-1" && text != "" {
          var parsed := Positive(text);
          if parsed.None? || currPeriod.None? { return None; }
          if !has || TighterCPUQuota(parsed.value, currPeriod.value, quota, period.value) {
            quota, period, has := parsed.value, currPeriod, true;
          }
        }
    }
    return Some(Answer(quota, period, has));
  }

  /** `traverseCgroupV1CPU`: period and quota are separate files, and a finite quota without a period is an error. */
  method TraverseV1CPU(base: Path, target: Path, periods: Path -> File, quotas: Path -> File)
    returns (r: Option<Answer>)
    ensures r.Some? <==> Intact(Chain(target, base), ReaderV1(periods, quotas))
    ensures r.Some? ==> Found(r.value.quota, r.value.period, r.value.has, Chain(target, base),
                              ReaderV1(periods, quotas))
  {
    hide Found, ReadV1, ReaderV1, Chain, IsSubpath, TighterCPUQuota, ReadsPositive, Step;
    ghost var read := ReaderV1(periods, quotas);
    V1ReadsPositive(periods, quotas);
    FoundNothing(read);
    var state := Answer(0, None, false);
    var curr := target;
    ghost var seen: seq<Path> := [];
    while true
      invariant seen + Chain(curr, base) == Chain(target, base)
      invariant Found(state.quota, state.period, state.has, seen, read)
      decreases |curr|
    {
      ChainStep(target, base, seen, curr);
      FoundPositive(state.quota, state.period, state.has, seen, read);
      var visited := VisitV1(periods(curr), quotas(curr), state);
      if visited.None? { return None; }
      StepKeepsFound(state.quota, state.period, state.has, seen, curr, read);
      state := visited.value;
      seen := seen + [curr];
      if curr == base { break; }
      var parent := Parent(curr);
      if parent == curr || !IsSubpath(base, parent) { break; }
      curr := parent;
    }
    FoundIntact(state.quota, state.period, state.has, seen, read);
    return Some(state);
  }
}
