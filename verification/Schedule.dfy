/**
 The counterbalanced trial schedule and the reference checks an experiment's schedule must pass.
 The permutations that the random source draws are arbitrary.
 */
module Schedule {
  import opened Basics
  import opened Decimal

  const MAX_TRIALS: nat := 10000

  datatype Trial = Trial(id: string, block: int, position: int, config: string)

  /** `order` lists 0..n-1 in some order. */
  predicate IsPermutation(order: seq<nat>, n: nat) {
    && |order| == n && (forall i :: 0 <= i < n ==> order[i] < n)
    && (forall i, j :: 0 <= i < j < n ==> order[i] != order[j])
  }

  /** The r-th draw, for every round. */
  type Draws = nat -> seq<nat>

  ghost predicate AllPermutations(draws: Draws, n: nat) { forall r :: IsPermutation(draws(r), n) }

  // ---------------------------------------------------------------- identifiers

  function Zeros(k: nat): (s: string)
    ensures |s| == k && AllDigits(s) && Value(s) == 0
  {
    if k == 0 then ""
    else
      var s := Zeros(k - 1) + "0";
      assert s[..k - 1] == Zeros(k - 1);
      s
  }

  /** `%06d` */
  function Padded(n: nat): (s: string)
    ensures AllDigits(s) && Value(s) == n
  {
    var digits := Print(n);
    var zeros := Zeros(if |digits| < 6 then 6 - |digits| else 0);
    ValueSplit(zeros, digits);
    zeros + digits
  }

  function TrialId(n: nat): string { "trial-" + Padded(n) }

  /** An identifier is its number behind "trial-", with zeros in front up to six digits and none beyond. */
  lemma TrialIdFormat(n: nat)
    ensures var id := TrialId(n);
      && |id| >= 12 && id[..6] == "trial-" && AllDigits(id[6..]) && Value(id[6..]) == n
      && (|id| == 12 <==> n < 1000000) && (|id| > 12 ==> id[6] != '0')
  {
    assert TrialId(n)[6..] == Padded(n) && TrialId(n)[..6] == "trial-";
    PrintLength(n, 6);
    assert Pow10(6) == 10 * Pow10(5) && Pow10(4) == 10 * Pow10(3) && Pow10(2) == 10 * Pow10(1);
  }

  lemma TrialIdInjective(m: nat, n: nat)
    requires TrialId(m) == TrialId(n)
    ensures m == n
  {
    assert TrialId(m)[6..] == Padded(m) && TrialId(n)[6..] == Padded(n);
  }

  predicate IsControl(c: char) { c < ' ' || '\U{7F}' <= c <= '\U{9F}' }

  /** `SafeReference` together with the test for a slash: for a name without one, cleaning changes nothing. */
  predicate SafeName(s: string) {
    s != "" && s != "." && s != ".." && forall i :: 0 <= i < |s| ==> s[i] != '/' && s[i] != '\\' && !IsControl(s[i])
  }

  /** A character of a name by its code: neither a separator nor one of the two control ranges. */
  predicate ProperChar(c: char) {
    c != '/' && c != '\\' && !(0 <= c as int <= 0x1F) && !(0x7F <= c as int <= 0x9F)
  }

  /** A name that stays inside its directory. */
  predicate ProperName(s: string) {
    s !in {"", ".", ".."} && forall c :: c in s ==> ProperChar(c)
  }

  lemma SafeIsProper(s: string)
    ensures SafeName(s) <==> ProperName(s)
  {
    assert forall i :: 0 <= i < |s| ==> s[i] in s;
  }

  lemma TrialIdIsProper(n: nat)
    ensures ProperName(TrialId(n))
  {
    SafeIsProper(TrialId(n));
  }

  /** `%d/%s` */
  function BlockKey(block: nat, config: string): string { Print(block) + "/" + config }

  lemma KeysInjective(b: nat, c: string, b': nat, c': string)
    requires BlockKey(b, c) == BlockKey(b', c')
    ensures b == b' && c == c'
  {
    hide Print, Value;
    var x, y := Print(b), Print(b');
    var k := BlockKey(b, c);
    assert k[|x|] == '/' && k[|y|] == '/';
    assert forall i :: 0 <= i < |x| ==> k[i] == x[i] && IsDigit(x[i]);
    assert forall i :: 0 <= i < |y| ==> k[i] == y[i] && IsDigit(y[i]);
    assert |x| == |y|;
    assert k[..|x|] == x && k[..|y|] == y;
    assert k[|x| + 1..] == c && k[|y| + 1..] == c';
  }

  // ---------------------------------------------------------------- rotation

  /** `(p + b) % n` is a rotation of the positions by `b % n`. */
  function Rotated(p: nat, b: nat, n: nat): (r: nat)
    requires p < n
    ensures r < n
  {
    (p + b) % n
  }

  lemma QuotientUnique(q: int, r: int, q': int, r': int, n: int)
    requires 0 <= r < n && 0 <= r' < n && q * n + r == q' * n + r'
    ensures q == q' && r == r'
  {
    Spaced(q, q', n);
    Spaced(q', q, n);
  }

  lemma ModuloIs(q: nat, r: nat, n: nat)
    requires r < n
    ensures (q * n + r) / n == q && (q * n + r) % n == r
  {
    var x := q * n + r;
    assert x == (x / n) * n + x % n;
    QuotientUnique(q, r, x / n, x % n, n);
  }

  lemma WrapAround(p: nat, q: nat, r: nat, n: nat)
    requires p < n && r < n
    ensures (p + (q * n + r)) % n == if p + r < n then p + r else p + r - n
  {
    if p + r < n {
      ModuloIs(q, p + r, n);
    } else {
      assert (q + 1) * n == q * n + n;
      ModuloIs(q + 1, p + r - n, n);
    }
  }

  function BlockOf(k: nat, n: nat): nat
    requires n > 0
  {
    k / n
  }

  function PlaceOf(k: nat, n: nat): (p: nat)
    requires n > 0
    ensures p < n
  {
    k % n
  }

  lemma Recombine(k: nat, n: nat)
    requires n > 0
    ensures k == BlockOf(k, n) * n + PlaceOf(k, n)
  {
  }

  lemma RotatedIs(p: nat, b: nat, n: nat)
    requires p < n
    ensures Rotated(p, b, n) == if p + b % n < n then p + b % n else p + b % n - n
  {
    Recombine(b, n);
    WrapAround(p, BlockOf(b, n), b % n, n);
  }

  // ---------------------------------------------------------------- the schedule

  function RoundOf(block: nat, n: nat): nat
    requires n > 0
  {
    block / n
  }

  /** Which configuration runs at a position of a block. */
  ghost function Slot(draws: Draws, n: nat, block: nat, position: nat): nat
    requires position < n && AllPermutations(draws, n)
  {
    assert IsPermutation(draws(RoundOf(block, n)), n);
    draws(RoundOf(block, n))[Rotated(position, block, n)]
  }

  lemma SlotInRange(draws: Draws, n: nat, block: nat, position: nat)
    requires position < n && AllPermutations(draws, n)
    ensures Slot(draws, n, block, position) < n
  {
  }

  /** The k-th trial. */
  ghost function Expected(ids: seq<string>, draws: Draws, k: nat): Trial
    requires |ids| > 0 && AllPermutations(draws, |ids|)
  {
    var n := |ids|;
    var block := BlockOf(k, n);
    SlotInRange(draws, n, block, PlaceOf(k, n));
    Trial(TrialId(k), block, k, ids[Slot(draws, n, block, PlaceOf(k, n))])
  }

  ghost predicate IsSchedule(trials: seq<Trial>, ids: seq<string>, draws: Draws) {
    |ids| > 0 && AllPermutations(draws, |ids|) && forall k :: 0 <= k < |trials| ==> trials[k] == Expected(ids, draws, k)
  }

  predicate UniqueIds(ids: seq<string>) {
    (forall i :: 0 <= i < |ids| ==> ids[i] != "") && forall i, j :: 0 <= i < j < |ids| ==> ids[i] != ids[j]
  }

  predicate ValidDimensions(ids: seq<string>, blocks: int) {
    |ids| >= 2 && blocks > 0 && blocks * |ids| <= 10000
  }

  lemma DimensionGuard(blocks: int, n: int)
    requires n > 0
    ensures blocks > MAX_TRIALS / n <==> blocks * n > 10000
  {
    var q := 10000 / n;
    assert q * n <= 10000 < q * n + n;
    Spaced(q, blocks, n);
    Spaced(blocks, q, n);
  }

  lemma SameRound(block: nat, n: nat)
    requires block > 0 && n > 0 && block % n != 0
    ensures (block - 1) / n == block / n
  {
    assert block == (block / n) * n + block % n;
    ModuloIs(block / n, block % n - 1, n);
  }

  method CheckIds(ids: seq<string>) returns (ok: bool)
    ensures ok <==> UniqueIds(ids)
  {
    var seen := {};
    for i := 0 to |ids|
      invariant UniqueIds(ids[..i]) && seen == set j | 0 <= j < i :: ids[j]
    {
      if ids[i] == "" || ids[i] in seen { return false; }
      seen := seen + {ids[i]};
    }
    assert ids[..|ids|] == ids;
    return true;
  }

  lemma EmptySchedule(ids: seq<string>, draws: Draws)
    requires |ids| > 0 && AllPermutations(draws, |ids|)
    ensures IsSchedule([], ids, draws)
  {
  }

  /** The round changes exactly at multiples of `n`. */
  lemma RoundStep(block: nat, n: nat)
    requires n > 0
    ensures block == 0 ==> RoundOf(block, n) == 0
    ensures block > 0 && block % n != 0 ==> RoundOf(block, n) == RoundOf(block - 1, n)
  {
    if block > 0 && block % n != 0 { SameRound(block, n); }
  }

  lemma ScheduleExtends(trials: seq<Trial>, ids: seq<string>, draws: Draws, block: nat, position: nat, config: string)
    requires IsSchedule(trials, ids, draws) && position < |ids| && |trials| == block * |ids| + position
    requires IsPermutation(draws(RoundOf(block, |ids|)), |ids|)
    requires config == ids[draws(RoundOf(block, |ids|))[Rotated(position, block, |ids|)]]
    ensures IsSchedule(trials + [Trial(TrialId(|trials|), block, |trials|, config)], ids, draws)
  {
    ModuloIs(block, position, |ids|);
    hide Rotated, RoundOf, TrialId;
    assert BlockOf(|trials|, |ids|) == block && PlaceOf(|trials|, |ids|) == position;
    assert Trial(TrialId(|trials|), block, |trials|, config) == Expected(ids, draws, |trials|);
  }

  /** `Schedule`: every trial of every block, in order. */
  method Schedule(ids: seq<string>, blocks: int, draws: Draws) returns (r: Option<seq<Trial>>)
    requires AllPermutations(draws, |ids|)
    ensures r.Some? <==> ValidDimensions(ids, blocks) && UniqueIds(ids)
    ensures r.Some? ==> |r.value| == blocks * |ids| && IsSchedule(r.value, ids, draws)
  {
    hide IsSchedule, UniqueIds, RoundOf, Rotated;
    var n := |ids|;
    if n >= 2 { DimensionGuard(blocks, n); }
    if n < 2 || blocks <= 0 || blocks > MAX_TRIALS / n { return None; }
    var ok := CheckIds(ids);
    if !ok { return None; }
    var order := draws(0);
    var result: seq<Trial> := [];
    EmptySchedule(ids, draws);
    for block := 0 to blocks
      invariant |result| == block * n && IsSchedule(result, ids, draws)
      invariant block == 0 ==> order == draws(0)
      invariant block > 0 ==> order == draws(RoundOf(block - 1, n))
    {
      RoundStep(block, n);
      if block > 0 && block % n == 0 {
        order := draws(RoundOf(block, n));
      }
      for position := 0 to n
        invariant |result| == block * n + position && order == draws(RoundOf(block, n))
        invariant IsSchedule(result, ids, draws)
      {
        assert IsPermutation(order, n);
        var config := ids[order[Rotated(position, block, n)]];
        ScheduleExtends(result, ids, draws, block, position, config);
        result := result + [Trial(TrialId(|result|), block, |result|, config)];
      }
      assert (block + 1) * n == block * n + n;
    }
    return Some(result);
  }

  // ---------------------------------------------------------------- balance

  lemma {:induction false} ValuesCount(order: seq<nat>)
    requires forall i, j :: 0 <= i < j < |order| ==> order[i] != order[j]
    ensures |set i | 0 <= i < |order| :: order[i]| == |order|
  {
    if order != [] {
      var init, last := order[..|order| - 1], order[|order| - 1];
      ValuesCount(init);
      var values := set i | 0 <= i < |init| :: init[i];
      assert (set i | 0 <= i < |order| :: order[i]) == values + {last};
    }
  }

  function Range(n: nat): (s: set<nat>)
    ensures |s| == n && forall x: nat :: x in s <==> x < n
  {
    if n == 0 then {} else Range(n - 1) + {n - 1}
  }

  lemma SubsetOfSameSize(a: set<nat>, b: set<nat>)
    requires a <= b && |a| == |b|
    ensures a == b
  {
    assert b == a + (b - a);
    assert |b| == |a| + |b - a|;
  }

  /** A permutation hits every value. */
  lemma PermutationHits(order: seq<nat>, n: nat, c: nat) returns (i: nat)
    requires IsPermutation(order, n) && c < n
    ensures i < n && order[i] == c
  {
    var values := set j | 0 <= j < |order| :: order[j];
    ValuesCount(order);
    SubsetOfSameSize(values, Range(n));
    assert c in values;
    i :| 0 <= i < |order| && order[i] == c;
  }

  /** Each block runs every configuration exactly once. */
  lemma OncePerBlock(draws: Draws, n: nat, block: nat, c: nat) returns (position: nat)
    requires c < n && AllPermutations(draws, n)
    ensures position < n && Slot(draws, n, block, position) == c
    ensures forall p :: 0 <= p < n && Slot(draws, n, block, p) == c ==> p == position
  {
    var order, r := draws(RoundOf(block, n)), block % n;
    assert IsPermutation(order, n);
    var i := PermutationHits(order, n, c);
    position := if i >= r then i - r else i - r + n;
    RotatedIs(position, block, n);
    hide Rotated;
    forall p | 0 <= p < n && Slot(draws, n, block, p) == c ensures p == position {
      RotatedIs(p, block, n);
    }
  }

  /** Each complete round puts every configuration exactly once in every position. */
  lemma OncePerPosition(draws: Draws, n: nat, round: nat, position: nat, c: nat) returns (block: nat)
    requires position < n && c < n && AllPermutations(draws, n)
    ensures RoundOf(block, n) == round && Slot(draws, n, block, position) == c
    ensures forall b: nat :: RoundOf(b, n) == round && Slot(draws, n, b, position) == c ==> b == block
  {
    var order := draws(round);
    assert IsPermutation(order, n);
    var i := PermutationHits(order, n, c);
    var r := if i >= position then i - position else i - position + n;
    ModuloIs(round, r, n);
    block := round * n + r;
    RotatedIs(position, block, n);
    forall b: nat | RoundOf(b, n) == round && Slot(draws, n, b, position) == c ensures b == block {
      RotatedIs(position, b, n);
      assert b == (b / n) * n + b % n;
    }
  }

  // ---------------------------------------------------------------- the reference checks

  predicate Admissible(t: Trial, configs: set<string>) {
    ProperName(t.id) && t.block >= 0 && t.position >= 0 && t.config in configs
  }

  /** No two trials share an identifier, a position, or a block and configuration. */
  predicate Apart(a: Trial, b: Trial)
    requires a.block >= 0 && b.block >= 0
  {
    a.id != b.id && a.position != b.position && BlockKey(a.block, a.config) != BlockKey(b.block, b.config)
  }

  predicate Acceptable(trials: seq<Trial>, configs: set<string>) {
    && (forall i :: 0 <= i < |trials| ==> Admissible(trials[i], configs))
    && (forall i, j :: 0 <= i < j < |trials| ==> Apart(trials[i], trials[j]))
  }

  function KeyOf(t: Trial): string {
    if t.block < 0 then "-" + BlockKey(-t.block, t.config) else BlockKey(t.block, t.config)
  }

  /** The schedule loop of `validateReferences`. */
  method ValidateSchedule(trials: seq<Trial>, configs: set<string>) returns (ok: bool)
    ensures ok <==> Acceptable(trials, configs)
  {
    hide SafeName, ProperName, BlockKey;
    var schedule, positions, blocks := {}, {}, {};
    for i := 0 to |trials|
      invariant Acceptable(trials[..i], configs)
      invariant schedule == set j | 0 <= j < i :: trials[j].id
      invariant positions == set j | 0 <= j < i :: trials[j].position
      invariant blocks == set j | 0 <= j < i :: KeyOf(trials[j])
    {
      var t := trials[i];
      SafeIsProper(t.id);
      if t.id in schedule || !SafeName(t.id) || t.block < 0 || t.position < 0 || t.position in positions
         || KeyOf(t) in blocks || t.config !in configs
      {
        return false;
      }
      schedule, positions, blocks := schedule + {t.id}, positions + {t.position}, blocks + {KeyOf(t)};
    }
    assert trials[..|trials|] == trials;
    return true;
  }

  lemma SlotsDiffer(draws: Draws, n: nat, block: nat, p: nat, q: nat)
    requires p < n && q < n && AllPermutations(draws, n)
    ensures Slot(draws, n, block, p) < n && Slot(draws, n, block, q) < n
    ensures Slot(draws, n, block, p) == Slot(draws, n, block, q) ==> p == q
  {
    assert IsPermutation(draws(RoundOf(block, n)), n);
    RotatedIs(p, block, n);
    RotatedIs(q, block, n);
  }

  lemma ExpectedApart(ids: seq<string>, draws: Draws, j: nat, k: nat)
    requires |ids| > 0 && UniqueIds(ids) && AllPermutations(draws, |ids|) && j != k
    ensures Apart(Expected(ids, draws, j), Expected(ids, draws, k))
  {
    hide TrialId, BlockKey, Slot, BlockOf, PlaceOf;
    var n := |ids|;
    if TrialId(j) == TrialId(k) { TrialIdInjective(j, k); }
    var a, b := Expected(ids, draws, j), Expected(ids, draws, k);
    if BlockKey(a.block, a.config) == BlockKey(b.block, b.config) {
      KeysInjective(a.block, a.config, b.block, b.config);
      SlotsDiffer(draws, n, a.block, PlaceOf(j, n), PlaceOf(k, n));
      Recombine(j, n);
      Recombine(k, n);
    }
  }

  /** Every schedule passes the reference checks. */
  lemma ScheduleIsAcceptable(ids: seq<string>, draws: Draws, trials: seq<Trial>)
    requires UniqueIds(ids) && IsSchedule(trials, ids, draws)
    ensures Acceptable(trials, set i | 0 <= i < |ids| :: ids[i])
  {
    hide ProperName, TrialId, BlockKey, Slot, BlockOf, PlaceOf, Apart;
    forall k | 0 <= k < |trials| ensures Admissible(trials[k], set i | 0 <= i < |ids| :: ids[i]) {
      TrialIdIsProper(k);
      SlotInRange(draws, |ids|, BlockOf(k, |ids|), PlaceOf(k, |ids|));
    }
    forall i, j | 0 <= i < j < |trials| ensures Apart(trials[i], trials[j]) { ExpectedApart(ids, draws, i, j); }
  }

  // ---------------------------------------------------------------- balance of a whole schedule

  /** The trial at a place of a block. */
  lemma TrialAt(trials: seq<Trial>, ids: seq<string>, draws: Draws, blocks: nat, block: nat, place: nat)
    requires IsSchedule(trials, ids, draws) && |trials| == blocks * |ids| && block < blocks && place < |ids|
    ensures var k := block * |ids| + place;
      && k < |trials| && BlockOf(k, |ids|) == block && PlaceOf(k, |ids|) == place
      && Slot(draws, |ids|, block, place) < |ids|
      && trials[k].block == block && trials[k].config == ids[Slot(draws, |ids|, block, place)]
  {
    hide Slot, TrialId;
    Spaced(block, blocks, |ids|);
    ModuloIs(block, place, |ids|);
    SlotInRange(draws, |ids|, block, place);
  }

  /** In every block, every configuration runs in exactly one trial. */
  lemma BlocksAreBalanced(trials: seq<Trial>, ids: seq<string>, draws: Draws, blocks: nat, block: nat,
                          c: nat)
    returns (k: nat)
    requires IsSchedule(trials, ids, draws) && UniqueIds(ids) && |trials| == blocks * |ids|
    requires block < blocks && c < |ids|
    ensures k < |trials| && trials[k].block == block && trials[k].config == ids[c]
    ensures forall j :: 0 <= j < |trials| && trials[j].block == block && trials[j].config == ids[c] ==> j == k
  {
    hide Slot, TrialId, BlockOf, PlaceOf;
    var n := |ids|;
    var place := OncePerBlock(draws, n, block, c);
    TrialAt(trials, ids, draws, blocks, block, place);
    k := block * n + place;
    forall j | 0 <= j < |trials| && trials[j].block == block && trials[j].config == ids[c] ensures j == k {
      Recombine(j, n);
      SlotInRange(draws, n, block, PlaceOf(j, n));
    }
  }

  /** The k-th of trials over `n` configurations runs in this round, at this place of its block. */
  predicate StandsAt(k: nat, n: nat, round: nat, place: nat)
    requires n > 0
  {
    RoundOf(BlockOf(k, n), n) == round && PlaceOf(k, n) == place
  }

  /** In every complete round of blocks, every configuration runs in exactly one block at each place. */
  lemma RoundsAreBalanced(trials: seq<Trial>, ids: seq<string>, draws: Draws, blocks: nat, round: nat, place: nat,
                          c: nat)
    returns (k: nat)
    requires IsSchedule(trials, ids, draws) && UniqueIds(ids) && |trials| == blocks * |ids|
    requires (round + 1) * |ids| <= blocks && place < |ids| && c < |ids|
    ensures k < |trials| && StandsAt(k, |ids|, round, place) && trials[k].config == ids[c]
    ensures forall j :: 0 <= j < |trials| && StandsAt(j, |ids|, round, place) && trials[j].config == ids[c] ==> j == k
  {
    var n := |ids|;
    var block := OncePerPosition(draws, n, round, place, c);
    assert block < blocks by { assert block == round * n + block % n && (round + 1) * n == round * n + n; }
    hide Slot, TrialId, BlockOf, PlaceOf, RoundOf;
    TrialAt(trials, ids, draws, blocks, block, place);
    k := block * n + place;
    forall j | 0 <= j < |trials| && StandsAt(j, n, round, place) && trials[j].config == ids[c]
      ensures j == k
    {
      Recombine(j, n);
      SlotInRange(draws, n, BlockOf(j, n), place);
    }
  }
}
