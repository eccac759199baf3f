/**
 The concurrent compile pool: workers drain a closed task channel, share the first error and the result maps under one
 mutex, and cancel a context derived from the caller's. Compile and validation outcomes are arbitrary.
 */
module BuildPool {
  import opened Basics

  type Identity = string

  /** The manifest's variant levels, and where the binary of a level goes. */
  datatype Build = Build(levels: seq<string>, binary: string -> string)

  datatype BuildError = ParentCancelled | DerivedCancelled | CompileError(i: nat) | ValidationError(i: nat) | Incomplete

  /** Why a worker enters the critical section. */
  datatype Cause = SawDone | CompileFailed | ValidationFailed | Built(id: Identity)

  /** A worker's position, with the task it carries. */
  datatype Worker =
    | Fetch | Poll(i: nat) | Compile(i: nat) | Validate(i: nat)
    | Want(cause: Cause, i: nat) | Hold(cause: Cause, i: nat)
    | Cancelling | Leaving(stop: bool) | Stopped

  /** What the workers share. `next` is the head of the task channel; `stored`, `built` and `faults` record history. */
  datatype Shared = Shared(
    next: nat, lock: Option<nat>, firstErr: Option<BuildError>,
    compiled: map<string, string>, identities: map<string, Identity>, parentDone: bool, derivedDone: bool,
    stored: set<nat>, built: map<nat, Identity>, faults: set<BuildError>)

  datatype State = State(sh: Shared, workers: map<nat, Worker>)

  /** A worker's moves: the two outcomes below are the compiler's and the validator's to choose. */
  datatype Op = Take | Observe | Finish(ok: bool) | Inspect(id: Option<Identity>) | Acquire | Act | Cancel | Release

  predicate Ready(b: Build, sh: Shared, pc: Worker, op: Op) {
    match op
    case Take => pc.Fetch?
    case Observe => pc.Poll?
    case Finish(_) => pc.Compile?
    case Inspect(_) => pc.Validate?
    case Acquire => pc.Want? && sh.lock.None?
    case Act => pc.Hold? && pc.i < |b.levels|
    case Cancel => pc.Cancelling?
    case Release => pc.Leaving?
  }

  function Blame(sh: Shared, e: BuildError): BuildError { if sh.parentDone then ParentCancelled else e }

  /** Record a failure unless one is recorded already; only the first failure cancels the others. */
  function Fail(sh: Shared, e: BuildError): (Shared, Worker) {
    if sh.firstErr.None? then (sh.(firstErr := Some(Blame(sh, e))), Cancelling) else (sh, Leaving(true))
  }

  /** The critical section of each cause. */
  function Section(b: Build, sh: Shared, cause: Cause, i: nat): (Shared, Worker)
    requires i < |b.levels|
  {
    match cause
    case SawDone =>
      (if sh.firstErr.None? then sh.(firstErr := Some(Blame(sh, DerivedCancelled))) else sh, Leaving(true))
    case CompileFailed => Fail(sh, CompileError(i))
    case ValidationFailed => Fail(sh, ValidationError(i))
    case Built(id) =>
      var level := b.levels[i];
      (sh.(compiled := sh.compiled[level := b.binary(level)],
           identities := sh.identities[level := id],
           stored := sh.stored + {i}),
       Leaving(false))
  }

  function Local(b: Build, sh: Shared, w: nat, pc: Worker, op: Op): (Shared, Worker)
    requires Ready(b, sh, pc, op)
  {
    match op
    case Take => if sh.next < |b.levels| then (sh.(next := sh.next + 1), Poll(sh.next)) else (sh, Stopped)
    case Observe => (sh, if sh.derivedDone then Want(SawDone, pc.i) else Compile(pc.i))
    case Finish(true) => (sh, Validate(pc.i))
    case Finish(false) => (sh.(faults := sh.faults + {CompileError(pc.i)}), Want(CompileFailed, pc.i))
    case Inspect(None) => (sh.(faults := sh.faults + {ValidationError(pc.i)}), Want(ValidationFailed, pc.i))
    case Inspect(Some(id)) => (sh.(built := sh.built[pc.i := id]), Want(Built(id), pc.i))
    case Acquire => (sh.(lock := Some(w)), Hold(pc.cause, pc.i))
    case Act => Section(b, sh, pc.cause, pc.i)
    case Cancel => (sh.(derivedDone := true), Leaving(true))
    case Release => (sh.(lock := None), if pc.stop then Stopped else Fetch)
  }

  ghost predicate WorkerStep(b: Build, s: State, s': State, w: nat, op: Op) {
    && w in s.workers && Ready(b, s.sh, s.workers[w], op)
    && var (sh, pc) := Local(b, s.sh, w, s.workers[w], op);
       s' == State(sh, s.workers[w := pc])
  }

  /** A worker moves, the caller's context is cancelled, or its cancellation reaches the derived context. */
  ghost predicate Next(b: Build, s: State, s': State) {
    || (exists w, op :: WorkerStep(b, s, s', w, op))
    || s' == s.(sh := s.sh.(parentDone := true))
    || (s.sh.parentDone && s' == s.(sh := s.sh.(derivedDone := true)))
  }

  ghost predicate Init(s: State) {
    && s.workers != map[] && (forall w :: w in s.workers ==> s.workers[w] == Fetch)
    && (s.sh == Shared(0, None, None, map[], map[], false, false, {}, map[], {})
        || s.sh == Shared(0, None, None, map[], map[], true, false, {}, map[], {}))
  }

  ghost predicate StepAt(b: Build, tr: seq<State>, k: nat)
    requires k + 1 < |tr|
  {
    Next(b, tr[k], tr[k + 1])
  }

  ghost predicate Run(b: Build, tr: seq<State>) {
    |tr| > 0 && Init(tr[0]) && forall k :: 0 <= k < |tr| - 1 ==> StepAt(b, tr, k)
  }

  // ---------------------------------------------------------------- what the caller gets

  predicate Finished(s: State) { forall w :: w in s.workers ==> s.workers[w].Stopped? }

  type Returned = Result<(map<string, string>, map<string, Identity>), BuildError>

  /** The checks after `wg.Wait`. */
  function Return(b: Build, sh: Shared): Returned {
    if sh.firstErr.Some? then Err(sh.firstErr.value)
    else if sh.parentDone then Err(ParentCancelled)
    else if |sh.compiled| != |b.levels| then Err(Incomplete)
    else if exists i :: 0 <= i < |b.levels| && b.levels[i] !in sh.compiled then Err(Incomplete)
    else Ok((sh.compiled, sh.identities))
  }

  predicate Distinct(levels: seq<string>) { forall i, j :: 0 <= i < j < |levels| ==> levels[i] != levels[j] }

  // ---------------------------------------------------------------- the invariant

  predicate Inside(pc: Worker) { pc.Hold? || pc.Cancelling? || pc.Leaving? }

  predicate Carrying(pc: Worker) { pc.Poll? || pc.Compile? || pc.Validate? || pc.Want? || pc.Hold? }

  /** What has happened when a worker brings a cause to the critical section. */
  predicate CauseOk(sh: Shared, cause: Cause, i: nat) {
    match cause
    case SawDone => sh.derivedDone
    case CompileFailed => CompileError(i) in sh.faults
    case ValidationFailed => ValidationError(i) in sh.faults
    case Built(id) => i in sh.built && sh.built[i] == id
  }

  /** What a worker's position says about the shared state. */
  predicate WorkerOk(b: Build, sh: Shared, w: nat, pc: Worker) {
    && (Inside(pc) <==> sh.lock == Some(w))
    && (Carrying(pc) ==> pc.i < sh.next && pc.i !in sh.stored)
    && (pc.Want? || pc.Hold? ==> CauseOk(sh, pc.cause, pc.i))
    && (pc.Cancelling? || (pc.Leaving? && pc.stop) ==> sh.firstErr.Some?)
    && (pc.Stopped? ==> sh.firstErr.Some? || sh.next == |b.levels|)
  }

  /** Cancellation always has a cause that can be named. */
  predicate Explained(sh: Shared) {
    && (sh.derivedDone ==> sh.parentDone || sh.firstErr.Some?)
    && (sh.firstErr.Some? ==> sh.firstErr.value in sh.faults || (sh.firstErr.value.ParentCancelled? && sh.parentDone))
    && (forall e :: e in sh.faults ==> e.CompileError? || e.ValidationError?)
  }

  predicate Ranges(b: Build, sh: Shared) {
    sh.next <= |b.levels| && (forall i :: i in sh.stored ==> i < sh.next && i in sh.built)
  }

  /** `l` is the level of a stored task. */
  predicate LevelStored(b: Build, stored: set<nat>, l: string) {
    exists i :: i in stored && i < |b.levels| && b.levels[i] == l
  }

  /** The paths are those of exactly the stored tasks. */
  ghost predicate Paths(b: Build, compiled: map<string, string>, stored: set<nat>) {
    && (forall l :: l in compiled ==> compiled[l] == b.binary(l) && LevelStored(b, stored, l))
    && (forall i :: i in stored && i < |b.levels| ==> b.levels[i] in compiled)
  }

  /** Each stored task has an identity under its level; for distinct levels, its own. */
  ghost predicate Identities(b: Build, identities: map<string, Identity>, stored: set<nat>, built: map<nat, Identity>) {
    && (forall l :: l in identities ==> LevelStored(b, stored, l))
    && (forall i :: i in stored && i < |b.levels| ==>
          b.levels[i] in identities && (Distinct(b.levels) ==> i in built && identities[b.levels[i]] == built[i]))
  }

  ghost predicate Recorded(b: Build, sh: Shared) {
    Ranges(b, sh) && Paths(b, sh.compiled, sh.stored) && Identities(b, sh.identities, sh.stored, sh.built)
  }

  predicate Clash(pc: Worker, pc': Worker) { Carrying(pc) && Carrying(pc') && pc.i == pc'.i }

  /** No task is carried twice. */
  predicate Apart(workers: map<nat, Worker>) {
    forall v, w :: v in workers && w in workers && v != w ==> !Clash(workers[v], workers[w])
  }

  predicate CarriedBySome(workers: map<nat, Worker>, i: nat) {
    exists w :: w in workers && Carrying(workers[w]) && workers[w].i == i
  }

  /** While nothing has failed, every task taken is carried or stored. */
  predicate Accounted(s: State) {
    s.sh.firstErr.None? ==> forall i :: 0 <= i < s.sh.next ==> i in s.sh.stored || CarriedBySome(s.workers, i)
  }

  /** A recorded error has cancelled the derived context, or its recorder is about to. */
  predicate Signalled(s: State) {
    s.sh.firstErr.Some? && !s.sh.derivedDone ==>
      s.sh.lock.Some? && s.sh.lock.value in s.workers && s.workers[s.sh.lock.value].Cancelling?
  }

  ghost predicate Inv(b: Build, s: State) {
    && s.workers != map[] && (s.sh.lock.Some? ==> s.sh.lock.value in s.workers)
    && Explained(s.sh) && Recorded(b, s.sh) && Apart(s.workers) && Accounted(s) && Signalled(s)
    && forall w :: w in s.workers ==> WorkerOk(b, s.sh, w, s.workers[w])
  }

  // ---------------------------------------------------------------- one step keeps it

  lemma SectionExplained(b: Build, sh: Shared, cause: Cause, i: nat)
    requires Explained(sh) && CauseOk(sh, cause, i) && i < |b.levels|
    ensures Explained(Section(b, sh, cause, i).0)
  {
  }

  lemma ExplainedKept(b: Build, sh: Shared, w: nat, pc: Worker, op: Op)
    requires Explained(sh) && WorkerOk(b, sh, w, pc) && Ready(b, sh, pc, op)
    ensures Explained(Local(b, sh, w, pc, op).0)
  {
    hide Section, CauseOk;
    if op.Act? { SectionExplained(b, sh, pc.cause, pc.i); }
  }

  lemma PathStored(b: Build, compiled: map<string, string>, stored: set<nat>, i: nat)
    requires Paths(b, compiled, stored) && i < |b.levels|
    ensures Paths(b, compiled[b.levels[i] := b.binary(b.levels[i])], stored + {i})
  {
  }

  lemma IdentityStored(b: Build, identities: map<string, Identity>, stored: set<nat>, built: map<nat, Identity>, i: nat)
    requires Identities(b, identities, stored, built) && i < |b.levels| && i in built
    ensures Identities(b, identities[b.levels[i] := built[i]], stored + {i}, built)
  {
  }

  /** What the critical section leaves alone, and what each cause changes. */
  lemma SectionFrame(b: Build, sh: Shared, cause: Cause, i: nat)
    requires i < |b.levels|
    ensures var (sh', pc') := Section(b, sh, cause, i);
      && sh'.next == sh.next && sh'.lock == sh.lock && sh'.built == sh.built && sh'.faults == sh.faults
      && sh'.parentDone == sh.parentDone && sh'.derivedDone == sh.derivedDone
      && (sh.firstErr.Some? ==> sh'.firstErr == sh.firstErr)
      && (pc'.Cancelling? || pc'.Leaving?) && (pc' == Leaving(false) <==> cause.Built?)
      && (!cause.Built? ==>
            && sh'.firstErr.Some? && sh'.stored == sh.stored
            && sh'.compiled == sh.compiled && sh'.identities == sh.identities)
      && (cause.Built? ==>
            var level := b.levels[i];
            && sh'.firstErr == sh.firstErr && sh'.stored == sh.stored + {i}
            && sh'.compiled == sh.compiled[level := b.binary(level)]
            && sh'.identities == sh.identities[level := cause.id])
  {
  }

  lemma IdentitiesIgnoreOthers(b: Build, identities: map<string, Identity>, stored: set<nat>,
                               built: map<nat, Identity>, i: nat, id: Identity)
    requires Identities(b, identities, stored, built) && i !in stored
    ensures Identities(b, identities, stored, built[i := id])
  {
    hide LevelStored, Distinct;
  }

  lemma RecordedKept(b: Build, sh: Shared, w: nat, pc: Worker, op: Op)
    requires Recorded(b, sh) && WorkerOk(b, sh, w, pc) && Ready(b, sh, pc, op)
    ensures Recorded(b, Local(b, sh, w, pc, op).0)
  {
    hide Section, Paths, Identities;
    if op.Act? {
      SectionFrame(b, sh, pc.cause, pc.i);
      if pc.cause.Built? {
        PathStored(b, sh.compiled, sh.stored, pc.i);
        IdentityStored(b, sh.identities, sh.stored, sh.built, pc.i);
      }
    } else if op.Inspect? && op.id.Some? {
      IdentitiesIgnoreOthers(b, sh.identities, sh.stored, sh.built, pc.i, op.id.value);
    }
  }

  lemma OwnPositionOk(b: Build, sh: Shared, w: nat, pc: Worker, op: Op)
    requires Recorded(b, sh) && WorkerOk(b, sh, w, pc) && Ready(b, sh, pc, op)
    ensures var (sh', pc') := Local(b, sh, w, pc, op); WorkerOk(b, sh', w, pc')
  {
    hide Section, Paths, Identities;
    if op.Act? { SectionFrame(b, sh, pc.cause, pc.i); }
  }

  /** History only grows, except that a worker may overwrite its own task's identity. */
  lemma HistoryGrows(b: Build, sh: Shared, w: nat, pc: Worker, op: Op, cause: Cause, i: nat)
    requires Ready(b, sh, pc, op) && CauseOk(sh, cause, i) && (Carrying(pc) ==> pc.i != i)
    ensures CauseOk(Local(b, sh, w, pc, op).0, cause, i)
  {
    hide Section;
    if op.Act? { SectionFrame(b, sh, pc.cause, pc.i); }
  }

  lemma OtherPositionOk(b: Build, sh: Shared, w: nat, pc: Worker, op: Op, v: nat, other: Worker)
    requires Recorded(b, sh) && WorkerOk(b, sh, w, pc) && Ready(b, sh, pc, op)
    requires v != w && WorkerOk(b, sh, v, other) && !Clash(other, pc)
    ensures WorkerOk(b, Local(b, sh, w, pc, op).0, v, other)
  {
    hide Section, Paths, Identities, CauseOk;
    if op.Act? { SectionFrame(b, sh, pc.cause, pc.i); }
    if other.Want? || other.Hold? { HistoryGrows(b, sh, w, pc, op, other.cause, other.i); }
  }

  /** A move keeps the task, drops it, or takes the next one from the channel. */
  lemma CarriesOn(b: Build, sh: Shared, w: nat, pc: Worker, op: Op)
    requires WorkerOk(b, sh, w, pc) && Ready(b, sh, pc, op)
    ensures var (sh', pc') := Local(b, sh, w, pc, op);
      && (Carrying(pc') ==>
            if op.Take? then pc'.i == sh.next && sh'.next == sh.next + 1 else Carrying(pc) && pc'.i == pc.i)
      && (!(op.Take? && Carrying(pc')) ==> sh'.next == sh.next)
      && (Carrying(pc) && !Carrying(pc') ==> sh'.firstErr.Some? || pc.i in sh'.stored)
      && (sh.firstErr.Some? ==> sh'.firstErr.Some?) && sh.stored <= sh'.stored
      && (sh'.lock == sh.lock || sh'.lock == Some(w) || sh'.lock.None?)
  {
    hide Section;
    if op.Act? { SectionFrame(b, sh, pc.cause, pc.i); }
  }

  lemma AccountedKept(b: Build, s: State, s': State, w: nat, op: Op)
    requires Inv(b, s) && WorkerStep(b, s, s', w, op)
    ensures Accounted(s')
  {
    hide Recorded, Explained, Apart, Local;
    var pc, pc' := s.workers[w], s'.workers[w];
    assert WorkerOk(b, s.sh, w, pc);
    CarriesOn(b, s.sh, w, pc, op);
    if s'.sh.firstErr.None? {
      forall i | 0 <= i < s'.sh.next ensures i in s'.sh.stored || CarriedBySome(s'.workers, i) {
        if Carrying(pc') && pc'.i == i {
          assert w in s'.workers;
        } else if i < s.sh.next && i !in s.sh.stored {
          var v :| v in s.workers && Carrying(s.workers[v]) && s.workers[v].i == i;
          assert v != w ==> s'.workers[v] == s.workers[v];
        }
      }
    }
  }

  lemma ApartKept(b: Build, s: State, s': State, w: nat, op: Op)
    requires Inv(b, s) && WorkerStep(b, s, s', w, op)
    ensures Apart(s'.workers)
  {
    hide Recorded, Explained, Accounted, Local;
    assert WorkerOk(b, s.sh, w, s.workers[w]);
    CarriesOn(b, s.sh, w, s.workers[w], op);
    forall v, u | v in s'.workers && u in s'.workers && v != u ensures !Clash(s'.workers[v], s'.workers[u]) {
      assert !Clash(s.workers[v], s.workers[u]);
      assert WorkerOk(b, s.sh, v, s.workers[v]) && WorkerOk(b, s.sh, u, s.workers[u]);
    }
  }

  /** Whoever moves: it records an error only on its way to cancelling, or after cancellation. */
  lemma MoveSignals(b: Build, sh: Shared, w: nat, pc: Worker, op: Op)
    requires WorkerOk(b, sh, w, pc) && Ready(b, sh, pc, op)
    requires sh.firstErr.Some? && !sh.derivedDone && sh.lock == Some(w) ==> pc.Cancelling?
    requires sh.firstErr.Some? && !sh.derivedDone ==> sh.lock.Some?
    ensures var (sh', pc') := Local(b, sh, w, pc, op);
      sh'.firstErr.Some? && !sh'.derivedDone ==>
        && sh'.lock.Some? && (sh'.lock == Some(w) ==> pc'.Cancelling?)
        && (sh'.lock != Some(w) ==> sh.firstErr.Some? && !sh.derivedDone && sh'.lock == sh.lock)
  {
  }

  lemma SignalledKept(b: Build, s: State, s': State, w: nat, op: Op)
    requires Inv(b, s) && WorkerStep(b, s, s', w, op)
    ensures Signalled(s')
  {
    hide Recorded, Explained, Apart, Accounted, WorkerOk, Local, Ready;
    MoveSignals(b, s.sh, w, s.workers[w], op);
  }

  lemma WorkerStepKeepsInv(b: Build, s: State, s': State, w: nat, op: Op)
    requires Inv(b, s) && WorkerStep(b, s, s', w, op)
    ensures Inv(b, s')
  {
    hide Recorded, Explained, Accounted, Signalled, Local, WorkerOk, Clash, Ready;
    var pc := s.workers[w];
    SignalledKept(b, s, s', w, op);
    ExplainedKept(b, s.sh, w, pc, op);
    RecordedKept(b, s.sh, w, pc, op);
    AccountedKept(b, s, s', w, op);
    ApartKept(b, s, s', w, op);
    OwnPositionOk(b, s.sh, w, pc, op);
    CarriesOn(b, s.sh, w, pc, op);
    forall v | v in s'.workers ensures WorkerOk(b, s'.sh, v, s'.workers[v]) {
      if v != w { OtherPositionOk(b, s.sh, w, pc, op, v, s.workers[v]); }
    }
    assert w in s'.workers;
  }

  lemma CancellationKeepsInv(b: Build, s: State, s': State)
    requires Inv(b, s)
    requires
      || s' == s.(sh := s.sh.(parentDone := true))
      || (s.sh.parentDone && s' == s.(sh := s.sh.(derivedDone := true)))
    ensures Inv(b, s')
  {
  }

  lemma InitIsOk(b: Build, s: State)
    requires Init(s)
    ensures Inv(b, s)
  {
  }

  lemma {:induction false} RunKeepsInv(b: Build, tr: seq<State>, k: nat)
    requires Run(b, tr) && k < |tr|
    ensures Inv(b, tr[k])
  {
    hide Inv, WorkerStep;
    if k == 0 {
      InitIsOk(b, tr[0]);
    } else {
      RunKeepsInv(b, tr, k - 1);
      assert StepAt(b, tr, k - 1);
      var s, s' := tr[k - 1], tr[k];
      if exists w, op :: WorkerStep(b, s, s', w, op) {
        var w, op :| WorkerStep(b, s, s', w, op);
        WorkerStepKeepsInv(b, s, s', w, op);
      } else {
        CancellationKeepsInv(b, s, s');
      }
    }
  }

  // ---------------------------------------------------------------- what every run guarantees

  /** A worker that sees cancellation with no recorded error: the caller's own context was cancelled. */
  lemma SilentCancellationIsTheParents(b: Build, tr: seq<State>, k: nat, w: nat)
    requires Run(b, tr) && k < |tr| && w in tr[k].workers && tr[k].workers[w].Hold? && tr[k].workers[w].cause.SawDone?
    requires tr[k].sh.firstErr.None?
    ensures tr[k].sh.parentDone
  {
    RunKeepsInv(b, tr, k);
    assert WorkerOk(b, tr[k].sh, w, tr[k].workers[w]);
  }

  /** So the error of the derived context is never the one recorded. */
  lemma FallbackUnreachable(b: Build, tr: seq<State>, k: nat)
    requires Run(b, tr) && k < |tr|
    ensures tr[k].sh.firstErr != Some(DerivedCancelled)
  {
    RunKeepsInv(b, tr, k);
  }

  /** In step `j`, worker `w` learned that its own task failed to compile or to validate. */
  ghost predicate Failed(b: Build, tr: seq<State>, j: nat, w: nat, e: BuildError) {
    && j + 1 < |tr| && w in tr[j].workers
    && (|| (WorkerStep(b, tr[j], tr[j + 1], w, Finish(false)) && e == CompileError(tr[j].workers[w].i))
        || (WorkerStep(b, tr[j], tr[j + 1], w, Inspect(None)) && e == ValidationError(tr[j].workers[w].i)))
  }

  lemma NewFault(b: Build, s: State, s': State, w: nat, op: Op, e: BuildError)
    requires WorkerStep(b, s, s', w, op) && e in s'.sh.faults && e !in s.sh.faults
    ensures (op == Finish(false) && e == CompileError(s.workers[w].i))
         || (op == Inspect(None) && e == ValidationError(s.workers[w].i))
  {
  }

  lemma {:induction false} FaultHappened(b: Build, tr: seq<State>, k: nat, e: BuildError) returns (j: nat, w: nat)
    requires Run(b, tr) && k < |tr| && e in tr[k].sh.faults
    ensures j < k && Failed(b, tr, j, w, e)
  {
    if k == 0 { assert false; }
    assert StepAt(b, tr, k - 1);
    var s, s' := tr[k - 1], tr[k];
    if e in s.sh.faults {
      j, w := FaultHappened(b, tr, k - 1, e);
    } else {
      hide WorkerStep;
      var v, op :| WorkerStep(b, s, s', v, op);
      NewFault(b, s, s', v, op, e);
      j, w := k - 1, v;
    }
  }

  /** A recorded error is the caller's cancellation, or a compile or validation failure that happened. */
  lemma ErrorHasACause(b: Build, tr: seq<State>, k: nat)
    requires Run(b, tr) && k < |tr| && tr[k].sh.firstErr.Some?
    ensures var e := tr[k].sh.firstErr.value;
      if e.ParentCancelled? then tr[k].sh.parentDone else exists j: nat, w: nat :: j < k && Failed(b, tr, j, w, e)
  {
    RunKeepsInv(b, tr, k);
    if !tr[k].sh.firstErr.value.ParentCancelled? {
      var j, w := FaultHappened(b, tr, k, tr[k].sh.firstErr.value);
    }
  }

  lemma MoveKeepsError(b: Build, sh: Shared, w: nat, pc: Worker, op: Op)
    requires Ready(b, sh, pc, op)
    ensures var sh' := Local(b, sh, w, pc, op).0;
      && sh'.parentDone == sh.parentDone
      && (|| sh'.firstErr == sh.firstErr
          || (sh.firstErr.None? && (sh.parentDone ==> sh'.firstErr == Some(ParentCancelled))))
  {
  }

  lemma StepKeepsError(b: Build, s: State, s': State)
    requires Next(b, s, s')
    ensures s.sh.parentDone ==> s'.sh.parentDone
    ensures || s'.sh.firstErr == s.sh.firstErr
            || (s.sh.firstErr.None? && (s.sh.parentDone ==> s'.sh.firstErr == Some(ParentCancelled)))
  {
    hide Local, Ready;
    if w, op :| WorkerStep(b, s, s', w, op) { MoveKeepsError(b, s.sh, w, s.workers[w], op); }
  }

  /** Once recorded, an error stays; and after the caller has cancelled, nothing else is recorded. */
  lemma {:induction false} ErrorStays(b: Build, tr: seq<State>, k: nat, j: nat)
    requires Run(b, tr) && k <= j < |tr|
    ensures tr[k].sh.firstErr.Some? ==> tr[j].sh.firstErr == tr[k].sh.firstErr
    ensures tr[k].sh.parentDone ==> tr[j].sh.parentDone
    ensures tr[k].sh.parentDone && tr[k].sh.firstErr.None? ==>
      tr[j].sh.firstErr.None? || tr[j].sh.firstErr == Some(ParentCancelled)
  {
    if k < j {
      ErrorStays(b, tr, k, j - 1);
      assert StepAt(b, tr, j - 1);
      hide Next;
      StepKeepsError(b, tr[j - 1], tr[j]);
    }
  }

  /** A failure stops the others: with an error recorded and the lock free, the derived context is cancelled. */
  lemma FailureCancels(b: Build, tr: seq<State>, k: nat)
    requires Run(b, tr) && k < |tr| && tr[k].sh.firstErr.Some? && tr[k].sh.lock.None?
    ensures tr[k].sh.derivedDone
  {
    RunKeepsInv(b, tr, k);
  }

  /** And then no worker begins to compile. */
  lemma NoCompileAfterCancellation(b: Build, s: State, s': State, w: nat)
    requires Next(b, s, s') && s.sh.derivedDone
    requires w in s.workers && w in s'.workers && s'.workers[w].Compile?
    ensures s.workers[w] == s'.workers[w]
  {
  }

  /** A worker whose task failed, or that has seen the cancellation, on its way out. */
  predicate Quitting(pc: Worker) {
    || ((pc.Want? || pc.Hold?) && !pc.cause.Built?)
    || pc.Cancelling? || (pc.Leaving? && pc.stop) || pc.Stopped?
  }

  lemma QuitterMovesOn(b: Build, sh: Shared, w: nat, pc: Worker, op: Op)
    requires Ready(b, sh, pc, op) && Quitting(pc)
    ensures Quitting(Local(b, sh, w, pc, op).1)
  {
  }

  /** A worker whose task failed takes no other. */
  lemma {:induction false} QuittersStop(b: Build, tr: seq<State>, k: nat, j: nat, w: nat)
    requires Run(b, tr) && k <= j < |tr| && w in tr[k].workers && Quitting(tr[k].workers[w])
    ensures w in tr[j].workers && Quitting(tr[j].workers[w])
  {
    if k < j {
      QuittersStop(b, tr, k, j - 1, w);
      assert StepAt(b, tr, j - 1);
      hide Local, Ready, Quitting;
      var s, s' := tr[j - 1], tr[j];
      if v, op :| WorkerStep(b, s, s', v, op) {
        if v == w { QuitterMovesOn(b, s.sh, w, s.workers[w], op); }
      }
    }
  }

  /** At most one worker is inside the critical section. */
  lemma MutualExclusion(b: Build, tr: seq<State>, k: nat, v: nat, w: nat)
    requires Run(b, tr) && k < |tr| && v in tr[k].workers && w in tr[k].workers
    requires Inside(tr[k].workers[v]) && Inside(tr[k].workers[w])
    ensures v == w
  {
    RunKeepsInv(b, tr, k);
    assert WorkerOk(b, tr[k].sh, v, tr[k].workers[v]) && WorkerOk(b, tr[k].sh, w, tr[k].workers[w]);
  }

  lemma AllStored(b: Build, s: State)
    requires Inv(b, s) && Finished(s) && s.sh.firstErr.None?
    ensures s.sh.next == |b.levels| && forall i :: 0 <= i < |b.levels| ==> i in s.sh.stored
  {
  }

  function LevelSet(levels: seq<string>): set<string> { set i | 0 <= i < |levels| :: levels[i] }

  lemma LevelMembers(levels: seq<string>)
    ensures forall i :: 0 <= i < |levels| ==> levels[i] in LevelSet(levels)
  {
  }

  lemma {:induction false} LevelCount(levels: seq<string>)
    ensures |LevelSet(levels)| <= |levels|
    ensures |LevelSet(levels)| == |levels| <==> Distinct(levels)
  {
    if levels != [] {
      var init, last := levels[..|levels| - 1], levels[|levels| - 1];
      LevelCount(init);
      assert LevelSet(levels) == LevelSet(init) + {last};
      assert levels == init + [last];
      assert Distinct(levels) <==> Distinct(init) && last !in LevelSet(init);
    }
  }

  lemma LevelIsListed(b: Build, stored: set<nat>, l: string)
    requires LevelStored(b, stored, l)
    ensures l in LevelSet(b.levels)
  {
  }

  lemma CompiledLevels(b: Build, sh: Shared)
    requires Recorded(b, sh) && forall i :: 0 <= i < |b.levels| ==> i in sh.stored
    ensures sh.compiled.Keys == LevelSet(b.levels) && sh.identities.Keys == LevelSet(b.levels)
    ensures |sh.compiled| == |sh.compiled.Keys|
  {
    hide Distinct;
    LevelMembers(b.levels);
    forall l | l in sh.compiled ensures l in LevelSet(b.levels) { LevelIsListed(b, sh.stored, l); }
    forall l | l in sh.identities ensures l in LevelSet(b.levels) { LevelIsListed(b, sh.stored, l); }
  }

  lemma StoredIsOwn(b: Build, sh: Shared, i: nat)
    requires Recorded(b, sh) && Distinct(b.levels) && i in sh.stored && i < |b.levels|
    ensures var level := b.levels[i];
      && level in sh.compiled && sh.compiled[level] == b.binary(level)
      && level in sh.identities && i in sh.built && sh.identities[level] == sh.built[i]
  {
    hide Distinct, LevelStored;
  }

  /** A finished pool: success exactly when nothing failed, nobody cancelled and the levels are distinct. */
  lemma OutcomeExact(b: Build, tr: seq<State>, k: nat)
    requires Run(b, tr) && k < |tr| && Finished(tr[k])
    ensures var sh := tr[k].sh;
      && (Return(b, sh).Ok? <==> sh.firstErr.None? && !sh.parentDone && Distinct(b.levels))
      && (Return(b, sh) == Err(Incomplete) <==> sh.firstErr.None? && !sh.parentDone && !Distinct(b.levels))
      && Return(b, sh) != Err(DerivedCancelled)
  {
    hide Distinct, Recorded, Run, Finished, WorkerOk, Apart, Accounted, LevelSet;
    var s := tr[k];
    RunKeepsInv(b, tr, k);
    if s.sh.firstErr.None? {
      AllStored(b, s);
      CompiledLevels(b, s.sh);
      LevelCount(b.levels);
      LevelMembers(b.levels);
      assert forall i :: 0 <= i < |b.levels| ==> b.levels[i] in LevelSet(b.levels);
    }
  }

  /** Success gives every variant its own binary and the identity its own validation returned. */
  lemma SuccessIsComplete(b: Build, tr: seq<State>, k: nat, i: nat)
    requires Run(b, tr) && k < |tr| && Finished(tr[k]) && Return(b, tr[k].sh).Ok? && i < |b.levels|
    ensures var (paths, identities) := Return(b, tr[k].sh).value; var level := b.levels[i];
      && level in paths && paths[level] == b.binary(level)
      && level in identities && i in tr[k].sh.built && identities[level] == tr[k].sh.built[i]
      && paths.Keys == identities.Keys == LevelSet(b.levels) && |paths| == |b.levels|
  {
    hide Recorded, Distinct, Run, Finished, WorkerOk, Apart, Accounted, LevelSet;
    RunKeepsInv(b, tr, k);
    AllStored(b, tr[k]);
    OutcomeExact(b, tr, k);
    CompiledLevels(b, tr[k].sh);
    StoredIsOwn(b, tr[k].sh, i);
  }

  /** The pool never deadlocks: until every worker has stopped, some worker can move. */
  lemma NeverStuck(b: Build, tr: seq<State>, k: nat) returns (w: nat, op: Op)
    requires Run(b, tr) && k < |tr| && !Finished(tr[k])
    ensures w in tr[k].workers && Ready(b, tr[k].sh, tr[k].workers[w], op)
  {
    var s := tr[k];
    RunKeepsInv(b, tr, k);
    if v :| v in s.workers && Inside(s.workers[v]) {
      w := v;
    } else {
      w :| w in s.workers && !s.workers[w].Stopped?;
      assert s.sh.lock.Some? ==> WorkerOk(b, s.sh, s.sh.lock.value, s.workers[s.sh.lock.value]);
    }
    assert WorkerOk(b, s.sh, w, s.workers[w]);
    op := match s.workers[w]
      case Fetch => Take
      case Poll(_) => Observe
      case Compile(_) => Finish(true)
      case Validate(_) => Inspect(None)
      case Want(_, _) => Acquire
      case Hold(_, _) => Act
      case Cancelling => Cancel
      case Leaving(_) => Release
      case Stopped => Take;
  }

  // ---------------------------------------------------------------- every run does bounded work

  /** How many moves a worker can make before it takes another task. */
  function Rank(pc: Worker): nat {
    match pc
    case Stopped => 0
    case Fetch => 1
    case Leaving(_) => 2
    case Cancelling => 3
    case Hold(_, _) => 4
    case Want(_, _) => 5
    case Validate(_) => 6
    case Compile(_) => 7
    case Poll(_) => 8
  }

  ghost function Ranks(workers: map<nat, Worker>): nat
    decreases |workers|
  {
    if workers == map[] then 0
    else
      var w :| w in workers;
      Rank(workers[w]) + Ranks(workers - {w})
  }

  /** The sum of the ranks, with any one worker set apart. */
  lemma {:induction false} RanksSplit(workers: map<nat, Worker>, w: nat)
    requires w in workers
    ensures Ranks(workers) == Rank(workers[w]) + Ranks(workers - {w})
    decreases |workers|
  {
    var v :| v in workers && Ranks(workers) == Rank(workers[v]) + Ranks(workers - {v});
    if v != w {
      RanksSplit(workers - {v}, w);
      RanksSplit(workers - {w}, v);
      assert workers - {v} - {w} == workers - {w} - {v};
    }
  }

  lemma {:induction false} FreshRanks(workers: map<nat, Worker>)
    requires forall w :: w in workers ==> workers[w] == Fetch
    ensures Ranks(workers) == |workers|
    decreases |workers|
  {
    if workers != map[] {
      var w :| w in workers;
      RanksSplit(workers, w);
      FreshRanks(workers - {w});
    }
  }

  /** Ten moves for every task still in the channel, and what the workers have left to do. */
  ghost function Measure(b: Build, s: State): int { 10 * (|b.levels| - s.sh.next) + Ranks(s.workers) }

  lemma LocalDecreases(b: Build, sh: Shared, w: nat, pc: Worker, op: Op)
    requires Ready(b, sh, pc, op)
    ensures var (sh', pc') := Local(b, sh, w, pc, op);
      10 * (|b.levels| - sh'.next) + Rank(pc') < 10 * (|b.levels| - sh.next) + Rank(pc)
  {
  }

  lemma StepsAreMoves(b: Build, sh: Shared, w: nat, pc: Worker, op: Op)
    requires Ready(b, sh, pc, op)
    ensures Local(b, sh, w, pc, op).1 != pc
  {
  }

  lemma MoveDecreases(b: Build, s: State, s': State, w: nat, op: Op)
    requires WorkerStep(b, s, s', w, op)
    ensures Measure(b, s') < Measure(b, s) && s'.workers != s.workers
  {
    hide Local, Ready, Rank, Ranks;
    LocalDecreases(b, s.sh, w, s.workers[w], op);
    RanksSplit(s.workers, w);
    RanksSplit(s'.workers, w);
    assert s'.workers - {w} == s.workers - {w};
    StepsAreMoves(b, s.sh, w, s.workers[w], op);
  }

  /** How many of the first `k` steps were moves of a worker: only those change a worker. */
  ghost function Moves(tr: seq<State>, k: nat): nat
    requires k < |tr|
  {
    if k == 0 then 0 else Moves(tr, k - 1) + if tr[k].workers != tr[k - 1].workers then 1 else 0
  }

  lemma {:induction false} MovesSpendTheMeasure(b: Build, tr: seq<State>, k: nat)
    requires Run(b, tr) && k < |tr|
    ensures Moves(tr, k) + Measure(b, tr[k]) <= Measure(b, tr[0])
  {
    hide WorkerStep, Ranks;
    if k > 0 {
      MovesSpendTheMeasure(b, tr, k - 1);
      assert StepAt(b, tr, k - 1);
      var s, s' := tr[k - 1], tr[k];
      if exists w, op :: WorkerStep(b, s, s', w, op) {
        var w, op :| WorkerStep(b, s, s', w, op);
        MoveDecreases(b, s, s', w, op);
      }
    }
  }

  /**
   The pool finishes: whatever the interleaving, the workers make at most ten moves per task and one each besides; with
   `NeverStuck`, a run that cannot be continued by a worker has every worker stopped.
   */
  lemma BoundedWork(b: Build, tr: seq<State>, k: nat)
    requires Run(b, tr) && k < |tr|
    ensures Moves(tr, k) <= 10 * |b.levels| + |tr[0].workers|
  {
    MovesSpendTheMeasure(b, tr, k);
    RunKeepsInv(b, tr, k);
    FreshRanks(tr[0].workers);
    hide Moves, Ranks, Paths, Identities;
  }
}
