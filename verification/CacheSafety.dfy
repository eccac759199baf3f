/** What every run of the cache protocol guarantees, whatever it began with. */
module CacheSafety {
  import opened Basics
  import opened CacheProtocol

  /** Nobody holds inode `i` as a temp file. */
  ghost predicate Unheld(s: State, i: Ino) {
    forall p :: p in s.procs && Held(s.procs[p].pc).Some? ==> Held(s.procs[p].pc).value.1 != i
  }

  lemma StepFreezes(s: State, s': State, pid: Pid, a: Action, i: Ino, hash: Hash)
    requires Step(s, s', pid, a, hash) && PcFacts(s, s.procs[pid], hash) && "" !in s.dir
    requires i in s.inodes && Unheld(s, i)
    ensures i in s'.inodes && s'.inodes[i] == s.inodes[i] && Unheld(s', i)
  {
    if a.Local? {
      LocalIsNoNewHolder(s, pid, a.next, hash);
    }
  }

  /** Publication freezes: an inode that no process holds is never written again, nor held again. */
  lemma UnheldIsFrozen(s0: State, s: State, s': State, i: Ino, hash: Hash)
    requires Inv(s0, s, hash) && Next(s, s', hash)
    requires i in s.inodes && Unheld(s, i)
    ensures i in s'.inodes && s'.inodes[i] == s.inodes[i] && Unheld(s', i)
  {
    if pid, a :| Step(s, s', pid, a, hash) {
      assert PcFacts(s, s.procs[pid], hash);
      StepFreezes(s, s', pid, a, i, hash);
    }
  }

  lemma FrozenStep(tr: seq<State>, j: nat, ino: Ino, hash: Hash)
    requires Run(tr, hash) && j + 1 < |tr|
    requires ino in tr[j].inodes && Unheld(tr[j], ino)
    ensures ino in tr[j + 1].inodes && tr[j + 1].inodes[ino] == tr[j].inodes[ino] && Unheld(tr[j + 1], ino)
  {
    RunKeepsInv(tr, j, hash);
    assert StepAt(tr, j, hash);
    UnheldIsFrozen(tr[0], tr[j], tr[j + 1], ino, hash);
  }

  lemma {:induction false} FrozenThroughRun(tr: seq<State>, i: nat, j: nat, ino: Ino, hash: Hash)
    requires Run(tr, hash) && i <= j < |tr|
    requires ino in tr[i].inodes && Unheld(tr[i], ino)
    ensures ino in tr[j].inodes && tr[j].inodes[ino] == tr[i].inodes[ino] && Unheld(tr[j], ino)
  {
    if i < j {
      FrozenThroughRun(tr, i, j - 1, ino, hash);
      FrozenStep(tr, j - 1, ino, hash);
    }
  }

  /**
   Main theorem. Whatever the other processes do, whatever the directory began with, a descriptor
   handed to a caller names a regular, safely owned, executable inode of exactly the declared size
   whose bytes hash to the entry's digest, and it stays so for the rest of the run, also when the
   name is later replaced or unlinked.
   */
  lemma DescriptorStaysVerified(tr: seq<State>, i: nat, j: nat, pid: Pid, hash: Hash)
    requires Run(tr, hash) && i <= j < |tr|
    requires pid in tr[i].procs && tr[i].procs[pid].pc.Returned?
    ensures tr[i].procs[pid].pc.ino in tr[j].inodes
    ensures Verified(tr[j].inodes[tr[i].procs[pid].pc.ino], tr[i].procs[pid].entry, hash)
    ensures var node := tr[j].inodes[tr[i].procs[pid].pc.ino];
      && node.kind.Regular? && node.owned && !node.unsafeBits && node.ownerExec
      && |node.bytes| == tr[i].procs[pid].entry.size && hash(node.bytes) == tr[i].procs[pid].entry.sha
  {
    RunKeepsInv(tr, i, hash);
    var ino := tr[i].procs[pid].pc.ino;
    assert PcFacts(tr[i], tr[i].procs[pid], hash);
    forall p | p in tr[i].procs && Held(tr[i].procs[p].pc).Some? ensures Held(tr[i].procs[p].pc).value.1 != ino {
      assert Apart(tr[i], p, pid);
    }
    FrozenThroughRun(tr, i, j, ino, hash);
  }

  /** A digest name of the initial directory that is absent, or bound to bytes that hash to it. */
  predicate AbsentOrComplete(s: State, name: string, hash: Hash) {
    name in s.dir ==> s.dir[name] in s.inodes && hash(s.inodes[s.dir[name]].bytes) == name
  }

  /**
   In every reachable state, deaths included, a bound digest name leads to a complete entry (safe, executable,
   hashing to the name) or still to its initial inode, unchanged; one that began absent or with the right bytes
   stays so.
   */
  lemma DigestNamesStayComplete(tr: seq<State>, i: nat, name: string, hash: Hash)
    requires Run(tr, hash) && i < |tr|
    requires IsHexDigest(name)
    ensures AbsentOrComplete(tr[0], name, hash) ==> AbsentOrComplete(tr[i], name, hash)
    ensures name in tr[i].dir ==>
      && tr[i].dir[name] in tr[i].inodes
      && var node := tr[i].inodes[tr[i].dir[name]];
         (|| (&& node.kind.Regular? && node.owned && !node.unsafeBits && node.ownerExec && hash(node.bytes) == name)
          || (name in tr[0].dir && tr[i].dir[name] == tr[0].dir[name] && tr[0].dir[name] in tr[0].inodes
              && node == tr[0].inodes[tr[0].dir[name]]))
  {
    RunKeepsInv(tr, i, hash);
    if name in tr[i].dir {
      assert Accounted(tr[0], tr[i], name, hash);
      if p :| HoldsTemp(tr[i], p, name) {
        assert HeldBound(tr[0], tr[i], p);
        TempIsNotDigest(name);
      }
    }
  }

  /**
   Bytes that are still being written, or were left partial by a failed or killed process, are bound
   to a temp name only; every other name that an inode of this run has got is a complete entry.
   */
  lemma PartialBytesOnlyUnderTempNames(tr: seq<State>, i: nat, name: string, hash: Hash)
    requires Run(tr, hash) && i < |tr|
    requires name in tr[i].dir && tr[i].dir[name] !in tr[0].inodes
    ensures tr[i].dir[name] in tr[i].inodes
    ensures !IsTempName(name) ==> Unheld(tr[i], tr[i].dir[name])
    ensures !IsTempName(name) ==> Publishable(tr[i].inodes[tr[i].dir[name]], name, hash)
  {
    RunKeepsInv(tr, i, hash);
    assert Accounted(tr[0], tr[i], name, hash);
    if !IsTempName(name) {
      forall p | p in tr[i].procs && Held(tr[i].procs[p].pc).Some?
        ensures Held(tr[i].procs[p].pc).value.1 != tr[i].dir[name]
      {
        assert HeldBound(tr[0], tr[i], p) && OneName(tr[i], p, name);
      }
    }
  }

  /**
   A temp name that the run did not begin with belongs to a process that is still between creation
   and cleanup, or died there: a call that returns leaves none behind.
   */
  lemma TempNamesHaveALiveOrDeadHolder(tr: seq<State>, i: nat, name: string, hash: Hash)
    requires Run(tr, hash) && i < |tr|
    requires IsTempName(name) && name in tr[i].dir
    ensures (name in tr[0].dir && tr[i].dir[name] == tr[0].dir[name])
         || (exists p :: HoldsTemp(tr[i], p, name) && (tr[i].procs[p].pc.Dead? || !Terminal(tr[i].procs[p].pc)))
  {
    RunKeepsInv(tr, i, hash);
    assert Accounted(tr[0], tr[i], name, hash);
    TempIsNotDigest(name);
    if p :| HoldsTemp(tr[i], p, name) {
      assert tr[i].procs[p].pc.Dead? || !Terminal(tr[i].procs[p].pc);
    }
  }

  /** No call ever has a symbolic link open, whatever stands in the directory. */
  lemma SymlinksAreNeverOpened(tr: seq<State>, i: nat, pid: Pid, hash: Hash)
    requires Run(tr, hash) && i < |tr| && pid in tr[i].procs && Reading(tr[i].procs[pid].pc).Some?
    ensures var ino := Reading(tr[i].procs[pid].pc).value; ino in tr[i].inodes && !tr[i].inodes[ino].kind.Symlink?
  {
    RunKeepsInv(tr, i, hash);
    assert PcFacts(tr[i], tr[i].procs[pid], hash);
  }

  /**
   A temp file exists only for an entry that passed the argument checks, and at most a thousand names are drawn for it.
   */
  lemma ArgumentsWereChecked(tr: seq<State>, i: nat, pid: Pid, hash: Hash)
    requires Run(tr, hash) && i < |tr| && pid in tr[i].procs && !tr[i].procs[pid].pc.Dead?
    requires tr[i].procs[pid].pc.Creating? || Held(tr[i].procs[pid].pc).Some?
    ensures var e := tr[i].procs[pid].entry; IsHexDigest(e.sha) && 0 < e.size <= 1024 * 1024 * 1024
    ensures tr[i].procs[pid].pc.Creating? ==> tr[i].procs[pid].pc.attempts < 1000
  {
    RunKeepsInv(tr, i, hash);
    assert PcFacts(tr[i], tr[i].procs[pid], hash);
  }

  /** Where the calls for a name can be that is bound to an unsafe inode. */
  predicate KeptOut(pc: PC, ino: Ino) {
    match pc
    case Begin => true
    case Opening(p) => p.Lookup?
    case Opened(p, i) => p.Lookup? && i == ino
    case Rejected(p) => p.Lookup?
    case Finished => true
    case Dead(left) => left.None?
    case _ => false
  }

  ghost predicate Untouched(s: State, name: string, node: Inode) {
    && name in s.dir && s.dir[name] in s.inodes && s.inodes[s.dir[name]] == node
    && forall p :: p in s.procs && s.procs[p].entry.sha == name ==> KeptOut(s.procs[p].pc, s.dir[name])
  }

  lemma StepHasProcess(s: State, s': State, pid: Pid, a: Action, hash: Hash)
    requires Step(s, s', pid, a, hash)
    ensures pid in s.procs
  {
  }

  lemma SpawnedIsOut(proc: Proc, ino: Ino)
    requires proc.pc == Begin || (proc.pc.Opening? && proc.pc.purpose.Lookup?)
    ensures KeptOut(proc.pc, ino)
  {
  }

  lemma OwnStepKeepsOut(s: State, s': State, pid: Pid, a: Action, name: string, hash: Hash)
    requires Step(s, s', pid, a, hash) && s.procs[pid].entry.sha == name
    requires name in s.dir && s.dir[name] in s.inodes && !SafeMetadata(s.inodes[s.dir[name]])
    requires KeptOut(s.procs[pid].pc, s.dir[name])
    ensures s'.dir == s.dir && pid in s'.procs && Moved(s, s', pid, s'.procs[pid])
    ensures s'.procs[pid].entry.sha == name && KeptOut(s'.procs[pid].pc, s.dir[name])
  {
    hide SafeMetadata;
  }

  lemma OtherStepKeepsName(s0: State, s: State, s': State, pid: Pid, a: Action, name: string, hash: Hash)
    requires Step(s, s', pid, a, hash) && s.procs[pid].entry.sha != name && HeldBound(s0, s, pid)
    requires IsHexDigest(name) && name in s.dir
    ensures name in s'.dir && s'.dir[name] == s.dir[name]
    ensures pid in s'.procs && Moved(s, s', pid, s'.procs[pid]) && s'.procs[pid].entry.sha != name
  {
    if IsTempName(name) { TempIsNotDigest(name); }
    hide IsHexDigest, IsTempName, LocalStep, DeathStep;
  }

  lemma UntouchedStep(s0: State, s: State, s': State, name: string, node: Inode, hash: Hash)
    requires Inv(s0, s, hash) && Next(s, s', hash) && IsHexDigest(name)
    requires Untouched(s, name, node) && !SafeMetadata(node) && Unheld(s, s.dir[name])
    ensures Untouched(s', name, node) && s'.dir[name] == s.dir[name]
  {
    UnheldIsFrozen(s0, s, s', s.dir[name], hash);
    hide IsHexDigest, Step, HeldBound, KeptOut, SafeMetadata;
    if pid, a :| Step(s, s', pid, a, hash) {
      assert pid in s.procs by { StepHasProcess(s, s', pid, a, hash); }
      if s.procs[pid].entry.sha == name {
        OwnStepKeepsOut(s, s', pid, a, name, hash);
      } else {
        OtherStepKeepsName(s0, s, s', pid, a, name, hash);
      }
    } else {
      var pid, proc :| Spawn(s, s', pid, proc);
      SpawnedIsOut(proc, s.dir[name]);
    }
  }

  /**
   The launcher never takes over an entry it does not trust: a digest name bound at the start to anything but a safely
   owned regular file stays bound to it, unchanged, whatever lookups and materializations of that name are called.
   */
  lemma {:induction false} UnsafeEntryStays(tr: seq<State>, i: nat, name: string, hash: Hash)
    requires Run(tr, hash) && i < |tr| && IsHexDigest(name) && name in tr[0].dir
    requires var node := tr[0].inodes[tr[0].dir[name]]; !(node.kind.Regular? && node.owned && !node.unsafeBits)
    ensures Untouched(tr[i], name, tr[0].inodes[tr[0].dir[name]]) && tr[i].dir[name] == tr[0].dir[name]
  {
    if i > 0 {
      UnsafeEntryStays(tr, i - 1, name, hash);
      RunKeepsInv(tr, i - 1, hash);
      assert StepAt(tr, i - 1, hash);
      FrozenThroughRun(tr, 0, i - 1, tr[0].dir[name], hash);
      hide Inv, IsHexDigest, Untouched, Next;
      UntouchedStep(tr[0], tr[i - 1], tr[i], name, tr[0].inodes[tr[0].dir[name]], hash);
    }
  }

  lemma OthersLeaveHeldAlone(s0: State, s: State, s': State, pid: Pid, q: Pid, a: Action, hash: Hash)
    requires Inv(s0, s, hash) && Step(s, s', q, a, hash)
    requires pid in s.procs && pid != q && Held(s.procs[pid].pc).Some?
    ensures var ino := Held(s.procs[pid].pc).value.1;
      ino in s.inodes && ino in s'.inodes && s'.inodes[ino] == s.inodes[ino]
    ensures pid in s'.procs && s'.procs[pid] == s.procs[pid]
  {
    ViewedInodesExist(s, pid, hash);
    assert Apart(s, q, pid);
  }

  lemma OthersKeepTheirs(s: State, s': State, q: Pid, a: Action, hash: Hash)
    requires Step(s, s', q, a, hash)
    ensures q in s.procs && forall p :: p in s'.procs && p != q ==> p in s.procs && s'.procs[p] == s.procs[p]
  {
    hide LocalStep, DeathStep;
  }

  lemma ClosedComesFromSynced(s: State, s': State, pid: Pid, a: Action, hash: Hash)
    requires Step(s, s', pid, a, hash) && pid in s'.procs && s'.procs[pid].pc.Closed?
    ensures s.procs[pid].pc == Synced(s'.procs[pid].pc.tmp, s'.procs[pid].pc.ino)
    ensures s'.inodes == s.inodes
  {
  }

  ghost predicate SyncedAt(tr: seq<State>, j: nat, pid: Pid, tmp: string, ino: Ino, node: Inode) {
    && j < |tr| && pid in tr[j].procs && tr[j].procs[pid].pc == Synced(tmp, ino)
    && ino in tr[j].inodes && tr[j].inodes[ino] == node
  }

  lemma RunStarts(tr: seq<State>, hash: Hash)
    requires Run(tr, hash)
    ensures |tr| > 0 && tr[0].procs == map[]
  {
  }

  lemma RunSteps(tr: seq<State>, i: nat, hash: Hash)
    requires Run(tr, hash) && i + 1 < |tr|
    ensures Next(tr[i], tr[i + 1], hash)
  {
    assert StepAt(tr, i, hash);
    hide Next;
  }

  /** A step that ends with a closed temp file found it closed, or synced, and left its inode alone. */
  lemma ClosedBefore(s0: State, s: State, s': State, pid: Pid, hash: Hash)
    requires Inv(s0, s, hash) && Next(s, s', hash) && pid in s'.procs && s'.procs[pid].pc.Closed?
    ensures var pc := s'.procs[pid].pc; var ino := pc.ino;
      && pid in s.procs && (s.procs[pid].pc == pc || s.procs[pid].pc == Synced(pc.tmp, ino))
      && ino in s.inodes && ino in s'.inodes && s'.inodes[ino] == s.inodes[ino]
  {
    hide Step, PcFacts, PrivacyInv, Accounted;
    if q, a :| Step(s, s', q, a, hash) {
      if q == pid {
        StepHasProcess(s, s', q, a, hash);
        ClosedComesFromSynced(s, s', pid, a, hash);
      } else {
        OthersKeepTheirs(s, s', q, a, hash);
        OthersLeaveHeldAlone(s0, s, s', pid, q, a, hash);
      }
    }
    ViewedInodesExist(s, pid, hash);
  }

  lemma {:induction false} ClosedWasSynced(tr: seq<State>, i: nat, pid: Pid, hash: Hash) returns (j: nat)
    requires Run(tr, hash) && i < |tr| && pid in tr[i].procs && tr[i].procs[pid].pc.Closed?
    ensures var pc := tr[i].procs[pid].pc;
      j < i && pc.ino in tr[i].inodes && SyncedAt(tr, j, pid, pc.tmp, pc.ino, tr[i].inodes[pc.ino])
  {
    hide Inv, Next, Run, Init;
    RunStarts(tr, hash);
    RunKeepsInv(tr, i - 1, hash);
    RunSteps(tr, i - 1, hash);
    ClosedBefore(tr[0], tr[i - 1], tr[i], pid, hash);
    if tr[i - 1].procs[pid].pc.Synced? {
      j := i - 1;
    } else {
      j := ClosedWasSynced(tr, i - 1, pid, hash);
    }
  }

  /** What a rename publishes under the digest name is, byte for byte, what its writer had flushed to disk before. */
  lemma PublishedWasSynced(tr: seq<State>, i: nat, pid: Pid, hash: Hash) returns (j: nat, tmp: string)
    requires Run(tr, hash) && i + 1 < |tr| && Step(tr[i], tr[i + 1], pid, Rename, hash)
    ensures var name := tr[i].procs[pid].entry.sha; var s' := tr[i + 1];
      && name in s'.dir && s'.dir[name] in s'.inodes
      && j < i && SyncedAt(tr, j, pid, tmp, s'.dir[name], s'.inodes[s'.dir[name]])
  {
    RunKeepsInv(tr, i, hash);
    assert HeldBound(tr[0], tr[i], pid);
    tmp := tr[i].procs[pid].pc.tmp;
    j := ClosedWasSynced(tr, i, pid, hash);
  }
}
