/** What calls of the cache protocol can achieve, and the hash loop as a program. */
module CacheProgress {
  import opened Basics
  import opened CacheProtocol

  function Goto(s: State, pid: Pid, pc: PC): State
    requires pid in s.procs
  {
    s.(procs := s.procs[pid := s.procs[pid].(pc := pc)])
  }

  /** Where an error sends a process: the failure outcome of the call it is about to make. */
  function OnError(pc: PC): PC {
    match pc
    case Opening(p) => Rejected(p)
    case Opened(p, _) => Rejected(p)
    case Verifying(p, _, _, _) => Corrupt(p)
    case Corrupt(p) => Rejected(p)
    case _ => if Held(pc).Some? then Cleanup(Held(pc).value.0, Held(pc).value.1) else Finished
  }

  lemma CanFail(s: State, proc: Proc, hash: Hash)
    requires PcFacts(s, proc, hash) && !Terminal(proc.pc) && !proc.pc.Cleanup?
    ensures LocalStep(s, proc, OnError(proc.pc), hash)
  {
  }

  /** No run leaves a process without a next move other than dying, until it has returned. */
  lemma NoProcessIsStuck(tr: seq<State>, i: nat, pid: Pid, hash: Hash) returns (a: Action, s': State)
    requires Run(tr, hash) && i < |tr| && pid in tr[i].procs && !Terminal(tr[i].procs[pid].pc)
    ensures Step(tr[i], s', pid, a, hash) && pid in s'.procs && !s'.procs[pid].pc.Dead?
  {
    hide PcFacts, LocalStep;
    RunKeepsInv(tr, i, hash);
    var s := tr[i];
    if s.procs[pid].pc.Cleanup? {
      a, s' := UnlinkTemp, Goto(s, pid, Finished).(dir := s.dir - {s.procs[pid].pc.tmp});
    } else {
      CanFail(s, s.procs[pid], hash);
      a, s' := Local(OnError(s.procs[pid].pc)), Goto(s, pid, OnError(s.procs[pid].pc));
    }
  }

  ghost predicate RunTo(tr: seq<State>, s0: State, s: State, hash: Hash) {
    Run(tr, hash) && tr[0] == s0 && tr[|tr| - 1] == s
  }

  lemma Extend(tr: seq<State>, s0: State, s: State, pid: Pid, a: Action, s': State, hash: Hash)
    returns (tr': seq<State>)
    requires RunTo(tr, s0, s, hash) && Step(s, s', pid, a, hash)
    ensures RunTo(tr', s0, s', hash)
  {
    tr' := tr + [s'];
    assert Next(s, s', hash);
    forall i: nat | i + 1 < |tr'| ensures StepAt(tr', i, hash) {
      if i + 1 < |tr| { assert StepAt(tr, i, hash); }
    }
  }

  lemma ExtendLocally(tr: seq<State>, s0: State, s: State, pid: Pid, next: PC, hash: Hash) returns (tr': seq<State>)
    requires RunTo(tr, s0, s, hash) && pid in s.procs && LocalStep(s, s.procs[pid], next, hash)
    ensures RunTo(tr', s0, Goto(s, pid, next), hash)
  {
    hide RunTo, LocalStep;
    tr' := Extend(tr, s0, s, pid, Local(next), Goto(s, pid, next), hash);
  }

  lemma LocalKeepsChunk(s: State, proc: Proc, n: nat, hash: Hash)
    requires proc.pc.Verifying? && PcFacts(s, proc, hash)
    requires ChunkRead(s.inodes[proc.pc.ino].bytes, proc.pc.offset, n)
    ensures var b := s.inodes[proc.pc.ino].bytes; var off := proc.pc.offset;
            PcFacts(s, proc.(pc := proc.pc.(offset := off + n, hashed := proc.pc.hashed + b[off..off + n])), hash)
  {
  }

  /** The hash loop reads an inode of any length to its end, chunk by chunk, and then decides. */
  lemma {:induction false} VerifyLoopReachesEnd(tr: seq<State>, s0: State, s: State, pid: Pid, hash: Hash)
    returns (tr': seq<State>)
    requires RunTo(tr, s0, s, hash)
    requires pid in s.procs && s.procs[pid].pc.Verifying? && PcFacts(s, s.procs[pid], hash)
    ensures var proc := s.procs[pid]; var ino := proc.pc.ino;
      var end := if hash(s.inodes[ino].bytes) == proc.entry.sha then Returned(ino) else Corrupt(proc.pc.purpose);
      RunTo(tr', s0, Goto(s, pid, end), hash)
    decreases |s.inodes[s.procs[pid].pc.ino].bytes| - s.procs[pid].pc.offset
  {
    hide RunTo;
    var proc := s.procs[pid];
    var Verifying(purpose, ino, off, hashed) := proc.pc;
    var bytes := s.inodes[ino].bytes;
    var end := if hash(bytes) == proc.entry.sha then Returned(ino) else Corrupt(purpose);
    if off == |bytes| {
      assert bytes[..off] == bytes;
      tr' := ExtendLocally(tr, s0, s, pid, end, hash);
    } else {
      var n: nat := if |bytes| - off < VERIFY_BUFFER_SIZE then |bytes| - off else VERIFY_BUFFER_SIZE;
      assert ChunkRead(bytes, off, n);
      var next := Verifying(purpose, ino, off + n, hashed + bytes[off..off + n]);
      LocalKeepsChunk(s, proc, n, hash);
      var mid := ExtendLocally(tr, s0, s, pid, next, hash);
      tr' := VerifyLoopReachesEnd(mid, s0, Goto(s, pid, next), pid, hash);
      assert Goto(Goto(s, pid, next), pid, end) == Goto(s, pid, end);
    }
  }

  /** The only process so far, in a directory of its own. */
  function Solo(dir: map<string, Ino>, inodes: map<Ino, Inode>, entry: Entry, pc: PC): State {
    State(dir, inodes, map[0 := Proc(entry, pc)])
  }

  lemma SoloStep(tr: seq<State>, s0: State, dir: map<string, Ino>, inodes: map<Ino, Inode>, entry: Entry, pc: PC,
                 next: PC, hash: Hash)
    returns (tr': seq<State>)
    requires RunTo(tr, s0, Solo(dir, inodes, entry, pc), hash)
    requires LocalStep(Solo(dir, inodes, entry, pc), Proc(entry, pc), next, hash)
    ensures RunTo(tr', s0, Solo(dir, inodes, entry, next), hash)
  {
    hide RunTo, LocalStep;
    tr' := ExtendLocally(tr, s0, Solo(dir, inodes, entry, pc), 0, next, hash);
    assert Goto(Solo(dir, inodes, entry, pc), 0, next) == Solo(dir, inodes, entry, next);
  }

  lemma ChmodStep(dir: map<string, Ino>, inodes: map<Ino, Inode>, entry: Entry, tmp: string, ino: Ino, hash: Hash)
    requires ino in inodes
    ensures Step(Solo(dir, inodes, entry, Digested(tmp, ino)),
                 Solo(dir, inodes[ino := inodes[ino].(ownerExec := true, unsafeBits := false)], entry,
                      Chmodded(tmp, ino)),
                 0, Chmod, hash)
  {
  }

  lemma CanBegin(s0: State, entry: Entry, hash: Hash) returns (tr: seq<State>)
    requires Init(s0)
    ensures RunTo(tr, s0, Solo(s0.dir, s0.inodes, entry, Begin), hash)
  {
    var s1 := Solo(s0.dir, s0.inodes, entry, Begin);
    assert Spawn(s0, s1, 0, Proc(entry, Begin));
    tr := [s0, s1];
    assert StepAt(tr, 0, hash);
  }

  /** The first names drawn may all exist already. */
  lemma {:induction false} CanCollide(tr: seq<State>, s0: State, dir: map<string, Ino>, inodes: map<Ino, Inode>,
                                      entry: Entry, k: nat, hash: Hash)
    returns (tr': seq<State>)
    requires RunTo(tr, s0, Solo(dir, inodes, entry, Creating(0)), hash) && k < 1000
    ensures RunTo(tr', s0, Solo(dir, inodes, entry, Creating(k)), hash)
  {
    if k == 0 {
      tr' := tr;
    } else {
      tr' := CanCollide(tr, s0, dir, inodes, entry, k - 1, hash);
      hide RunTo;
      tr' := SoloStep(tr', s0, dir, inodes, entry, Creating(k - 1), Creating(k), hash);
    }
  }

  lemma CreateStep(s0: State, entry: Entry, k: nat, tmp: string, ino: Ino, hash: Hash)
    requires IsTempName(tmp) && tmp !in s0.dir && ino !in s0.inodes
    ensures Step(Solo(s0.dir, s0.inodes, entry, Creating(k)),
                 Solo(s0.dir[tmp := ino], s0.inodes[ino := Inode(Regular, true, false, false, [])], entry,
                      Writing(tmp, ino, [])),
                 0, CreateTemp(tmp, ino, false), hash)
  {
  }

  lemma WriteStep(dir: map<string, Ino>, inodes: map<Ino, Inode>, entry: Entry, tmp: string, ino: Ino, payload: Bytes,
                  hash: Hash)
    requires ino in inodes && inodes[ino].bytes == []
    ensures Step(Solo(dir, inodes, entry, Writing(tmp, ino, [])),
                 Solo(dir, inodes[ino := inodes[ino].(bytes := payload)], entry, Writing(tmp, ino, payload)),
                 0, Write(payload, true), hash)
  {
    assert [] + payload == payload;
  }

  lemma MaterializationCanWrite(s0: State, entry: Entry, payload: Bytes, taken: nat, tmp: string, ino: Ino, hash: Hash)
    returns (tr: seq<State>, s: State)
    requires Init(s0) && MaterializableEntry(entry) && taken < 1000
    requires entry.sha in s0.dir ==> SafeMetadata(s0.inodes[s0.dir[entry.sha]])
    requires IsTempName(tmp) && tmp !in s0.dir && ino !in s0.inodes
    ensures RunTo(tr, s0, s, hash)
    ensures s == Solo(s0.dir[tmp := ino], s0.inodes[ino := Inode(Regular, true, false, false, payload)], entry,
                      Writing(tmp, ino, payload))
  {
    hide RunTo, Step, IsTempName, MaterializableEntry, SafeMetadata;
    var dir, inodes := s0.dir[tmp := ino], s0.inodes[ino := Inode(Regular, true, false, false, [])];
    tr := CanBegin(s0, entry, hash);
    tr := SoloStep(tr, s0, s0.dir, s0.inodes, entry, Begin, Creating(0), hash);
    tr := CanCollide(tr, s0, s0.dir, s0.inodes, entry, taken, hash);
    CreateStep(s0, entry, taken, tmp, ino, hash);
    tr := Extend(tr, s0, Solo(s0.dir, s0.inodes, entry, Creating(taken)), 0, CreateTemp(tmp, ino, false),
                 Solo(dir, inodes, entry, Writing(tmp, ino, [])), hash);
    WriteStep(dir, inodes, entry, tmp, ino, payload, hash);
    s := Solo(dir, s0.inodes[ino := Inode(Regular, true, false, false, payload)], entry, Writing(tmp, ino, payload));
    tr := Extend(tr, s0, Solo(dir, inodes, entry, Writing(tmp, ino, [])), 0, Write(payload, true), s, hash);
  }

  lemma MaterializationCanClose(s0: State, entry: Entry, payload: Bytes, taken: nat, tmp: string, ino: Ino, hash: Hash)
    returns (tr: seq<State>, s: State)
    requires Init(s0) && MaterializableEntry(entry) && taken < 1000
    requires entry.sha in s0.dir ==> SafeMetadata(s0.inodes[s0.dir[entry.sha]])
    requires hash(payload) == entry.sha
    requires IsTempName(tmp) && tmp !in s0.dir && ino !in s0.inodes
    ensures RunTo(tr, s0, s, hash)
    ensures s == Solo(s0.dir[tmp := ino], s0.inodes[ino := Inode(Regular, true, false, true, payload)], entry,
                      Closed(tmp, ino))
  {
    hide RunTo, Step, IsTempName, MaterializableEntry, SafeMetadata;
    var dir, fresh', done := s0.dir[tmp := ino],
      s0.inodes[ino := Inode(Regular, true, false, false, payload)],
      s0.inodes[ino := Inode(Regular, true, false, true, payload)];
    tr, s := MaterializationCanWrite(s0, entry, payload, taken, tmp, ino, hash);
    tr := SoloStep(tr, s0, dir, fresh', entry, Writing(tmp, ino, payload), Digested(tmp, ino), hash);
    ChmodStep(dir, fresh', entry, tmp, ino, hash);
    tr := Extend(tr, s0, Solo(dir, fresh', entry, Digested(tmp, ino)), 0, Chmod,
                 Solo(dir, done, entry, Chmodded(tmp, ino)), hash);
    tr := SoloStep(tr, s0, dir, done, entry, Chmodded(tmp, ino), Synced(tmp, ino), hash);
    tr := SoloStep(tr, s0, dir, done, entry, Synced(tmp, ino), Closed(tmp, ino), hash);
    s := Solo(dir, done, entry, Closed(tmp, ino));
  }

  lemma MaterializationCanPublish(s0: State, entry: Entry, payload: Bytes, taken: nat, tmp: string, ino: Ino,
                                  hash: Hash)
    returns (tr: seq<State>, s: State)
    requires Init(s0) && MaterializableEntry(entry) && taken < 1000
    requires entry.sha in s0.dir ==> SafeMetadata(s0.inodes[s0.dir[entry.sha]])
    requires |payload| == entry.size && hash(payload) == entry.sha
    requires IsTempName(tmp) && tmp !in s0.dir && ino !in s0.inodes
    ensures RunTo(tr, s0, s, hash)
    ensures 0 in s.procs && s.procs[0] == Proc(entry, Opening(Published))
    ensures s.dir == s0.dir[entry.sha := ino]
    ensures s.inodes == s0.inodes[ino := Inode(Regular, true, false, true, payload)]
  {
    hide RunTo;
    tr, s := MaterializationCanClose(s0, entry, payload, taken, tmp, ino, hash);
    var closed := s;
    s := Goto(s, 0, Opening(Published)).(dir := s0.dir[entry.sha := ino]);
    TempIsNotDigest(tmp);
    assert (closed.dir - {tmp})[entry.sha := ino] == s.dir;
    tr := Extend(tr, s0, closed, 0, Rename, s, hash);
  }

  /** Open, validate and hash: a bound, safe, executable and complete entry can be returned to whoever looks it up. */
  lemma OpenCanReturn(tr: seq<State>, s0: State, s: State, p: Purpose, entry: Entry, hash: Hash)
    returns (tr': seq<State>)
    requires RunTo(tr, s0, s, hash) && 0 in s.procs && s.procs[0] == Proc(entry, Opening(p)) && IsHexDigest(entry.sha)
    requires entry.sha in s.dir && s.dir[entry.sha] in s.inodes && Verified(s.inodes[s.dir[entry.sha]], entry, hash)
    ensures RunTo(tr', s0, Goto(s, 0, Returned(s.dir[entry.sha])), hash)
  {
    hide RunTo, IsHexDigest;
    var ino := s.dir[entry.sha];
    var s1 := Goto(s, 0, Opened(p, ino));
    tr' := ExtendLocally(tr, s0, s, 0, Opened(p, ino), hash);
    var s2 := Goto(s1, 0, Verifying(p, ino, 0, []));
    tr' := ExtendLocally(tr', s0, s1, 0, Verifying(p, ino, 0, []), hash);
    tr' := VerifyLoopReachesEnd(tr', s0, s2, 0, hash);
    assert Goto(s2, 0, Returned(ino)) == Goto(s, 0, Returned(ino));
  }

  /**
   The guards are not too strong: over any directory whose target is absent or safe, and after up to 999 names that
   were taken, a payload of any allowed size that hashes to its entry can be materialized up to a returned descriptor.
   */
  lemma MaterializationCanSucceed(s0: State, entry: Entry, payload: Bytes, taken: nat, tmp: string, ino: Ino,
                                  hash: Hash)
    returns (tr: seq<State>, s: State)
    requires Init(s0) && IsHexDigest(entry.sha) && 0 < entry.size <= 1024 * 1024 * 1024 && taken < 1000
    requires entry.sha in s0.dir ==>
      var node := s0.inodes[s0.dir[entry.sha]]; node.kind.Regular? && node.owned && !node.unsafeBits
    requires |payload| == entry.size && hash(payload) == entry.sha
    requires IsTempName(tmp) && tmp !in s0.dir && ino !in s0.inodes
    ensures RunTo(tr, s0, s, hash)
    ensures 0 in s.procs && s.procs[0] == Proc(entry, Returned(ino))
    ensures s.dir == s0.dir[entry.sha := ino]
  {
    hide RunTo, IsTempName;
    tr, s := MaterializationCanPublish(s0, entry, payload, taken, tmp, ino, hash);
    tr := OpenCanReturn(tr, s0, s, Published, entry, hash);
    s := Goto(s, 0, Returned(ino));
  }

  lemma CanLookUp(s0: State, entry: Entry, remove: bool, hash: Hash) returns (tr: seq<State>)
    requires Init(s0) && IsHexDigest(entry.sha)
    ensures RunTo(tr, s0, Solo(s0.dir, s0.inodes, entry, Opening(Lookup(remove))), hash)
  {
    hide IsHexDigest;
    var s1 := Solo(s0.dir, s0.inodes, entry, Opening(Lookup(remove)));
    assert Spawn(s0, s1, 0, Proc(entry, Opening(Lookup(remove))));
    tr := [s0, s1];
    assert StepAt(tr, 0, hash);
  }

  /** A lookup, removing or not, can return every entry that is there, and then leaves the directory as it was. */
  lemma LookupCanSucceed(s0: State, entry: Entry, remove: bool, hash: Hash) returns (tr: seq<State>, s: State)
    requires Init(s0) && IsHexDigest(entry.sha) && entry.sha in s0.dir
    requires var node := s0.inodes[s0.dir[entry.sha]];
      && node.kind.Regular? && node.owned && !node.unsafeBits && node.ownerExec
      && |node.bytes| == entry.size && hash(node.bytes) == entry.sha
    ensures RunTo(tr, s0, s, hash)
    ensures 0 in s.procs && s.procs[0] == Proc(entry, Returned(s0.dir[entry.sha]))
    ensures s.dir == s0.dir && s.inodes == s0.inodes
  {
    hide RunTo, IsHexDigest;
    tr := CanLookUp(s0, entry, remove, hash);
    s := Solo(s0.dir, s0.inodes, entry, Opening(Lookup(remove)));
    tr := OpenCanReturn(tr, s0, s, Lookup(remove), entry, hash);
    s := Goto(s, 0, Returned(s0.dir[entry.sha]));
  }

  lemma UnlinkStep(dir: map<string, Ino>, inodes: map<Ino, Inode>, entry: Entry, hash: Hash)
    ensures Step(Solo(dir, inodes, entry, Corrupt(Lookup(true))),
                 Solo(dir - {entry.sha}, inodes, entry, Rejected(Lookup(true))), 0, UnlinkEntry, hash)
  {
  }

  /** A removing lookup can clear a name of a safe, executable file whose size or bytes are wrong. */
  lemma CorruptEntryCanBeRemoved(s0: State, entry: Entry, hash: Hash) returns (tr: seq<State>, s: State)
    requires Init(s0) && IsHexDigest(entry.sha) && entry.sha in s0.dir
    requires var node := s0.inodes[s0.dir[entry.sha]];
      && node.kind.Regular? && node.owned && !node.unsafeBits && node.ownerExec
      && (|node.bytes| != entry.size || hash(node.bytes) != entry.sha)
    ensures RunTo(tr, s0, s, hash)
    ensures s.dir == s0.dir - {entry.sha} && s.inodes == s0.inodes
    ensures 0 in s.procs && s.procs[0] == Proc(entry, Rejected(Lookup(true)))
  {
    hide RunTo, IsHexDigest, Step;
    var dir, inodes, p, ino := s0.dir, s0.inodes, Lookup(true), s0.dir[entry.sha];
    tr := CanLookUp(s0, entry, true, hash);
    tr := SoloStep(tr, s0, dir, inodes, entry, Opening(p), Opened(p, ino), hash);
    var corrupt := Solo(dir, inodes, entry, Corrupt(p));
    if |inodes[ino].bytes| != entry.size {
      tr := SoloStep(tr, s0, dir, inodes, entry, Opened(p, ino), Corrupt(p), hash);
    } else {
      tr := SoloStep(tr, s0, dir, inodes, entry, Opened(p, ino), Verifying(p, ino, 0, []), hash);
      tr := VerifyLoopReachesEnd(tr, s0, Solo(dir, inodes, entry, Verifying(p, ino, 0, [])), 0, hash);
      assert Goto(Solo(dir, inodes, entry, Verifying(p, ino, 0, [])), 0, Corrupt(p)) == corrupt;
    }
    UnlinkStep(dir, inodes, entry, hash);
    s := Solo(dir - {entry.sha}, inodes, entry, Rejected(p));
    tr := Extend(tr, s0, corrupt, 0, UnlinkEntry, s, hash);
  }

  /** The purpose of a call that is looking at an entry. */
  function PurposeOf(pc: PC): Option<Purpose> {
    match pc
    case Opening(p) => Some(p)
    case Opened(p, _) => Some(p)
    case Verifying(p, _, _, _) => Some(p)
    case Corrupt(p) => Some(p)
    case Rejected(p) => Some(p)
    case _ => None
  }

  /** A lookup never changes a file; at most it unbinds its own name, when told to and after a mismatch. */
  lemma LookupsOnlyRemoveCorrupt(s: State, s': State, pid: Pid, a: Action, hash: Hash)
    requires Step(s, s', pid, a, hash) && PurposeOf(s.procs[pid].pc).Some? && PurposeOf(s.procs[pid].pc).value.Lookup?
    ensures s'.inodes == s.inodes && (s'.dir == s.dir || s'.dir == s.dir - {s.procs[pid].entry.sha})
    ensures s'.dir != s.dir ==> s.procs[pid].pc == Corrupt(Lookup(true))
  {
  }

  /** Once hashing has begun, a lookup ends in a returned descriptor or in a mismatch. */
  lemma HashingDecides(s: State, proc: Proc, next: PC, hash: Hash)
    requires proc.pc.Verifying? && LocalStep(s, proc, next, hash)
    ensures next.Verifying? || next == Corrupt(proc.pc.purpose) || next == Returned(proc.pc.ino)
  {
  }

  // ---------------------------------------------------------------- the hash loop as a program

  /** One `pread`: an error, or a number of bytes. */
  datatype Pread = ReadError | ReadCount(n: nat)

  /** The kernel's contract: at least one byte before the end of file, none at it, never more than the buffer. */
  ghost predicate PreadContract(content: Bytes, pread: nat -> Pread) {
    forall off: nat | off <= |content| && pread(off).ReadCount? ::
      if off == |content| then pread(off).n == 0 else ChunkRead(content, off, pread(off).n)
  }

  /** `verifyCachedFD`: true exactly when no read failed and the whole content hashes to `expected`. */
  method VerifyCachedFD(content: Bytes, pread: nat -> Pread, expected: string, hash: Hash) returns (ok: bool)
    requires PreadContract(content, pread)
    ensures ok ==> hash(content) == expected
    ensures (forall off: nat :: off <= |content| ==> pread(off).ReadCount?) ==> (ok <==> hash(content) == expected)
  {
    var hashed: Bytes := [];
    var offset: nat := 0;
    while true
      invariant offset <= |content| && hashed == content[..offset]
      decreases |content| - offset
    {
      var r := pread(offset);
      if r.ReadError? {
        return false;
      }
      if r.n == 0 {
        break;
      }
      assert content[..offset] + content[offset..offset + r.n] == content[..offset + r.n];
      hashed := hashed + content[offset..offset + r.n];
      offset := offset + r.n;
    }
    assert content[..offset] == content;
    ok := hash(hashed) == expected;
  }
}
