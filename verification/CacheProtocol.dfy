/**
 The content-addressed payload cache as a protocol between processes that share one directory.

 A directory binds names to inodes; an inode holds bytes and the metadata the validator looks at.
 Each process is one call of `OpenAndValidateAtFDWithOpener` or `materializeAndOpenVariantAtFD`,
 represented by its program counter. Between any two system calls every other process may run,
 every system call may fail, and every process may die. SHA-256 is an arbitrary function `hash`
 to strings; the only writers are the processes of the protocol.
 */
module CacheProtocol {
  import opened Basics

  type Pid = nat
  type Ino = nat
  type Hash = Bytes -> string

  const MAX_TEMP_FILE_ATTEMPTS: nat := 1000
  const VERIFY_BUFFER_SIZE: nat := 64 * 1024

  datatype Kind = Regular | Symlink | Special

  /** What `fstat` and `pread` can tell about an inode. */
  datatype Inode = Inode(kind: Kind, owned: bool, unsafeBits: bool, ownerExec: bool, bytes: Bytes)

  /** The two fields of a variant entry that the cache uses. */
  datatype Entry = Entry(sha: string, size: int)

  /** `validateCacheEntryMetadata`: a regular file of this user without write-by-others or set-id bits. */
  predicate SafeMetadata(node: Inode) {
    node.kind.Regular? && node.owned && !node.unsafeBits
  }

  /** Everything that a descriptor handed to a caller promises about its inode. */
  predicate Verified(node: Inode, entry: Entry, hash: Hash) {
    && SafeMetadata(node)
    && node.ownerExec
    && |node.bytes| == entry.size
    && hash(node.bytes) == entry.sha
  }

  predicate IsSmallHex(c: char) { '0' <= c <= '9' || 'a' <= c <= 'f' }

  /** What `createTempFileAt` makes of eight random bytes. */
  predicate IsTempName(name: string) {
    && |name| == 26
    && name[..6] == ".exec-"
    && (forall i :: 6 <= i < 22 ==> IsSmallHex(name[i]))
    && name[22..] == ".tmp"
  }

  /** The temp names are `.exec-`, sixteen hexadecimal digits in small letters, and `.tmp`. */
  lemma TempNamesExact(name: string)
    ensures IsTempName(name) <==>
      exists hex: string ::
        |hex| == 16 && name == ".exec-" + hex + ".tmp" && forall c :: c in hex ==> c in "0123456789abcdef"
  {
    var digits := "0123456789abcdef";
    assert forall c :: c in digits <==> IsSmallHex(c) by {
      forall c | IsSmallHex(c) ensures c in digits {
        assert digits[if c <= '9' then c as int - 48 else c as int - 87] == c;
      }
    }
    if IsTempName(name) {
      var hex := name[6..22];
      assert name == ".exec-" + hex + ".tmp";
    }
  }

  /** Who opened: a lookup (which may unlink a corrupt entry) or a publisher that reopens its entry. */
  datatype Purpose = Lookup(removeOnCorrupt: bool) | Published

  datatype PC =
    | Begin                                                              // materialization called
    | Creating(attempts: nat)                                            // target checked, drawing temp names
    | Writing(tmp: string, ino: Ino, hashed: Bytes)                      // streaming into file and hasher
    | Digested(tmp: string, ino: Ino)                                    // stream hash equals the entry's
    | Chmodded(tmp: string, ino: Ino)
    | Synced(tmp: string, ino: Ino)
    | Closed(tmp: string, ino: Ino)                                      // no writable descriptor left
    | Cleanup(tmp: string, ino: Ino)                                     // deferred close and unlink pending
    | Opening(purpose: Purpose)
    | Opened(purpose: Purpose, ino: Ino)
    | Verifying(purpose: Purpose, ino: Ino, offset: nat, hashed: Bytes)
    | Corrupt(purpose: Purpose)                                          // size or checksum mismatch
    | Rejected(purpose: Purpose)                                         // validation returned an error
    | Returned(ino: Ino)                                                 // caller owns a verified descriptor
    | Finished                                                           // returned an error, or descriptor closed
    | Dead(left: Option<(string, Ino)>)                                  // killed, or unlink failed: may leave a temp

  datatype Proc = Proc(entry: Entry, pc: PC)

  datatype State = State(dir: map<string, Ino>, inodes: map<Ino, Inode>, procs: map<Pid, Proc>)

  /** The temp file that a process created and has not yet renamed or unlinked. */
  function Held(pc: PC): Option<(string, Ino)> {
    match pc
    case Writing(t, i, _) => Some((t, i))
    case Digested(t, i) => Some((t, i))
    case Chmodded(t, i) => Some((t, i))
    case Synced(t, i) => Some((t, i))
    case Closed(t, i) => Some((t, i))
    case Cleanup(t, i) => Some((t, i))
    case Dead(left) => left
    case _ => None
  }

  /** The inode behind a read descriptor of a process. */
  function Reading(pc: PC): Option<Ino> {
    match pc
    case Opened(_, i) => Some(i)
    case Verifying(_, i, _, _) => Some(i)
    case Returned(i) => Some(i)
    case _ => None
  }

  predicate Terminal(pc: PC) {
    pc.Returned? || pc.Finished? || pc.Dead?
  }

  // ---------------------------------------------------------------- the steps of one process

  datatype Action =
    | Local(next: PC)                                      // no change to directory or inodes
    | CreateTemp(name: string, newIno: Ino, umaskExec: bool)
    | Write(chunk: Bytes, ok: bool)                        // a failed write may leave a partial chunk
    | Chmod
    | Rename
    | UnlinkTemp
    | UnlinkEntry

  /** The entry check at the head of `materializeAndOpenVariantAtFD`. */
  predicate MaterializableEntry(e: Entry) {
    IsHexDigest(e.sha) && 0 < e.size <= MAX_PAYLOAD_SIZE
  }

  predicate ChunkRead(bytes: Bytes, off: nat, n: nat) {
    1 <= n <= VERIFY_BUFFER_SIZE && off + n <= |bytes|
  }

  /** Steps that read the shared state at most: each line is one outcome of one system call. */
  ghost predicate LocalStep(s: State, proc: Proc, next: PC, hash: Hash) {
    var name := proc.entry.sha;
    match proc.pc
    case Begin =>
      // argument checks, then fstatat of the replacement target
      || next == Finished
      || (&& next == Creating(0)
          && MaterializableEntry(proc.entry)
          && (name in s.dir ==> s.dir[name] in s.inodes && SafeMetadata(s.inodes[s.dir[name]])))
    case Creating(k) =>
      || next == Finished
      || (next == Creating(k + 1) && k + 1 < MAX_TEMP_FILE_ATTEMPTS)     // name drawn already exists
    case Writing(t, i, hashed) =>
      || next == Cleanup(t, i)
      || (next == Digested(t, i) && hash(hashed) == name)
    case Digested(t, i) => next == Cleanup(t, i)                         // chmod failed
    case Chmodded(t, i) => next == Cleanup(t, i) || next == Synced(t, i)
    case Synced(t, i) => next == Cleanup(t, i) || next == Closed(t, i)
    case Closed(t, i) => next == Cleanup(t, i)                           // rename failed
    case Opening(p) =>
      || next == Rejected(p)
      || (&& name in s.dir && s.dir[name] in s.inodes
          && !s.inodes[s.dir[name]].kind.Symlink?                        // O_NOFOLLOW
          && next == Opened(p, s.dir[name]))
    case Opened(p, i) =>
      || next == Rejected(p)
      || (&& i in s.inodes && SafeMetadata(s.inodes[i]) && s.inodes[i].ownerExec
          && next == if |s.inodes[i].bytes| == proc.entry.size then Verifying(p, i, 0, []) else Corrupt(p))
    case Verifying(p, i, off, hashed) =>
      && i in s.inodes
      && var bytes := s.inodes[i].bytes;
      || next == Corrupt(p)                                              // pread failed
      || (exists n: nat :: ChunkRead(bytes, off, n) && next == Verifying(p, i, off + n, hashed + bytes[off..off + n]))
      || (&& off >= |bytes|
          && next == if hash(hashed) == name then Returned(i) else Corrupt(p))
    case Corrupt(p) => next == Rejected(p)                               // nothing to remove, or unlink failed
    case Rejected(p) => next == Finished                                 // likewise
    case Returned(i) => next == Finished                                 // caller closes
    case _ => false
  }

  /** Death is possible everywhere; the temp file then stays behind, as it does when its unlink fails. */
  predicate DeathStep(proc: Proc, next: PC) {
    !proc.pc.Dead? && next == Dead(Held(proc.pc))
  }

  ghost predicate Step(s: State, s': State, pid: Pid, a: Action, hash: Hash) {
    && pid in s.procs
    && var proc := s.procs[pid];
    && var name := proc.entry.sha;
    match a
    case Local(next) =>
      && (LocalStep(s, proc, next, hash) || DeathStep(proc, next))
      && s' == s.(procs := s.procs[pid := proc.(pc := next)])
    case CreateTemp(tmp, ino, exec) =>
      // openat(O_CREAT|O_EXCL, 0700): fails unless the name is free
      && proc.pc.Creating? && IsTempName(tmp) && tmp !in s.dir && ino !in s.inodes
      && s' == State(s.dir[tmp := ino],
                     s.inodes[ino := Inode(Regular, true, false, exec, [])],
                     s.procs[pid := proc.(pc := Writing(tmp, ino, []))])
    case Write(chunk, ok) =>
      && proc.pc.Writing? && proc.pc.ino in s.inodes
      && var node := s.inodes[proc.pc.ino];
      && s' == s.(inodes := s.inodes[proc.pc.ino := node.(bytes := node.bytes + chunk)],
                  procs := s.procs[pid := proc.(pc :=
                    if ok then Writing(proc.pc.tmp, proc.pc.ino, proc.pc.hashed + chunk)
                    else Cleanup(proc.pc.tmp, proc.pc.ino))])
    case Chmod =>
      && proc.pc.Digested? && proc.pc.ino in s.inodes
      && s' == s.(inodes := s.inodes[proc.pc.ino := s.inodes[proc.pc.ino].(ownerExec := true, unsafeBits := false)],
                  procs := s.procs[pid := proc.(pc := Chmodded(proc.pc.tmp, proc.pc.ino))])
    case Rename =>
      && proc.pc.Closed? && proc.pc.tmp in s.dir
      && s' == s.(dir := (s.dir - {proc.pc.tmp})[name := s.dir[proc.pc.tmp]],
                  procs := s.procs[pid := proc.(pc := Opening(Published))])
    case UnlinkTemp =>
      && proc.pc.Cleanup?
      && s' == s.(dir := s.dir - {proc.pc.tmp}, procs := s.procs[pid := proc.(pc := Finished)])
    case UnlinkEntry =>
      // a corrupt entry found by a removing lookup, or a published entry that failed to reopen;
      // the name may meanwhile be bound to another inode
      && ((proc.pc.Corrupt? && proc.pc.purpose == Lookup(true)) || (proc.pc.Rejected? && proc.pc.purpose.Published?))
      && s' == s.(dir := s.dir - {name},
                  procs := s.procs[pid := proc.(pc :=
                    if proc.pc.Corrupt? then Rejected(proc.pc.purpose) else Finished)])
  }

  /** A new call: a materialization of any entry, or a lookup of a name that passed `ValidateChecksum`. */
  predicate Spawn(s: State, s': State, pid: Pid, proc: Proc) {
    && pid !in s.procs
    && (|| proc.pc == Begin
        || (proc.pc.Opening? && proc.pc.purpose.Lookup? && (proc.entry.sha == "" || IsHexDigest(proc.entry.sha))))
    && s' == s.(procs := s.procs[pid := proc])
  }

  ghost predicate Next(s: State, s': State, hash: Hash) {
    || (exists pid, a :: Step(s, s', pid, a, hash))
    || (exists pid, proc :: Spawn(s, s', pid, proc))
  }

  /** Any directory, corrupt or stale entries included, with no call in progress. */
  predicate Init(s: State) {
    && s.procs == map[]
    && "" !in s.dir
    && forall n :: n in s.dir ==> s.dir[n] in s.inodes
  }

  ghost predicate StepAt(tr: seq<State>, i: nat, hash: Hash)
    requires i + 1 < |tr|
  {
    Next(tr[i], tr[i + 1], hash)
  }

  ghost predicate Run(tr: seq<State>, hash: Hash) {
    && |tr| > 0
    && Init(tr[0])
    && forall i: nat :: i + 1 < |tr| ==> StepAt(tr, i, hash)
  }

  // ---------------------------------------------------------------- the inductive invariant

  /** A complete entry for `name`: safe, executable, and its bytes hash to the name. */
  predicate Publishable(node: Inode, name: string, hash: Hash) {
    SafeMetadata(node) && node.ownerExec && hash(node.bytes) == name
  }

  /** What a process knows about the inode it holds or reads, at each program counter. */
  predicate PcFacts(s: State, proc: Proc, hash: Hash) {
    && (Held(proc.pc).Some? ==> Held(proc.pc).value.1 in s.inodes)
    && (Reading(proc.pc).Some? ==> Reading(proc.pc).value in s.inodes)
    && (proc.pc.Begin? || proc.pc.Dead? || proc.pc.Finished? || proc.entry.sha == "" || IsHexDigest(proc.entry.sha))
    && (Held(proc.pc).Some? && !proc.pc.Dead? ==> MaterializableEntry(proc.entry))
    && match proc.pc
       case Writing(_, i, hashed) => SafeMetadata(s.inodes[i]) && s.inodes[i].bytes == hashed
       case Digested(_, i) => SafeMetadata(s.inodes[i]) && hash(s.inodes[i].bytes) == proc.entry.sha
       case Chmodded(_, i) => Publishable(s.inodes[i], proc.entry.sha, hash)
       case Synced(_, i) => Publishable(s.inodes[i], proc.entry.sha, hash)
       case Closed(_, i) => Publishable(s.inodes[i], proc.entry.sha, hash)
       case Opened(_, i) => !s.inodes[i].kind.Symlink?
       case Creating(k) => MaterializableEntry(proc.entry) && k < MAX_TEMP_FILE_ATTEMPTS
       case Verifying(_, i, off, hashed) =>
         && SafeMetadata(s.inodes[i]) && s.inodes[i].ownerExec && |s.inodes[i].bytes| == proc.entry.size
         && off <= |s.inodes[i].bytes| && hashed == s.inodes[i].bytes[..off]
       case Returned(i) => Verified(s.inodes[i], proc.entry, hash)
       case _ => true
  }

  ghost predicate HoldsTemp(s: State, pid: Pid, name: string) {
    pid in s.procs && Held(s.procs[pid].pc).Some? && Held(s.procs[pid].pc).value.0 == name
  }

  /** A temp file is bound under its own name to an inode that the run created. */
  ghost predicate HeldBound(s0: State, s: State, p: Pid)
    requires p in s.procs
  {
    Held(s.procs[p].pc).Some? ==>
      var (tmp, ino) := Held(s.procs[p].pc).value;
      IsTempName(tmp) && tmp in s.dir && s.dir[tmp] == ino && ino !in s0.inodes
  }

  /** No other name leads to a held inode. */
  ghost predicate OneName(s: State, p: Pid, n: string)
    requires p in s.procs && n in s.dir
  {
    Held(s.procs[p].pc).Some? && s.dir[n] == Held(s.procs[p].pc).value.1 ==> n == Held(s.procs[p].pc).value.0
  }

  /** A held inode has no reader and no second holder. */
  ghost predicate Apart(s: State, p: Pid, q: Pid)
    requires p in s.procs && q in s.procs
  {
    var held, other := Held(s.procs[p].pc), s.procs[q].pc;
    held.Some? ==>
      && (Reading(other).Some? ==> Reading(other).value != held.value.1)
      && (p != q && Held(other).Some? ==> Held(other).value.1 != held.value.1)
  }

  /** A directory entry is one the run began with, or a complete digest entry, or a held temp file. */
  ghost predicate Accounted(s0: State, s: State, name: string, hash: Hash)
    requires name in s.dir && s.dir[name] in s.inodes
  {
    || (name in s0.dir && s.dir[name] == s0.dir[name])
    || (IsHexDigest(name) && Publishable(s.inodes[s.dir[name]], name, hash))
    || (exists pid :: HoldsTemp(s, pid, name))
  }

  ghost predicate InodesInv(s0: State, s: State) {
    && "" !in s.dir
    && (forall i :: i in s0.inodes ==> i in s.inodes && s.inodes[i] == s0.inodes[i])
    && (forall n :: n in s.dir ==> s.dir[n] in s.inodes)
  }

  ghost predicate FactsInv(s: State, hash: Hash) {
    forall p :: p in s.procs ==> PcFacts(s, s.procs[p], hash)
  }

  ghost predicate PrivacyInv(s0: State, s: State) {
    && (forall p :: p in s.procs ==> HeldBound(s0, s, p))
    && (forall p, n :: p in s.procs && n in s.dir ==> OneName(s, p, n))
    && (forall p, q :: p in s.procs && q in s.procs ==> Apart(s, p, q))
  }

  ghost predicate Inv(s0: State, s: State, hash: Hash) {
    && InodesInv(s0, s)
    && FactsInv(s, hash)
    && PrivacyInv(s0, s)
    && forall n :: n in s.dir ==> Accounted(s0, s, n, hash)
  }

  // ---------------------------------------------------------------- every step keeps the invariant

  lemma TempIsNotDigest(name: string)
    requires IsTempName(name)
    ensures !IsHexDigest(name) && name != ""
  {
  }

  /** One process moved from `proc` to `proc'`; every other process is as before. */
  predicate Moved(s: State, s': State, pid: Pid, proc': Proc) {
    s'.procs == s.procs[pid := proc']
  }

  /** The mover holds what it held or nothing, and reads what it read, or nothing, or an entry it just opened. */
  predicate NoNewHolder(s: State, pid: Pid, proc': Proc) {
    var old' := if pid in s.procs then s.procs[pid].pc else Finished;
    && (Held(proc'.pc) == Held(old') || Held(proc'.pc) == None)
    && (|| Reading(proc'.pc).None?
        || Reading(proc'.pc) == Reading(old')
        || (&& proc'.entry.sha in s.dir && Reading(proc'.pc) == Some(s.dir[proc'.entry.sha])
            && IsHexDigest(proc'.entry.sha)))
  }

  lemma ApartKept(s0: State, s: State, s': State, pid: Pid, proc': Proc, p: Pid, q: Pid)
    requires PrivacyInv(s0, s)
    requires Moved(s, s', pid, proc') && NoNewHolder(s, pid, proc')
    requires p in s'.procs && q in s'.procs
    ensures Apart(s', p, q)
  {
    if Held(s'.procs[p].pc).Some? {
      assert HeldBound(s0, s, p);
      if q in s.procs { assert Apart(s, p, q); }
      if q == pid && proc'.entry.sha in s.dir {
        TempIsNotDigest(Held(s.procs[p].pc).value.0);
        assert OneName(s, p, proc'.entry.sha);
      }
    }
  }

  /** Names may only disappear, or appear for inodes that nobody holds afterwards. */
  predicate OnlyShrinks(s: State, s': State, pid: Pid, proc': Proc) {
    forall n :: n in s'.dir ==>
      || (n in s.dir && s'.dir[n] == s.dir[n])
      || (&& pid in s.procs && Held(s.procs[pid].pc).Some?
          && s'.dir[n] == Held(s.procs[pid].pc).value.1 && Held(proc'.pc).None?)
  }

  predicate KeepsHeldNames(s: State, s': State) {
    forall p :: p in s'.procs && Held(s'.procs[p].pc).Some? && Held(s'.procs[p].pc).value.0 in s.dir ==>
      var tmp := Held(s'.procs[p].pc).value.0; tmp in s'.dir && s'.dir[tmp] == s.dir[tmp]
  }

  lemma PrivacyKept(s0: State, s: State, s': State, pid: Pid, proc': Proc)
    requires PrivacyInv(s0, s)
    requires Moved(s, s', pid, proc') && NoNewHolder(s, pid, proc') && OnlyShrinks(s, s', pid, proc')
    requires KeepsHeldNames(s, s')
    ensures PrivacyInv(s0, s')
  {
    forall p, q | p in s'.procs && q in s'.procs ensures Apart(s', p, q) {
      ApartKept(s0, s, s', pid, proc', p, q);
    }
    forall p | p in s'.procs ensures HeldBound(s0, s', p) {
      if Held(s'.procs[p].pc).Some? { assert HeldBound(s0, s, p); }
    }
    forall p, n | p in s'.procs && n in s'.dir ensures OneName(s', p, n) {
      if Held(s'.procs[p].pc).Some? {
        if n in s.dir && s'.dir[n] == s.dir[n] {
          assert OneName(s, p, n);
        } else {
          assert Apart(s, p, pid);
        }
      }
    }
  }

  /** The inodes that a process holds or reads have not changed. */
  predicate SameView(s: State, s': State, pc: PC) {
    && (Held(pc).Some? && Held(pc).value.1 in s.inodes ==>
          Held(pc).value.1 in s'.inodes && s'.inodes[Held(pc).value.1] == s.inodes[Held(pc).value.1])
    && (Reading(pc).Some? && Reading(pc).value in s.inodes ==>
          Reading(pc).value in s'.inodes && s'.inodes[Reading(pc).value] == s.inodes[Reading(pc).value])
  }

  lemma FactsKept(s: State, s': State, pid: Pid, proc': Proc, hash: Hash)
    requires FactsInv(s, hash)
    requires Moved(s, s', pid, proc') && PcFacts(s', proc', hash)
    requires forall p :: p in s.procs && p != pid ==> SameView(s, s', s.procs[p].pc)
    ensures FactsInv(s', hash)
  {
  }

  lemma AccountedKept(s0: State, s: State, s': State, pid: Pid, proc': Proc, n: string, hash: Hash)
    requires n in s.dir && s.dir[n] in s.inodes && Accounted(s0, s, n, hash)
    requires n in s'.dir && s'.dir[n] == s.dir[n] && s'.dir[n] in s'.inodes
    requires Moved(s, s', pid, proc')
    requires HoldsTemp(s, pid, n) ==> HoldsTemp(s', pid, n)
    requires s'.inodes[s'.dir[n]] == s.inodes[s.dir[n]] || HoldsTemp(s', pid, n)
    ensures Accounted(s0, s', n, hash)
  {
    if p :| HoldsTemp(s, p, n) { assert HoldsTemp(s', p, n); }
  }

  /** A local step neither gains nor loses a temp file, and only an open adds a reader. */
  lemma LocalIsNoNewHolder(s: State, pid: Pid, next: PC, hash: Hash)
    requires pid in s.procs && PcFacts(s, s.procs[pid], hash) && "" !in s.dir
    requires LocalStep(s, s.procs[pid], next, hash) || DeathStep(s.procs[pid], next)
    ensures Held(next) == Held(s.procs[pid].pc)
    ensures NoNewHolder(s, pid, s.procs[pid].(pc := next))
  {
  }

  /** The hash loop: what has been hashed is what stands before the offset. */
  lemma VerifyingKeepsFacts(s: State, proc: Proc, next: PC, hash: Hash)
    requires proc.pc.Verifying? && PcFacts(s, proc, hash) && LocalStep(s, proc, next, hash)
    ensures PcFacts(s, proc.(pc := next), hash)
  {
    hide IsHexDigest;
    var bytes, off := s.inodes[proc.pc.ino].bytes, proc.pc.offset;
    if next.Verifying? {
      var n: nat :| ChunkRead(bytes, off, n)
        && next == Verifying(proc.pc.purpose, proc.pc.ino, off + n, proc.pc.hashed + bytes[off..off + n]);
      assert bytes[..off] + bytes[off..off + n] == bytes[..off + n];
    } else if next.Returned? {
      assert bytes[..off] == bytes;
    }
  }

  lemma LocalKeepsFacts(s: State, proc: Proc, next: PC, hash: Hash)
    requires forall n :: n in s.dir ==> s.dir[n] in s.inodes
    requires PcFacts(s, proc, hash)
    requires LocalStep(s, proc, next, hash) || DeathStep(proc, next)
    ensures PcFacts(s, proc.(pc := next), hash)
  {
    hide IsHexDigest, SafeMetadata, Publishable;
    if proc.pc.Verifying? && LocalStep(s, proc, next, hash) { VerifyingKeepsFacts(s, proc, next, hash); }
  }

  lemma FactsAreAboutInodes(s: State, s': State, proc: Proc, hash: Hash)
    requires s'.inodes == s.inodes && PcFacts(s, proc, hash)
    ensures PcFacts(s', proc, hash)
  {
  }

  lemma LocalKeepsInv(s0: State, s: State, s': State, pid: Pid, next: PC, hash: Hash)
    requires Inv(s0, s, hash)
    requires Step(s, s', pid, Local(next), hash)
    ensures Inv(s0, s', hash)
  {
    hide Accounted, LocalStep, DeathStep, PcFacts, HeldBound, OneName, Apart;
    var proc' := s.procs[pid].(pc := next);
    LocalIsNoNewHolder(s, pid, next, hash);
    LocalKeepsFacts(s, s.procs[pid], next, hash);
    FactsAreAboutInodes(s, s', proc', hash);
    FactsKept(s, s', pid, proc', hash);
    PrivacyKept(s0, s, s', pid, proc');
    forall n | n in s'.dir ensures Accounted(s0, s', n, hash) {
      AccountedKept(s0, s, s', pid, proc', n, hash);
    }
  }

  lemma SpawnKeepsInv(s0: State, s: State, s': State, pid: Pid, proc: Proc, hash: Hash)
    requires Inv(s0, s, hash)
    requires Spawn(s, s', pid, proc)
    ensures Inv(s0, s', hash)
  {
    hide Accounted, HeldBound, OneName, Apart;
    FactsKept(s, s', pid, proc, hash);
    PrivacyKept(s0, s, s', pid, proc);
    forall n | n in s'.dir ensures Accounted(s0, s', n, hash) {
      AccountedKept(s0, s, s', pid, proc, n, hash);
    }
  }

  /** Write and Chmod change one inode, and its writer is the only process that can see it. */
  lemma HolderUpdateEffect(s: State, s': State, pid: Pid, a: Action, hash: Hash)
    requires (a.Write? || a.Chmod?) && Step(s, s', pid, a, hash) && FactsInv(s, hash)
    ensures pid in s.procs
    ensures pid in s'.procs && Moved(s, s', pid, s'.procs[pid]) && s'.dir == s.dir && PcFacts(s', s'.procs[pid], hash)
    ensures Held(s.procs[pid].pc).Some? && Held(s'.procs[pid].pc) == Held(s.procs[pid].pc)
    ensures Reading(s'.procs[pid].pc).None?
    ensures s'.inodes.Keys == s.inodes.Keys
    ensures forall i :: i in s.inodes && i != Held(s.procs[pid].pc).value.1 ==> s'.inodes[i] == s.inodes[i]
  {
    assert PcFacts(s, s.procs[pid], hash);
  }

  lemma HolderUpdateKeepsFacts(s0: State, s: State, s': State, pid: Pid, a: Action, hash: Hash)
    requires FactsInv(s, hash) && PrivacyInv(s0, s)
    requires (a.Write? || a.Chmod?) && Step(s, s', pid, a, hash)
    ensures FactsInv(s', hash)
  {
    hide Step, PcFacts, Held, Reading, HeldBound, OneName;
    HolderUpdateEffect(s, s', pid, a, hash);
    forall p | p in s.procs && p != pid ensures SameView(s, s', s.procs[p].pc) {
      assert Apart(s, pid, p);
    }
    FactsKept(s, s', pid, s'.procs[pid], hash);
  }

  lemma HolderUpdateKeepsInv(s0: State, s: State, s': State, pid: Pid, a: Action, hash: Hash)
    requires Inv(s0, s, hash)
    requires (a.Write? || a.Chmod?) && Step(s, s', pid, a, hash)
    ensures Inv(s0, s', hash)
  {
    hide Step, Accounted, PcFacts, Held, Reading, Apart, IsTempName;
    HolderUpdateKeepsFacts(s0, s, s', pid, a, hash);
    HolderUpdateEffect(s, s', pid, a, hash);
    assert HeldBound(s0, s, pid);
    PrivacyKept(s0, s, s', pid, s'.procs[pid]);
    forall n | n in s'.dir ensures Accounted(s0, s', n, hash) {
      assert OneName(s, pid, n);
      AccountedKept(s0, s, s', pid, s'.procs[pid], n, hash);
    }
  }

  /**
   What a rename does: the temp name goes, the digest name leads to the complete inode, and nothing is held any more.
   */
  lemma RenameEffect(s: State, s': State, pid: Pid, hash: Hash)
    requires Step(s, s', pid, Rename, hash) && FactsInv(s, hash)
    ensures pid in s.procs && s.procs[pid].pc.Closed?
    ensures var proc := s.procs[pid];
      && pid in s'.procs && Moved(s, s', pid, s'.procs[pid]) && s'.inodes == s.inodes
      && PcFacts(s', s'.procs[pid], hash)
      && Held(proc.pc) == Some((proc.pc.tmp, proc.pc.ino))
      && Held(s'.procs[pid].pc).None? && Reading(s'.procs[pid].pc).None?
      && proc.pc.tmp in s.dir && s'.dir == (s.dir - {proc.pc.tmp})[proc.entry.sha := s.dir[proc.pc.tmp]]
      && IsHexDigest(proc.entry.sha) && proc.pc.ino in s.inodes
      && Publishable(s.inodes[proc.pc.ino], proc.entry.sha, hash)
  {
    assert PcFacts(s, s.procs[pid], hash);
  }

  /** A step of `pid` touches its own temp name and digest names, hence no temp file of another process. */
  lemma HeldNamesSurvive(s0: State, s: State, s': State, pid: Pid, touched: set<string>)
    requires PrivacyInv(s0, s)
    requires pid in s.procs && pid in s'.procs && Moved(s, s', pid, s'.procs[pid]) && Held(s'.procs[pid].pc).None?
    requires forall n :: n in touched && IsTempName(n) ==> HoldsTemp(s, pid, n)
    requires forall n :: n in s.dir && n !in touched ==> n in s'.dir && s'.dir[n] == s.dir[n]
    ensures KeepsHeldNames(s, s')
  {
  }

  lemma RenameKeepsInv(s0: State, s: State, s': State, pid: Pid, hash: Hash)
    requires Inv(s0, s, hash)
    requires Step(s, s', pid, Rename, hash)
    ensures Inv(s0, s', hash)
  {
    hide Step, PcFacts, OneName, Apart, Held, Reading, IsTempName, IsHexDigest, Publishable;
    RenameEffect(s, s', pid, hash);
    var name, tmp := s.procs[pid].entry.sha, s.procs[pid].pc.tmp;
    assert HeldBound(s0, s, pid);
    TempIsNotDigest(tmp);
    if IsTempName(name) { TempIsNotDigest(name); }
    FactsKept(s, s', pid, s'.procs[pid], hash);
    HeldNamesSurvive(s0, s, s', pid, {tmp, name});
    PrivacyKept(s0, s, s', pid, s'.procs[pid]);
    forall n | n in s'.dir ensures Accounted(s0, s', n, hash) {
      if n != name { AccountedKept(s0, s, s', pid, s'.procs[pid], n, hash); }
    }
  }

  lemma UnlinkTempEffect(s: State, s': State, pid: Pid, hash: Hash)
    requires Step(s, s', pid, UnlinkTemp, hash)
    ensures pid in s.procs && s.procs[pid].pc.Cleanup?
    ensures var pc := s.procs[pid].pc;
      && pid in s'.procs && Moved(s, s', pid, s'.procs[pid]) && s'.inodes == s.inodes && s'.dir == s.dir - {pc.tmp}
      && Held(pc) == Some((pc.tmp, pc.ino)) && Held(s'.procs[pid].pc).None? && Reading(s'.procs[pid].pc).None?
      && PcFacts(s', s'.procs[pid], hash)
  {
  }

  lemma UnlinkTempKeepsInv(s0: State, s: State, s': State, pid: Pid, hash: Hash)
    requires Inv(s0, s, hash)
    requires Step(s, s', pid, UnlinkTemp, hash)
    ensures Inv(s0, s', hash)
  {
    hide Step, PcFacts, Accounted, OneName, Apart, Held, Reading, IsTempName, IsHexDigest;
    UnlinkTempEffect(s, s', pid, hash);
    assert HeldBound(s0, s, pid);
    FactsKept(s, s', pid, s'.procs[pid], hash);
    HeldNamesSurvive(s0, s, s', pid, {s.procs[pid].pc.tmp});
    PrivacyKept(s0, s, s', pid, s'.procs[pid]);
    forall n | n in s'.dir ensures Accounted(s0, s', n, hash) {
      AccountedKept(s0, s, s', pid, s'.procs[pid], n, hash);
    }
  }

  /** What an unlink of an entry does: its name goes, and the process moves on with nothing held or read. */
  lemma UnlinkEntryEffect(s: State, s': State, pid: Pid, hash: Hash)
    requires Step(s, s', pid, UnlinkEntry, hash) && FactsInv(s, hash)
    ensures pid in s.procs
    ensures pid in s'.procs && Moved(s, s', pid, s'.procs[pid]) && s'.inodes == s.inodes
    ensures s'.dir == s.dir - {s.procs[pid].entry.sha}
    ensures Held(s'.procs[pid].pc).None? && Reading(s'.procs[pid].pc).None? && Held(s.procs[pid].pc).None?
    ensures PcFacts(s', s'.procs[pid], hash) && (s.procs[pid].entry.sha == "" || IsHexDigest(s.procs[pid].entry.sha))
  {
    assert PcFacts(s, s.procs[pid], hash);
  }

  lemma NoTempEmpty()
    ensures !IsTempName("")
  {
  }

  lemma UnlinkEntryKeepsInv(s0: State, s: State, s': State, pid: Pid, hash: Hash)
    requires Inv(s0, s, hash)
    requires Step(s, s', pid, UnlinkEntry, hash)
    ensures Inv(s0, s', hash)
  {
    hide Step, PcFacts, Accounted, HeldBound, OneName, Apart, IsHexDigest, IsTempName, Held, Reading;
    UnlinkEntryEffect(s, s', pid, hash);
    var name := s.procs[pid].entry.sha;
    if IsTempName(name) { TempIsNotDigest(name); }
    NoTempEmpty();
    FactsKept(s, s', pid, s'.procs[pid], hash);
    HeldNamesSurvive(s0, s, s', pid, {name});
    PrivacyKept(s0, s, s', pid, s'.procs[pid]);
    forall n | n in s'.dir ensures Accounted(s0, s', n, hash) {
      AccountedKept(s0, s, s', pid, s'.procs[pid], n, hash);
    }
  }

  /** What a creation does: a fresh empty inode under a fresh temp name, held by its creator. */
  lemma CreateEffect(s: State, s': State, pid: Pid, a: Action, hash: Hash)
    requires a.CreateTemp? && Step(s, s', pid, a, hash) && FactsInv(s, hash)
    ensures pid in s.procs
    ensures pid in s'.procs && Moved(s, s', pid, s'.procs[pid]) && HoldsTemp(s', pid, a.name)
    ensures IsTempName(a.name) && a.name !in s.dir && a.newIno !in s.inodes
    ensures s'.dir == s.dir[a.name := a.newIno] && a.newIno in s'.inodes
    ensures forall i :: i in s.inodes ==> i in s'.inodes && s'.inodes[i] == s.inodes[i]
    ensures PcFacts(s', s'.procs[pid], hash) && Held(s.procs[pid].pc).None?
    ensures Held(s'.procs[pid].pc) == Some((a.name, a.newIno)) && Reading(s'.procs[pid].pc).None?
  {
    assert PcFacts(s, s.procs[pid], hash);
  }

  /** Whatever a process holds or reads exists. */
  lemma ViewedInodesExist(s: State, p: Pid, hash: Hash)
    requires FactsInv(s, hash) && p in s.procs
    ensures Held(s.procs[p].pc).Some? ==> Held(s.procs[p].pc).value.1 in s.inodes
    ensures Reading(s.procs[p].pc).Some? ==> Reading(s.procs[p].pc).value in s.inodes
  {
    assert PcFacts(s, s.procs[p], hash);
  }

  lemma CreateKeepsPrivacy(s0: State, s: State, s': State, pid: Pid, a: Action, hash: Hash)
    requires Inv(s0, s, hash)
    requires a.CreateTemp? && Step(s, s', pid, a, hash)
    ensures PrivacyInv(s0, s')
  {
    hide Step, PcFacts, Held, Reading, Accounted, IsTempName;
    CreateEffect(s, s', pid, a, hash);
    forall p | p in s'.procs ensures HeldBound(s0, s', p) {
      if p != pid { assert HeldBound(s0, s, p); }
    }
    forall p, n | p in s'.procs && n in s'.dir ensures OneName(s', p, n) {
      if p != pid {
        ViewedInodesExist(s, p, hash);
        if n != a.name { assert OneName(s, p, n); }
      }
    }
    forall p, q | p in s'.procs && q in s'.procs ensures Apart(s', p, q) {
      ViewedInodesExist(s, p, hash);
      ViewedInodesExist(s, q, hash);
      if p != pid { assert Apart(s, p, q); }
    }
  }

  lemma CreateKeepsInv(s0: State, s: State, s': State, pid: Pid, a: Action, hash: Hash)
    requires Inv(s0, s, hash)
    requires a.CreateTemp? && Step(s, s', pid, a, hash)
    ensures Inv(s0, s', hash)
  {
    hide Step, PcFacts, PrivacyInv, Held, Reading, IsTempName, IsHexDigest;
    CreateKeepsPrivacy(s0, s, s', pid, a, hash);
    CreateEffect(s, s', pid, a, hash);
    TempIsNotDigest(a.name);
    FactsKept(s, s', pid, s'.procs[pid], hash);
    forall n | n in s'.dir ensures Accounted(s0, s', n, hash) {
      if n != a.name { AccountedKept(s0, s, s', pid, s'.procs[pid], n, hash); }
    }
  }

  lemma NextKeepsInv(s0: State, s: State, s': State, hash: Hash)
    requires Inv(s0, s, hash)
    requires Next(s, s', hash)
    ensures Inv(s0, s', hash)
  {
    if pid, a :| Step(s, s', pid, a, hash) {
      match a
      case Local(next) => LocalKeepsInv(s0, s, s', pid, next, hash);
      case CreateTemp(_, _, _) => CreateKeepsInv(s0, s, s', pid, a, hash);
      case Write(_, _) => HolderUpdateKeepsInv(s0, s, s', pid, a, hash);
      case Chmod => HolderUpdateKeepsInv(s0, s, s', pid, a, hash);
      case Rename => RenameKeepsInv(s0, s, s', pid, hash);
      case UnlinkTemp => UnlinkTempKeepsInv(s0, s, s', pid, hash);
      case UnlinkEntry => UnlinkEntryKeepsInv(s0, s, s', pid, hash);
    } else {
      var pid, proc :| Spawn(s, s', pid, proc);
      SpawnKeepsInv(s0, s, s', pid, proc, hash);
    }
  }

  lemma {:induction false} RunKeepsInv(tr: seq<State>, i: nat, hash: Hash)
    requires Run(tr, hash) && i < |tr|
    ensures Inv(tr[0], tr[i], hash)
  {
    if i > 0 {
      RunKeepsInv(tr, i - 1, hash);
      assert StepAt(tr, i - 1, hash);
      NextKeepsInv(tr[0], tr[i - 1], tr[i], hash);
    }
  }
}
