# microfat: a verified model

microfat packs several builds of one Go program, one per microarchitecture level, into a single "fat" binary. A launcher picks a variant, verifies it, and executes it from a sealed memory file or from a content-addressed cache, with runtime limits derived from the container. This project models the parts of microfat whose correctness depends on interleavings, unbounded input, or several functions at once, and proves their properties in Dafny. `dafny verify dfyconfig.toml` checks all of it.

How the model is laid out:

- `CacheProtocol`, `CacheSafety`, `CacheProgress` — the payload cache as a concurrent protocol with its inductive invariant, what every run guarantees, and what calls can achieve. A directory binds names to inodes; any number of processes create, write, rename, reopen, validate and unlink; any system call may fail and any process may die between two calls. The theorems are about every state of every run.
- `Extract`, `Dispatch` — streaming a payload through the bounded writer into a memory file, and the launcher's fallback order over every answer of the operating system. A method returns the trace of its effects, each exec with its environment, and its contract speaks about that trace.
- `Hierarchy`, `Tuning`, `Environ` — the walk up the cgroup hierarchy, the memory budget, the tuning plan, and the environment builder (a slice and a key index kept in step), next to the inspection command that predicts it by another route.
- `Wire`, `Format`, `Bounds`, `FatBinary` — little-endian fields, the index encoder and decoder, the bounds validator, and the trailer.
- `Decimal`, `ByteSize`, `CpuQuota` — exact arithmetic on decimal text, and the tightest CPU quota by 128-bit comparison.
- `Readiness`, `BuildPool`, `Schedule`, `Stats` — the stdout handshake, the compile pool, the counterbalanced schedule, and the statistics of the benchmark harness.

Conventions. SHA-256 is an arbitrary function. `microarch.Normalize` and `microarch.Rank`, Unicode trimming, and lower-casing of non-ASCII text in the index are arbitrary functions. Operating-system answers, random draws and clocks are parameters over which every contract quantifies. Ratios, percentiles, mean and variance are exact reals. 64-bit integers are written out: `int64` is a subset type and the byte-size parser and the quota comparison work in a `uint64` newtype, so each of their operations is proved to stay in range.

Two facts about the code that the proofs bring out:

- Re-encoding a decoded index does not always give back the bytes read: upper-case digests are lowered and an empty compression name is spelled out. `Format.ReencodingCanDiffer` exhibits such a buffer and `Format.ReencodingExact` states exactly when it does.
- The branch of the compile pool that records the derived context's own error can never be taken (`BuildPool.FallbackUnreachable`), and the two rounding guards at the end of the byte-size parser can never fire; the model asserts the latter instead of branching.

## Model

| member | source | states |
|---|---|---|
| CacheSafety.DescriptorStaysVerified | internal/cache/cache_unix.go:104-208 | over every run, every initial directory and every interleaving, a descriptor handed to a caller names a regular, safely owned, executable inode of the declared size whose bytes hash to the digest, at that moment and in every later state, also after the name is replaced or unlinked |
| CacheSafety.DigestNamesStayComplete | internal/cache/cache_unix.go:483-540 | in every reachable state, deaths included, a bound digest name leads to a complete entry (safe, executable, hashing to the name) or still to its initial inode, unchanged; one that began absent or with the right bytes stays so |
| CacheSafety.PartialBytesOnlyUnderTempNames | internal/cache/cache_unix.go:361-377 | an inode created during the run that is reachable under a name other than a temp name has no writer left and is a complete entry for that name |
| CacheSafety.TempNamesHaveALiveOrDeadHolder | internal/cache/cache_unix.go:493-500 | a temp name the run did not begin with belongs to a process between creation and cleanup, or to one that died there or whose unlink failed |
| CacheSafety.UnsafeEntryStays | internal/cache/cache_unix.go:237-255 | a digest name bound at the start to anything but a safely owned regular file stays bound to it, unchanged, in every run, whatever lookups and materializations of it are called |
| CacheSafety.PublishedWasSynced | internal/cache/cache_unix.go:514-532 | what a rename publishes under the digest name is, byte for byte, what its writer had flushed to disk before |
| CacheSafety.ArgumentsWereChecked | internal/cache/cache_unix.go:463-490 | a temp file exists only for a 64-digit checksum and a size of 1 byte to 1 GiB, and at most 1000 names are drawn for it |
| CacheProtocol.TempNamesExact | internal/cache/cache_unix.go:361-377 | the temp names are exactly ".exec-", sixteen hexadecimal digits in small letters, and ".tmp" |
| CacheSafety.SymlinksAreNeverOpened | internal/cache/cache_unix.go:104-134 | in every reachable state of every run no call has a symbolic link open |
| CacheProgress.NoProcessIsStuck | internal/cache/cache_unix.go:104-208 | in every reachable state a call that has not returned has a next move other than dying |
| CacheProtocol.RunKeepsInv | internal/cache/cache_unix.go:453-541 | the inductive invariant (what each program counter knows, privacy of temp inodes, accounting of every directory entry) holds in every state of every run |
| CacheProtocol.NextKeepsInv | internal/cache/cache_unix.go:453-541 | each step of each process, and each new call, keeps the invariant |
| CacheProtocol.LocalKeepsInv | internal/cache/cache_unix.go:175-281 | checks, opens, reads, returns and deaths keep the invariant |
| CacheProtocol.CreateKeepsInv | internal/cache/cache_unix.go:361-377 | exclusive creation of a temp file keeps the invariant |
| CacheProtocol.HolderUpdateKeepsInv | internal/cache/cache_unix.go:502-520 | a write or chmod changes an inode that only its writer can see, and keeps the invariant |
| CacheProtocol.RenameKeepsInv | internal/cache/cache_unix.go:529-532 | publication replaces a digest name by a complete entry and keeps the invariant, whoever held the name before |
| CacheProtocol.UnlinkTempKeepsInv | internal/cache/cache_unix.go:493-500 | the deferred cleanup keeps the invariant |
| CacheProtocol.UnlinkEntryKeepsInv | internal/cache/cache_unix.go:126-130 | removing a corrupt or unopenable entry keeps the invariant even if the name is by then bound to another inode |
| CacheSafety.FrozenThroughRun | internal/cache/cache_unix.go:487-532 | an inode that no process holds as a temp file never changes again and is never held again |
| CacheProgress.MaterializationCanSucceed | internal/cache/cache_unix.go:453-541 | the guards are not too strong: over any directory whose target is absent or safe, and after up to 999 names that were taken, a payload of any allowed size that hashes to its entry can be materialized up to a returned descriptor |
| CacheProgress.LookupCanSucceed | internal/cache/cache_unix.go:104-208 | a lookup, removing or not, can return every complete, safe and executable entry that is there, and then leaves directory and files as they were |
| CacheProgress.CorruptEntryCanBeRemoved | internal/cache/cache_unix.go:126-130 | a removing lookup can clear a digest name of a safe, executable file whose size or bytes are wrong, and touches nothing else |
| CacheProgress.LookupsOnlyRemoveCorrupt | internal/cache/cache_unix.go:126-134 | no step of a lookup changes a file; at most it unbinds its own name, and only when told to and after a mismatch |
| CacheProgress.HashingDecides | internal/cache/cache_unix.go:199-207 | once hashing has begun, a lookup ends in a returned descriptor or in a mismatch |
| CacheProgress.VerifyLoopReachesEnd | internal/cache/cache_unix.go:257-281 | from any point of the hash loop a process can reach the end of an inode of any length, and then returns it exactly when its bytes hash to the name |
| CacheProgress.VerifyCachedFD | internal/cache/cache_unix.go:257-281 | with a lawful pread, true implies the whole content hashes to the expected digest, and when no read fails it is true exactly then |
| Extract.Memfd.Write | cmd/microfat-stub/exec_linux.go:613-621 | a write overwrites from the position and extends past the end of a pre-sized file; the written prefix grows by exactly the data |
| Extract.BoundedWriter.constructor | internal/codec/codec.go:90-98 | a fresh writer with the limit clamped to the payload maximum |
| Extract.BoundedWriter.Write | internal/codec/codec.go:100-123 | never passes more than the limit, counts what the file took, hashes exactly the bytes the file took whole, and reports which of bound and file cut the write short |
| Extract.Decompress | internal/codec/none.go:43-72 | succeeds exactly when no read or write failed and the stream is exactly the declared length; the file content and the hashed bytes are then that stream; an intact stream fails only by its length, a failed one within its length only as failed |
| Extract.ExtractToMemfd | cmd/microfat-stub/extract_linux.go:24-86 | succeeds exactly when the payload is extractable; the file is then exactly the verified bytes of the declared size, pre-sized or not; each error appears exactly under its own cause |
| Dispatch.ExtractionMemory | internal/cgroup/memory.go:12-21 | the exact sum, or an error exactly when a term is negative or the sum leaves 64 bits, without overflow on the way |
| Dispatch.CheckExtractionBudget | cmd/microfat-stub/memory_linux.go:13-53 | passes exactly when sizes are in range and the estimate, in bytes by codec, fits a finite ceiling below 1 PiB; which error exactly when; every failure is one that a cache fallback would not help |
| Dispatch.ExecuteExistingCache | cmd/microfat-stub/exec_linux.go:138-176 | only reads the cache, executes only a verified descriptor, reports a hit exactly on a hit, and refuses exactly on an unsafe entry |
| Dispatch.ExecuteViaMemfd | cmd/microfat-stub/exec_linux.go:572-643 | never touches the cache; executes only the memory file that was filled with exactly the declared verified bytes and then sealed; creates one exactly within the budget; succeeds exactly under the stated outcomes, names the cause of each failure, and its failure is eligible for a cache fallback exactly for create, seal and exec failures |
| Dispatch.AcquireEntry | cmd/microfat-stub/exec_linux.go:686-762 | yields a verified descriptor exactly for a hit or a budgeted successful materialization, without any exec or memory file; publishes exactly after a miss within the budget; the errors of each stage |
| Dispatch.ExecuteViaCache | cmd/microfat-stub/exec_linux.go:671-773 | executes at most once, on the verified descriptor, and never touches a memory file |
| Dispatch.ExecuteAuto | cmd/microfat-stub/exec_linux.go:105-133 | changes the cache exactly when there was no hit, no unsafe entry and an eligible memory-file failure; succeeds exactly when one of the three routes does |
| Dispatch.ExecuteVariant | cmd/microfat-stub/exec_linux.go:81-134 | over every setting of the two mode variables and every outcome: at most one exec per route, each on the descriptor whose full contents were verified (and sealed) and with the environment that route delivers; "memfd" in any letter case never touches the cache, "cache" never a memory file, and the first nonempty variable decides; cache changed exactly when `Materializes`; nothing extracted or published beyond the budget; no error exactly when the last effect is a successful exec |
| Dispatch.RequestedIsNamed | cmd/microfat-stub/runtime_tuning_linux.go:20-33 | the mode is that of the first nonempty variable, compared letter by letter in any case; every other text means auto |
| Dispatch.ExecsTellTheTruth | cmd/microfat-stub/exec_linux.go:244-261 | every exec tells its payload the route it came by, its variant, digest and size, and the original executable |
| Dispatch.InspectionPredictsExecs | cmd/microfat-stub/runtime_info.go:88-141 | while the limits do not change between readings, the inspection report for a mode gives, key by key, what every exec on that route passes |
| Dispatch.FromProtocolIsVerified | internal/cache/cache_unix.go:534-540 | composition: any descriptor that some call in some run of the cache protocol returned is, then and later, verified for its entry, which is what dispatch relies on |
| Dispatch.LawfulConcat | cmd/microfat-stub/exec_linux.go:105-133 | a failed attempt followed by an attempt on another route keeps every law of the trace |
| Hierarchy.SubpathIsPrefix | benchmarks/env/cgroup.go:454-459 | the textual prefix test is exactly ancestry of cleaned paths, both directions |
| Hierarchy.ChainIsAncestry | internal/cgroup/cgroup.go:361-398 | from a target below the root the walk visits exactly the target, its ancestors and the root |
| Tuning.ReadMemoryValueExact | internal/cgroup/cgroup.go:300-320 | a printed limit reads as itself, "max" and a missing file set none, and negative, unreadable or other text is corrupt |
| Tuning.TraverseMemory | internal/cgroup/cgroup.go:361-398 | an error exactly when a visited file is corrupt; otherwise each result is the least limit set on the way, attained, and absent exactly when none is set |
| Tuning.ReadCgroupV2 | internal/cgroup/cgroup.go:427-461 | the effective ceiling is finite exactly when some file sets a limit, is attained by one of them, and is at most each of them; processors are the whole part of a positive quota, at least one |
| Tuning.BudgetLeavesHeadroom | internal/cgroup/cgroup.go:758-780 | the budget leaves the headroom (at most half, rounded up) free and stays within the ratio of the ceiling, over exact reals |
| Tuning.BudgetExact | internal/cgroup/cgroup.go:758-780 | the budget is the greatest amount within the ratio (0.9 if the ratio is not in (0, 1]) that leaves the headroom (64 MiB unless positive) or takes at most half; none from 1 PiB on; over exact reals |
| Tuning.BudgetIsMonotone | internal/cgroup/cgroup.go:758-780 | a larger ceiling never yields a smaller budget wherever both are defined, over exact reals |
| Tuning.TuningPlan.Resolve | internal/cgroup/cgroup.go:1020-1073 | the fields filled step by step are those of the specified plan; the budget is the greatest amount that the ceiling affords besides what is retained; with headroom it fits under the ceiling; collection is off only for the batch profile with a finite positive budget |
| Tuning.PlanFitsCeiling | internal/cgroup/cgroup.go:1039-1058 | a positive planned budget plus retained bytes plus reserved headroom is at most the effective ceiling, and the printed text is that budget |
| Tuning.PlanIsGreatest | internal/cgroup/cgroup.go:974-1058 | the planned budget is the greatest affordable amount; which ratio wins among override, profile and default; the printed text is the budget, or "0B" for a ceiling of zero |
| Tuning.ProcessorsExact | internal/cgroup/cgroup.go:1060-1068 | the recorded count if positive, else the whole part of the quota but at least one, else none; printed as such |
| Tuning.CollectorExact | internal/cgroup/cgroup.go:948-1016 | 75, 40, off against a budget, or for the adaptive profile the rounded percentage of budget over live heap minus one, kept between 10 and 100 |
| Tuning.ConstraintIsTheCeiling | internal/cgroup/cgroup.go:692-702 | a plan with a memory text names the boundary that is the ceiling, memory.max where both are |
| Tuning.NeverOffOutsideBatch | internal/cgroup/cgroup.go:993-1016 | a plan turns periodic collection off only for the batch profile and only with a finite budget of its own |
| Tuning.BudgetFitsEveryBoundary | internal/cgroup/cgroup.go:1020-1073 | conservation, for every default ratio and override: that sum is at most every finite memory.max and memory.high from the target to the root |
| Tuning.RuntimeMemoryLimit | internal/cgroup/batch_gc.go:27-44 | the suffix loop and the division guard compute the exact product below 2^63-1, or zero |
| Tuning.DivisionGuard | internal/cgroup/batch_gc.go:40-42 | the guard by division is exactly overflow of the product |
| Tuning.PrintedLimitParses | internal/cgroup/cgroup.go:1051-1052 | round trip: a printed budget reads back as itself |
| Environ.KeyExact | cmd/microfat-stub/exec_linux.go:226-231 | an entry has a key and a value exactly when it is that nonempty key, the first "=", and that value |
| Environ.Builder.Copy | cmd/microfat-stub/exec_linux.go:223-242 | the filtering copy is the specified one, and the index is in step with the slice |
| Environ.Builder.Index | cmd/microfat-stub/runtime_info.go:88-141 | inspection's index over the unfiltered slice holds the last position of every key |
| Environ.Builder.Upsert | cmd/microfat-stub/exec_linux.go:178-186 | replaces the last entry of the key or appends one, and keeps slice and index in step |
| Environ.CopiedIsClean | cmd/microfat-stub/exec_linux.go:223-242 | for every inherited environment: each key once, malformed entries kept in order, launcher variables gone, and the last value of every other key |
| Environ.Builder.ResolveRuntimeTuning | cmd/microfat-stub/runtime_tuning_linux.go:48-74 | the plan depends on the environment only through its inherited GOMEMLIMIT |
| Environ.RetainedBytes | cmd/microfat-stub/runtime_tuning_linux.go:76-82 | the memory file's size rounded up to whole pages: at least the size, by less than a page; nothing in cache mode or for a size out of range |
| Environ.RuntimePlanExact | cmd/microfat-stub/runtime_tuning_linux.go:48-74 | the runtime plan has the greatest budget affordable besides the pages of the memory file, and whole processors unless the runtime counts them itself |
| Environ.OfferedNumbers | cmd/microfat-stub/exec_linux.go:324-330 | the GOMEMLIMIT and GOMAXPROCS offered are the numbers of the plan, printed |
| Environ.OfferedCollector | cmd/microfat-stub/exec_linux.go:331-333 | the GOGC offered by profile, off exactly against a finite limit, the inherited one if there is one |
| Environ.Builder.ApplyRuntimeTuningPlan | cmd/microfat-stub/exec_linux.go:324-335 | the new slice is the old one with the plan's values for absent runtime keys |
| Environ.AppliedShape | cmd/microfat-stub/exec_linux.go:324-335 | applying a plan keeps keys unique, malformed entries and every present value, and gives an absent runtime key its planned value |
| Environ.BuildAutoTunedEnviron | cmd/microfat-stub/exec_linux.go:215-303 | for any inherited environment the payload finds each well-formed key once, ordinary keys with their last inherited value, under each launcher variable what it is specified to say and nothing inherited, and the effective runtime keys |
| Environ.LaunchLookup | cmd/microfat-stub/exec_linux.go:244-261 | the launch metadata upserted in order says, key by key, what each variable is specified to say |
| Environ.CgroupLookup | cmd/microfat-stub/exec_linux.go:312-322 | the same of the observed limits |
| Environ.PlanLookup | cmd/microfat-stub/exec_linux.go:279-296 | the same of the plan, the skipped reason only when GOGC was not inherited |
| Environ.LaunchIsDelivered | cmd/microfat-stub/exec_linux.go:244-261 | in every delivered environment the mode, digest, size, variant and executable of this launch |
| Environ.OrdinaryKeysSurvive | cmd/microfat-stub/exec_linux.go:188-242 | a variable outside MICROFAT_ and the three runtime keys reaches the payload with its last inherited value |
| Environ.BuildRuntimeCandidate | cmd/microfat-stub/runtime_info.go:88-141 | reports for each runtime key its effective value and whether it was inherited |
| Environ.InspectionAgreesWithDispatch | cmd/microfat-stub/runtime_info.go:88-141 | over the same inputs, what inspection reports for a mode equals what dispatch passes in that mode, key by key, presence included |
| Environ.GogcOffHasFiniteLimit | internal/cgroup/batch_gc.go:12-44 | whenever the launcher itself adds GOGC=off, the effective GOMEMLIMIT parses back to a finite positive limit, inherited or printed |
| Environ.DeliveredOffHasFiniteLimit | cmd/microfat-stub/exec_linux.go:279-335 | the same of the environment actually delivered |
| Wire.FromLEOfLE | internal/format/format.go:621-628 | an integer that fits its width reads back as itself |
| Wire.LEOfFromLE | internal/format/format.go:714-720 | every byte string is the encoding of the integer it reads as |
| Format.DecodeVariantExact | internal/format/format.go:802-864 | the variant decoder yields a variant and an end offset exactly when that variant's bytes stand there |
| Format.DecodeIndexExact | internal/format/format.go:700-864 | a buffer decodes to an index and a length exactly when it begins with that index's encoding |
| Format.HeadLayout | internal/format/format.go:619-658 | the literal magic and version, and the offset of every field of the head |
| Format.HeadFaults | internal/format/format.go:700-712 | the magic and version errors appear exactly for wrong magic and wrong version |
| Format.RejectionIsFinal | internal/format/format.go:700-864 | every outcome but a truncation is final: no appended bytes change it |
| Format.LongBuffersAreNotTruncated | internal/format/format.go:700-864 | a buffer with room for the largest index is never called truncated |
| Format.AppendedBytesIgnored | internal/format/format.go:700-864 | for every accepted buffer, appended bytes never change the result |
| Format.IndexBytesInjective | internal/format/format.go:593-697 | two version-2 indices with the same encoding are the same index |
| Format.PutBytes | internal/format/format.go:632-636 | writes at the offset, advances it, and leaves everything before it alone |
| Format.PutVariant | internal/format/format.go:660-694 | appends exactly one variant's encoding behind the offset |
| Format.PutHead | internal/format/format.go:619-658 | fills the buffer with exactly the head's encoding |
| Format.MeasureVariants | internal/format/format.go:603-617 | the exact length of the encoding, or the first fault of a variant |
| Format.EncodableIff | internal/format/format.go:594-615 | there is no fault exactly when every length fits its prefix and every required digest is present |
| Format.MarshalBinaryIndex | internal/format/format.go:593-697 | the buffer filled behind an advancing offset is exactly the encoding of the index, or the first fault is returned |
| Format.UnmarshalBinaryIndex | internal/format/format.go:700-800 | the decoding loop returns what stands in the bytes, normalized, or the decoder's error; every field is the one in the bytes, a digest by the 32 bytes it stands for, and an empty compression is zstd |
| Basics.HexDigits | internal/format/format.go:576-590 | the accepted digits are 0-9, a-f and A-F |
| Format.DigestsAgree | internal/format/format.go:576-590 | on bytes and on characters the same digests are accepted |
| Format.LowerDigest | internal/format/format.go:796 | lower-casing keeps a digest a digest that stands for the same 32 bytes, and fixes exactly the digests without upper-case letters |
| Format.DigestIsDetermined | internal/format/format.go:796 | a lower-case digest is determined by the 32 bytes it stands for |
| Format.NormSaysTheSame | internal/format/format.go:852-861 | normalization changes the letter case of digests and spells out the default compression, and nothing else |
| Format.ReencodingExact | internal/format/format.go:593-697 | encoding what was decoded gives the bytes consumed if and only if digests are lower-case and compression names are nonempty |
| Format.ReencodingCanDiffer | internal/format/format.go:852-854 | an accepted buffer, one variant with an empty compression name, whose re-encoding is not the buffer |
| Bounds.ValidateDictionary | internal/format/format.go:505-525 | accepts exactly an absent dictionary or one inside the data area with a digest, in 64-bit arithmetic that never overflows; each error names a fault that is there |
| Bounds.ValidateVariant | internal/format/format.go:542-559 | accepts exactly a payload inside the data area, behind what precedes it, of allowed size and with a digest, without overflow |
| Bounds.ValidateVariants | internal/format/format.go:527-562 | the one-pass loop with a running end and a seen set accepts exactly the pairwise ordered, disjoint regions with distinct levels |
| Bounds.ValidateBounds | internal/format/format.go:476-503 | accepts exactly the indices in bounds: dictionary and payload regions ordered, pairwise disjoint and inside the data area; a rejection names a fault that is there |
| Bounds.FindVariant | internal/format/format.go:465-473 | the first entry whose level normalizes alike; on distinct levels every listed level finds precisely its own entry |
| FatBinary.OpenTrailerExact | internal/format/format.go:873-914 | the trailer checks yield a prefix and index bytes exactly when the file is those bytes sealed behind that prefix |
| FatBinary.TrailerFaults | internal/format/format.go:873-914 | each error of the trailer checks names a fault that is there |
| FatBinary.TrailerLayout | internal/format/format.go:1005-1009 | the 56 bytes: offset, size, hash, literal magic |
| FatBinary.WriteExact | internal/format/format.go:976-996 | a file is written exactly for a nonnegative offset, version 2 and an encodable index of at most 1 MiB; which error otherwise |
| FatBinary.ReadTrailerAndIndex | internal/format/format.go:873-932 | accepts and returns exactly what the specification of a readable file says; a rejection is the first failed trailer check, the legacy-format error, the decoder's error, or a bounds fault that is really there |
| FatBinary.DecodableIsNotLegacy | internal/format/format.go:866-869 | the legacy JSON test never rejects bytes that decode |
| FatBinary.LegacyExact | internal/format/format.go:866-869 | the legacy test holds exactly when an opening brace follows nothing but blanks, tabs and line ends |
| FatBinary.ReadableIsDescribed | internal/format/format.go:873-932 | every file that reads is, byte for byte, a sealed version-2 index in bounds, possibly with ignored bytes behind it |
| FatBinary.DescribedFileOpens | internal/format/format.go:873-932 | every such file reads, as that index normalized, exactly when it is in bounds |
| FatBinary.LoweringKeepsBounds | internal/format/format.go:922-929 | normalization moves no encodable index in or out of bounds |
| FatBinary.WrittenReadsBack | internal/format/format.go:976-1017 | round trip: for any prefix and any index that can be written, the file reads back exactly when the index is in bounds, and then as that index with version 2, digests in lower case that stand for the same bytes, zstd for an empty compression, and every other field equal |
| Decimal.ParseExact | internal/cgroup/cgroup.go:315-318 | a text parses exactly when it is digits behind an optional sign whose value fits 64 bits, and as that value |
| ByteSize.NumberIsUnique | internal/cgroup/cgroup.go:814-847 | a text has at most one maximal decimal number with its point |
| ByteSize.SplitNumber | internal/cgroup/cgroup.go:814-847 | finds that number, or fails exactly when there is none |
| ByteSize.ReadWhole | internal/cgroup/cgroup.go:894-905 | the digits' value, or nothing exactly when it exceeds the limit, in 64 bits throughout |
| ByteSize.ReadFraction | internal/cgroup/cgroup.go:907-921 | for arbitrarily many digits, last first: fraction times unit is exactly carry plus remainder, with the leading remainder digit and the nonzero flag telling how it rounds |
| ByteSize.FractionExtends | internal/cgroup/cgroup.go:911-921 | one digit of that loop keeps the exact relation |
| ByteSize.RoundedParts | internal/cgroup/cgroup.go:923-945 | rounding and the size limit in terms of whole part and remainder |
| ByteSize.Evaluate | internal/cgroup/cgroup.go:872-946 | the exact product rounded half up, or too large exactly when the product exceeds 2^63-1, with no operation outside 64 bits |
| ByteSize.ParseByteSize | internal/cgroup/cgroup.go:872-946 | for every string: floor(value times unit + 1/2) for a well-formed size with a known unit, too large exactly past 2^63-1, an error for everything else |
| ByteSize.SizeTextExact | internal/cgroup/cgroup.go:872-946 | for any digits with or without a point, spaces, and a unit's name in any letter case: the number times the power of 1024, rounded half up, or too large |
| ByteSize.MultiplierExact | internal/cgroup/cgroup.go:849-870 | every unit is a power of 1024, and every name of one is known |
| ByteSize.TrimExact | internal/cgroup/cgroup.go:814-816 | trimming takes away the spaces at both ends and nothing else |
| ByteSize.SpacesExact | internal/cgroup/cgroup.go:814-816 | the spaces are the 25 code points of Unicode's White_Space |
| CpuQuota.Mul64 | benchmarks/env/cgroup.go:446-452 | high and low words recompose to the exact product |
| CpuQuota.ReadV2Exact | benchmarks/env/cgroup.go:230-252 | a printed pair reads as itself, "max" or an empty quota is no limit, anything not positive is malformed |
| CpuQuota.ReadV1Exact | benchmarks/env/cgroup.go:394-429 | the same of the two v1 files, where -1 is no limit and a limit needs its own period |
| CpuQuota.TighterCPUQuota | benchmarks/env/cgroup.go:446-452 | the hi/lo comparison is exactly the order of the two rationals |
| CpuQuota.StepKeepsFound | benchmarks/env/cgroup.go:244-258 | visiting one more directory keeps: one directory's own pair, at most every finite one, none exactly when none is finite, else the nearest period |
| CpuQuota.TraverseV2CPUMax | benchmarks/env/cgroup.go:223-274 | an error exactly when a visited directory is malformed; otherwise the tightest pair of the chain, or none exactly when none is finite, with the nearest period |
| CpuQuota.VisitV1 | benchmarks/env/cgroup.go:394-429 | one directory of the v1 walk: an error exactly when it is malformed, else the same update as one v2 directory with that reading |
| CpuQuota.TraverseV1CPU | benchmarks/env/cgroup.go:387-442 | the same over separate period and quota files, where a finite quota without a period is an error |
| Readiness.FirstLine | benchmarks/process/process.go:131 | what stands before the first newline, or everything |
| Readiness.FirstLineIsStable | benchmarks/process/process.go:128-137 | output appended behind a line never changes the first line |
| Readiness.Buffer.constructor | benchmarks/process/process.go:99 | an empty buffer with no pending wake-up |
| Readiness.Buffer.Write | benchmarks/process/process.go:41-60 | all of the bytes or none, overflow flagged exactly when they do not fit, the first-line time set exactly with the first newline, and a wake-up after every accepted write |
| Readiness.WriteIsItsSteps | benchmarks/process/process.go:41-60 | a write of the buffer is the append and the notification of the handshake; a rejected one is the first alone |
| Readiness.RunKeepsInv | benchmarks/process/process.go:41-152 | in every state of every interleaving: a waiting reader has seen everything or a wake-up is pending, and the first-line time is set exactly when there is a line |
| Readiness.DecisionsStay | benchmarks/process/process.go:128-152 | a returned line, cancellation or exit is final, and the reader looks at the output only between writes |
| Readiness.NoLostWakeUp | benchmarks/process/process.go:138-141 | a reader never waits on an unseen write without a token, or a writer about to send one |
| Readiness.WakeUpsAreNotifications | benchmarks/process/process.go:138-149 | the reader never spins: it wakes at most once per notification of a write |
| Readiness.LineWakesTheReader | benchmarks/process/process.go:128-152 | once the output has a line, a waiting reader can be woken |
| Readiness.ExitedMeansNoLine | benchmarks/process/process.go:142-149 | "exited before readiness" only when the entire output, now and in every later state, has no newline |
| Readiness.ReturnedLineIsFirst | benchmarks/process/process.go:128-137 | a returned line is the first line of the output in every later state, with the time of the very write that brought its newline |
| BuildPool.RunKeepsInv | internal/builder/builder.go:289-376 | the invariant of lock, workers, error and maps holds in every state of every interleaving of workers, outcomes and outside cancellation |
| BuildPool.MutualExclusion | internal/builder/builder.go:308-376 | at most one worker is in the critical section |
| BuildPool.SilentCancellationIsTheParents | internal/builder/builder.go:311-322 | a worker that sees cancellation with no recorded error implies that the caller's context was cancelled |
| BuildPool.FallbackUnreachable | internal/builder/builder.go:315-319 | the derived context's own error is never recorded |
| BuildPool.ErrorHasACause | internal/builder/builder.go:308-364 | a recorded error is the caller's cancellation, or the compile or validation failure of that very variant earlier in the run |
| BuildPool.ErrorStays | internal/builder/builder.go:313-364 | a recorded error never changes, and after the caller has cancelled only the cancellation is recorded |
| BuildPool.FailureCancels | internal/builder/builder.go:331-364 | with an error recorded and the lock free, the derived context is cancelled |
| BuildPool.NoCompileAfterCancellation | internal/builder/builder.go:310-323 | after that no worker begins to compile |
| BuildPool.QuittersStop | internal/builder/builder.go:310-364 | a worker whose task failed, or that saw the cancellation, takes no other task |
| BuildPool.OutcomeExact | internal/builder/builder.go:378-397 | a finished pool succeeds exactly when nothing failed, nobody cancelled and levels are distinct; the incomplete error appears exactly for duplicate levels |
| BuildPool.SuccessIsComplete | internal/builder/builder.go:367-397 | on success every variant has its own path and the identity its own validation returned, and both maps have exactly the manifest's levels as keys |
| BuildPool.NeverStuck | internal/builder/builder.go:308-378 | until every worker has stopped, some worker can move |
| BuildPool.BoundedWork | internal/builder/builder.go:308-378 | in every run the workers make at most ten moves per variant and one each besides, so with the row above every pool finishes |
| Schedule.CheckIds | benchmarks/compare/compare.go:21-27 | accepts exactly nonempty, pairwise distinct identifiers |
| Schedule.Schedule | benchmarks/compare/compare.go:17-42 | succeeds exactly for at least two distinct nonempty identifiers and at most 10000 trials, and is then the specified sequence of blocks times configurations trials |
| Schedule.BlocksAreBalanced | benchmarks/compare/compare.go:31-40 | in every block every configuration is run by exactly one trial, for any permutations drawn |
| Schedule.RoundsAreBalanced | benchmarks/compare/compare.go:31-40 | in every complete round every configuration has every place in exactly one block |
| Schedule.TrialIdFormat | benchmarks/compare/compare.go:37 | "trial-", then the number with zeros in front up to six digits and none beyond |
| Schedule.TrialIdInjective | benchmarks/compare/compare.go:37 | zero-padded trial identifiers are distinct |
| Schedule.KeysInjective | benchmarks/schema/experiment_v2.go:395 | block/configuration keys are distinct for distinct pairs |
| Schedule.ValidateSchedule | benchmarks/schema/experiment_v2.go:391-401 | accepts exactly schedules whose trials are admissible and pairwise distinct in identifier, position and key |
| Schedule.ScheduleIsAcceptable | benchmarks/schema/experiment_v2.go:391-401 | every schedule built passes those checks |
| Stats.Welford | benchmarks/analysis/stats.go:57-68 | the one-pass loop yields the true mean and the sum of squared deviations of every sample sequence, over exact reals |
| Stats.MomentsExtend | benchmarks/analysis/stats.go:61-68 | one sample more keeps mean and sum of squared deviations exact, over exact reals |
| Stats.TotalOfPermutation | benchmarks/analysis/stats.go:50-51 | totals do not depend on the order of the samples, so sorting first changes nothing |
| Stats.SortSorts | benchmarks/analysis/paired.go:79-80 | the private copy is sorted and a permutation of the values |
| Stats.R7MonotoneAndBounded | benchmarks/analysis/stats.go:101-125 | R7 percentiles never decrease with p and lie within the least and the greatest sample, over exact reals |
| Stats.R7AtFraction | benchmarks/analysis/stats.go:101-125 | R7 at a fraction, in whole-number arithmetic: the sample at that fraction of the way and the remainder's share of the next step |
| Stats.PercentilesExact | benchmarks/analysis/stats.go:72-79 | the six named percentiles are those of 1/2, 3/4, 9/10, 19/20, 99/100 and 999/1000 |
| Stats.PercentilesAscend | benchmarks/analysis/stats.go:72-79 | p50 to p99.9 never decrease |
| Stats.QuantileIsR7 | benchmarks/analysis/paired.go:75-89 | the convex-combination quantile equals R7 on every input, over exact reals |
| Stats.QuantileMonotoneAndBounded | benchmarks/analysis/paired.go:68 | interval ends are never in the wrong order and lie within the resampled values, over exact reals |
| Stats.ComputeAnalysis | benchmarks/analysis/stats.go:33-97 | each error exactly under its condition; otherwise true minimum, maximum, mean, variance and R7 percentiles of the samples in any order, and the result passes the stored-analysis checks of the schema, over exact reals |

## Left out

- CLI commands, doctor and report rendering, telemetry and log lines: text formatting.
- Real system calls: their outcomes are parameters or steps; `createExecutableMemfd`'s retry with other flags, the exec of `/proc/self/fd`, and seal flags are one outcome each.
- zstd and lz4 decoding, dictionary loading and codec lookup: a stream of chunks that may end in an error.
- SHA-256, JSON and YAML, the benchmark load generator, signing, HTTP and release download: foreign libraries.
- The `microarch` tables, `pack`, `lifecycle` and `install`: not part of this model.
- Cache directory discovery and its ownership repair, and power loss after rename: only process death is modelled.
- `fstat` and `fstatat` failures in the cache are folded into the failure outcome of the step they guard.
- A temp file whose deferred unlink fails counts in the protocol as left behind by a process that died; the call's own return is then not modelled.
- The cgroup v1 readers of the launcher and its floating-point CPU quota walk (`traverseCgroupV2CPU`): the quota is a parameter of `Tuning.ReadCgroupV2`.
- IEEE rounding, NaN and infinities: ratios, percentiles and variance are exact reals.
- Invalid UTF-8 in byte sizes and environment texts: those strings are sequences of code points.
- FatBinary.ReadTrailerAndIndex: failures of `ReadAt` are not modelled, because the file is a value.
- Extract.Decompress: the loop of the uncompressed codec, cited in its row, stands for all three; block structure and checksums inside a codec's own frames are not modelled.
- The pool's worker count and output printing: any nonempty set of workers is allowed.
- Bootstrap resampling in the paired comparison: only the quantiles taken of the resampled values.
- Schema validators other than the two above, the CI gate, calibration, ELF inspection, manifest validation and error hints.
