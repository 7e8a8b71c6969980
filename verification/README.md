# Verified model of the InferX control plane core

InferX schedules GPU inference pods. This project models the parts of it that
decide who gets which GPU, what a listing returns, what a saved function spec
looks like after an edit, and what a browser shows of a stream, and proves what
those parts are for. `dafny verify dfyconfig.toml` checks everything.

The code is modelled as written. Where it does not meet the property one would
expect, the model keeps the behaviour, a lemma gives the exact condition under
which the property holds, and another exhibits a failing input or family.

## What is proved

**GPU and node ledger** (`SlotArithmetic`, `GpuLedger`, `NodeLedger`,
`GpuEncoding`). The ledger keeps three signed counters per GPU. In every legal run
of allocations, reservations and releases, available plus leased equals the initial
amount for each counter of each GPU and for both memories, cpu never changes, and
no runtime assertion fires. A run is legal when a request for GPUs asks for at
least one slot and fewer than 2^63 contexts, a reservation is of known GPUs, and a
release is of a live lease of the node's GPU type; a request for no memory that is
admitted trips the slot assertion, and `AllocatePanicsIff` says exactly when that
happens. In legal runs without reservations no counter goes negative, and with one
nccl unit per GPU no GPU is shared by two leases that are multi-GPU or
snapshot-creating. The allocator is greedy and complete. The eight-entry encoding
is lossless in one direction, and for a grant it is lossless in the other exactly
when it asked for one context and is not a single-GPU snapshot. What a grant holds and
when a request is refused are stated in terms of the memory asked for. The slot count is
the exact ceiling of the request if and only if the sum fits 64 bits and the count
fits 32. A reservation of another GPU type is accepted and can then never be
released: `Sub` does not compare the GPU type, `Add` asserts it.

**Object index** (`KeyOrder`, `ObjectIndex`). The walk of a sorted map from a start
key to the first mismatch equals filtering all objects by tenant, namespace and
name prefix. This holds for every query except a tenant argument of the form
`a/b` with an empty namespace argument, and for those some store makes it fail.
Every run of Add, Update and Remove behaves like a map keyed by the identity triple.

**Spec editor** (`PyText`, `Commands`, `ModelTargets`, `TargetNormalForm`,
`CachePaths`, `CatalogMerge`, `TensorParallel`, `ModelLock`, `LockHistory`,
`MergeIdempotence`, `UnsyncedMerge`, `CatalogNoOp`, `EnvMerge`, `PolicyOverlay`, `JsonDiff`, `SpecEditor`, `SpecJson`, `EditorCommands`, `EditorFixpoint`,
`EditorSave`, `EditorExamples`). What a save stores is stated field by field in terms
of what was submitted and what was stored before. What the basic editor builds passes the editor's own no-op test
exactly when the model name comes back as given, reading the recovered arguments
again changes nothing, and no customer environment key repeats; this covers every
model name, flags included, and every argument list. For a word as model name and
arguments without JSON-valued flags it says: exactly when the name is its own
normal form and no key repeats. Merging submitted commands into catalog commands
keeps the base's only model target, for every submission, exactly when it is
neither `Loose` (a model named only by position, with a word slipped in behind it)
nor `Hijacked` (the model value is itself a tensor-parallel token that syncing
rewrites). A base that names its model by `--model` or `vllm serve`, not hijacked,
is always locked, also over a history of edits in which each result is the next
base. Merging the result again changes nothing exactly when the base's model value
is not `Confused` with a token the merge handles. Commands without a target are
merged with syncing when the entry names its model elsewhere, in its entrypoint or
sample query, and without syncing otherwise; for both it is proved exactly when the
result still has no target, and for the second when merging again changes nothing.
A no-op save of catalog commands keeps them exactly when they are in the order a
basic merge writes. A non-admin save keeps the admin-set replica count exactly when
there is none or the submission carries another policy field; the comment in the
source promises it for every edit.

**Streams and text** (`SseStream`, `SseChunking`, `SseSplits`, `PcmStream`, `Frontmatter`,
`LinkSplice`, `CatalogSlug`). What a text stream shows does not depend on how the
network splits it exactly when nothing is left to show after a payload that is
rejected and put back; an empty payload does no harm. This is for texts whose
rejected payloads are not themselves the beginning of a `data:` line, and an
example shows that those are read again. Audio does not depend on the split either,
and playing stops early exactly when a chunk has to be converted at an odd offset
of its buffer. Frontmatter, in any of its forms of quoting and with other lines
between, reads back as printed exactly when there is a line and the body has no CR
and no leading newline.

## Conventions

- A raised exception or an `Err` return is `Err`, without its message. A failed
  runtime assertion is `Panic` in the run machine and a precondition of the method.
- A function that specifies a loop has the loop beside it as a method, proved equal.
- Strings are sequences of code points; byte order of UTF-8 and code point order agree.
- `Ascending.Ids` and `KeyOrder.Walk` are the iteration orders of a `BTreeMap`.

## Model

| member | source | states |
|---|---|---|
| `SlotArithmetic.ReqSlotCntIsCeilingIff` | inferxlib/src/resource.rs:310-314 | for every slot size and request: the slot count is the exact ceiling of the requested bytes iff the rounded-up sum fits 64 bits and the count fits 32 |
| `SlotArithmetic.ReqSlotCntWraps` | inferxlib/src/resource.rs:310-314 | for every slot size a request of 2^44 MB wraps to zero slots, which is not its ceiling |
| `Common.AsI64Meaning` | inferxlib/src/resource.rs:399-400 | the signed cast of an unsigned amount |
| `SlotArithmetic.ReportedVRamCovers` | inferxlib/src/resource.rs:668-673 | with slots of whole MiB the reported VRam is at least the request and exceeds it by less than a slot |
| `SlotArithmetic.ReportedVRamCoversIff` | inferxlib/src/resource.rs:668-673 | for every slot size: every in-range request is covered by its reported VRam iff slots are whole MiB or the first uncovered request is out of range |
| `SlotArithmetic.UncoveredRequest` | inferxlib/src/resource.rs:310-314 | the first uncovered request, when in range, is reported short |
| `SlotArithmetic.UncoveredIsLarge` | inferxlib/src/resource.rs:310-314 | every request reported short is at least as large as the first uncovered one |
| `GpuLedger.ChoiceIsGreedyAndComplete` | inferxlib/src/resource.rs:382-423 | refusal iff fewer than gpuCount GPUs are eligible; otherwise exactly the lowest eligible ids |
| `GpuLedger.RefusedIffTooFewSuit` | inferxlib/src/resource.rs:382-423 | for a request in range: refused iff fewer than gpuCount GPUs have its memory in free slots, its contexts and its nccl; otherwise the lowest that do |
| `GpuLedger.GrantMeetsRequest` | inferxlib/src/resource.rs:335-379 | for a request in range every GPU of the grant holds the exact ceiling of its memory in slots, the contexts asked for, and nccl iff snapshot or several GPUs |
| `GpuLedger.FiftyFiveSlots` | inferxlib/src/resource.rs:310-314 | 14000 MB of 256 MiB slots are 55, and a GPU with 10 refuses them |
| `GpuLedger.GpuResourceMap.CanAlloc` | inferxlib/src/resource.rs:382-423 | the early-exit scan computes that choice, also for zero GPUs |
| `GpuLedger.GpuResourceMap.Scan` | inferxlib/src/resource.rs:398-423 | the loop over the GPUs finds the n lowest that fit, or none |
| `GpuLedger.GpuResourceMap.Alloc` | inferxlib/src/resource.rs:316-380 | the grant holds on exactly the chosen GPUs what the check demanded, and exactly that is deducted; a refusal changes nothing |
| `GpuLedger.GpuResourceMap.Deduct` | inferxlib/src/resource.rs:349-373 | the deduction loop takes the same amount from each chosen GPU and records it |
| `GpuLedger.GpuResourceMap.Add` | inferxlib/src/resource.rs:224-270 | every listed GPU gains what is freed, unknown GPUs appear, an unset slot size is adopted, nothing else changes; none of its assertions fires |
| `GpuLedger.GpuResourceMap.Credit` | inferxlib/src/resource.rs:253-268 | one entry of that loop: insert or top up |
| `GpuLedger.GpuResourceMap.Sub` | inferxlib/src/resource.rs:272-308 | every listed GPU loses what is reserved, nothing else changes |
| `GpuLedger.FreedUndoesReserved` | inferxlib/src/resource.rs:224-308 | Add undoes Sub exactly, as a whole ledger |
| `GpuLedger.FreedMeaning` | inferxlib/src/resource.rs:224-270 | what Add leaves: sums per counter, unknown GPUs inserted, the capacity kept, a slot size adopted only if none was set |
| `GpuLedger.GrantIsBacked` | inferxlib/src/resource.rs:316-380 | a grant names gpuCount known GPUs, never overdraws one, and can be freed back to the same ledger, for every context count |
| `GpuLedger.GrantIsReservableIff` | inferxlib/src/resource.rs:272-308 | the assertions of Sub accept a grant iff it has no GPUs or its context count stays non-negative as a signed integer |
| `GpuLedger.FreeingKeepsAllocable` | inferxlib/src/resource.rs:224-423 | no Add makes an allocable request fail |
| `NodeLedger.NodeResources.Sub` | inferxlib/src/resource.rs:504-515 | memories and GPUs go down, cpu and identity stay |
| `NodeLedger.NodeResources.Add` | inferxlib/src/resource.rs:547-560 | memories and GPUs go up, cpu and identity stay |
| `NodeLedger.NodeResources.CanAlloc` | ixshare/src/scheduler/scheduler_handler.rs:391-399 | true iff cpu, both memories, GPU type and GPUs all allow it |
| `NodeLedger.NodeResources.Alloc` | ixshare/src/scheduler/scheduler_handler.rs:401-421 | success iff admitted, the node then loses exactly the grant; a refusal leaves the node unchanged although memory is taken before the GPUs |
| `NodeLedger.AllocateLeasesIff` | ixshare/src/scheduler/scheduler_handler.rs:391-421 | an allocation that does not panic adds a lease iff type, cpu, both memories and enough GPUs allow it, each spelled out; the lease holds what was asked and the node loses it; otherwise nothing changes |
| `NodeLedger.FittingIsSuitable` | inferxlib/src/resource.rs:382-423 | for a request in range the GPUs counted there are those whose free slots cover the memory |
| `NodeLedger.ForeignTypeIsRefused` | ixshare/src/scheduler/scheduler_handler.rs:391-399 | a request for another GPU type is refused |
| `NodeLedger.ReservePanicsIff` | inferxlib/src/resource.rs:272-308 | a reservation trips an assertion iff slot sizes differ, an amount is negative or a GPU is unknown |
| `NodeLedger.AllocatePanicsIff` | inferxlib/src/resource.rs:316-347 | an allocation trips an assertion iff it asks for GPUs of a node without slots, or is admitted for zero slots |
| `NodeLedger.ZeroRequestPanics` | inferxlib/src/resource.rs:344-347 | a concrete node with one free GPU that panics on a request without memory |
| `NodeLedger.StepConserves` | inferxlib/src/resource.rs:504-560 | no legal operation panics, and each keeps conservation |
| `NodeLedger.EveryRunConserves` | inferxlib/src/resource.rs:224-380 | over every legal run: no panic, and available plus leased is the initial amount of every counter and memory |
| `NodeLedger.DrainedIsInitial` | inferxlib/src/resource.rs:504-560 | with every lease released the node equals its initial value |
| `NodeLedger.ReleasePanicsIff` | inferxlib/src/resource.rs:224-270 | in a conserving state a release panics iff the GPU types differ, so the overflow assertion never fires |
| `NodeLedger.ForeignReservationCannotBeReleased` | inferxlib/src/resource.rs:547-560 | Sub accepts a foreign GPU type, whose release then panics |
| `NodeLedger.EveryRunExcludes` | inferxlib/src/resource.rs:335-414 | without reservations counters stay between zero and their initial value, and exclusive leases never share a GPU |
| `NodeLedger.EveryRunBoundsMemory` | inferxlib/src/resource.rs:504-560 | without reservations and with memory requests below 2^63, both memories stay between zero and their initial values |
| `NodeLedger.HugeRequestRaisesMemory` | ixshare/src/scheduler/scheduler_handler.rs:391-421 | from 2^63 on a request is admitted by every node and raises its free memory |
| `NodeLedger.NoSharing` | inferxlib/src/resource.rs:335-356 | the exclusion step: two exclusive leases naming one GPU would need two nccl units |
| `GpuEncoding.Encode` | inferxlib/src/resource.rs:703-721 | fills the eight-entry array with each GPU's slots |
| `GpuEncoding.Decode` | inferxlib/src/resource.rs:755-784 | used entries come back with one context, and nccl iff several are used |
| `GpuEncoding.InfoSurvives` | inferxlib/src/resource.rs:703-784 | info to ledger to info is the identity |
| `GpuEncoding.LedgerSurvivesIff` | inferxlib/src/resource.rs:703-784 | for every ledger that can be encoded: ledger to info to ledger is the identity iff every entry has slots that fit 32 bits, one context, and nccl iff not alone |
| `GpuEncoding.SecondContextIsLost` | inferxlib/src/resource.rs:755-784 | a concrete ledger that does not come back |
| `GpuEncoding.GrantSurvivesIff` | inferxlib/src/resource.rs:335-379 | for a grant on ids 0 to 7: iff it asked for one context and is not a single-GPU snapshot |
| `KeyOrder.PrefixesAreContiguous` | inferxlib/src/data_obj.rs:326-340 | past a key without the prefix, no later key has it, so the early break loses nothing |
| `KeyOrder.LessIff` | inferxlib/src/data_obj.rs:328-333 | the order of keys is decided where they first part, by the smaller character or the end |
| `ObjectIndex.KeyNamesOneObject` | inferxlib/src/data_obj.rs:83-98 | with validated names a joined key equals a stored key iff tenant, namespace and name do |
| `ObjectIndex.NameCharCodes` | inferxlib/src/data_obj.rs:89-91 | the characters of a valid name, by code point |
| `ObjectIndex.WalkFindsPrefix` | inferxlib/src/data_obj.rs:318-343 | range-from-start with break on mismatch is all keys with the prefix, sorted |
| `ObjectIndex.PrefixMeansMatch` | inferxlib/src/data_obj.rs:345-374 | a stored key has the start key as prefix iff the object matches the query |
| `ObjectIndex.ListingIsFilter` | inferxlib/src/data_obj.rs:345-374 | an unambiguous listing selects exactly the matching objects |
| `ObjectIndex.ListingIsFilterIff` | inferxlib/src/data_obj.rs:345-374 | it does so on every store iff the tenant argument does not read as tenant/namespace |
| `ObjectIndex.AmbiguousListingIsNotFilter` | inferxlib/src/data_obj.rs:345-374 | for an ambiguous query, a store on which another tenant's object is returned |
| `ObjectIndex.DataObjectMgr.constructor` | inferxlib/src/data_obj.rs:266-276 | starts empty |
| `ObjectIndex.DataObjectMgr.Contains` | inferxlib/src/data_obj.rs:287-290 | true iff the joined key is stored |
| `ObjectIndex.DataObjectMgr.IsEmpty` | inferxlib/src/data_obj.rs:292-316 | true iff the key listing of the same query is empty |
| `ObjectIndex.DataObjectMgr.GetObjectKeys` | inferxlib/src/data_obj.rs:318-343 | all keys with the start key as prefix, sorted |
| `ObjectIndex.DataObjectMgr.GetObjectsByPrefix` | inferxlib/src/data_obj.rs:345-374 | the objects of those keys in order; on a consistent store and an unambiguous query, exactly the matching objects |
| `ObjectIndex.DataObjectMgr.GetObjects` | inferxlib/src/data_obj.rs:376-401 | the same with an empty name prefix |
| `ObjectIndex.DataObjectMgr.Get` | inferxlib/src/data_obj.rs:412-426 | the object under the joined key, or an error |
| `ObjectIndex.DataObjectMgr.Add` | inferxlib/src/data_obj.rs:428-440 | the change `Add`, refused iff the key exists, a refusal leaving the store alone |
| `ObjectIndex.DataObjectMgr.Update` | inferxlib/src/data_obj.rs:442-454 | the change `Update`, refused iff the key is missing |
| `ObjectIndex.DataObjectMgr.Remove` | inferxlib/src/data_obj.rs:456-470 | the change `Remove`, refused iff the key is missing |
| `ObjectIndex.LookupAgrees` | inferxlib/src/data_obj.rs:412-426 | a lookup by key gives what the identity-keyed map gives |
| `ObjectIndex.ApplyRefines` | inferxlib/src/data_obj.rs:428-470 | each change succeeds or fails as on the identity-keyed map and keeps the representation |
| `ObjectIndex.EveryRunRefines` | inferxlib/src/data_obj.rs:428-470 | every run from empty gives the same answers as the identity-keyed map, and every stored key is its object's key |
| `Commands.StripNamedArgs` | dashboard/app.py:2341-2376 | the index-skipping loop equals the recursive removal |
| `Commands.StripArgsIsFree` | dashboard/app.py:2341-2376 | the result mentions neither flag and invents no token |
| `Commands.ParseNamedArg` | dashboard/app.py:3222-3235 | the first mention's value, stripped, or empty |
| `Commands.ParseReadsFirst` | dashboard/app.py:3222-3235 | the first mention decides: next token, text after the first '=', or nothing |
| `Commands.UpsertNamedArg` | dashboard/app.py:3238-3267 | the loop equals the recursive replacement; a blank value is an error |
| `Commands.UpsertThenParse` | dashboard/app.py:3222-3267 | put-get |
| `Commands.UpsertTwice` | dashboard/app.py:3238-3267 | put-put, for any two values |
| `Commands.UpsertKeepsOthers` | dashboard/app.py:3238-3267 | all other tokens stay, in order |
| `Commands.UpsertLeavesOneMention` | dashboard/app.py:3238-3267 | exactly one mention of the flag is left |
| `Commands.UpsertStaysFree` | dashboard/app.py:3238-3267 | no other flag is brought in |
| `ModelTargets.FindEffectiveTargets` | dashboard/app.py:2607-2651 | the loop returns the distinct targets in order of first mention, or the error |
| `ModelTargets.FindTargetsIsSingleIff` | dashboard/app.py:2607-2651 | one effective target x iff every place that names a target names x |
| `TargetNormalForm.NormalizeTwice` | dashboard/app.py:2567-2585 | the normal form of a target is trimmed and is its own normal form |
| `CachePaths.SnapshotIsFirst` | dashboard/app.py:2567-2585 | a path has a repository iff some cache directory that names one is followed by `snapshots` and another part, and then that of the first |
| `CachePaths.CachePathNamesRepo` | dashboard/app.py:2567-2585 | the cache path of every repository, at every revision, has that repository as its normal form |
| `CachePaths.JoinLooksLikeRepo` | dashboard/app.py:2556-2564 | two or more repository segments joined by slashes look like a repository |
| `CachePaths.PathIsNoRepo` | dashboard/app.py:2556-2564 | what looks like a repository is no absolute or relative path and no address |
| `CachePaths.SegmentCodes` | dashboard/app.py:2556-2564 | the characters of a repository segment, by code point |
| `CatalogMerge.NormalizeJsonArgs` | dashboard/app.py:2432-2472 | the loop equals the recursive pass, for any value normaliser |
| `CatalogMerge.NoJsonIsUnchanged` | dashboard/app.py:2432-2472 | lists without JSON-valued flags pass unchanged |
| `CatalogMerge.JsonValueIsNormalized` | dashboard/app.py:2432-2472 | the value of a JSON-valued flag is replaced by its normal form in both forms of the argument; a rejected or missing value is an error |
| `CatalogMerge.LockedPrefixTokens` | dashboard/app.py:3276-3288 | the three tokens of `vllm serve MODEL`, else the leading words |
| `CatalogMerge.LockedModelTokens` | dashboard/app.py:3299-3311 | the first model argument, with its value if separate |
| `CatalogMerge.NamedArgTokens` | dashboard/app.py:3314-3331 | all tokens of a named argument |
| `CatalogMerge.NamedTokensAt` | dashboard/app.py:3314-3331 | at each mention its token is taken, with the next one after a bare flag |
| `CatalogMerge.StripOmniArgs` | dashboard/app.py:2490-2496 | drops the generated omni flags |
| `CatalogMerge.KeepOmniArgs` | dashboard/app.py:3334-3376 | keeps only the generated omni flags |
| `CatalogMerge.EditableTokens` | dashboard/app.py:3334-3376 | the submission without the locked parts |
| `MergeIdempotence.CustomersArgumentsPass` | dashboard/app.py:3344-3352 | arguments that contain nothing locked pass through as they are, with or without the locked prefix in front |
| `CatalogMerge.SyncTensorParallel` | dashboard/app.py:3270-3273 | error for a count below one, else the replaced argument |
| `PyText.DecimalDenotes` | dashboard/app.py:3270-3273 | the numeral written for a GPU count denotes it |
| `TensorParallel.SyncedCarriesCount` | dashboard/app.py:3270-3273 | in merged and synced commands the tensor-parallel argument reads as the number of GPUs |
| `TensorParallel.MergeCarriesCount` | dashboard/app.py:3334-3376 | so does it after every successful merge from raw lists, which needs a positive count |
| `TensorParallel.GeneratedCarriesCount` | dashboard/app.py:3081-3087 | so does it in the commands of the basic editor |
| `TensorParallel.CountIsOwnIff` | dashboard/app.py:3334-3376 | it is an argument besides the model argument iff the base's model value is not itself a tensor-parallel token |
| `TensorParallel.TwoGpus` | dashboard/app.py:3334-3376 | a concrete merge for two GPUs |
| `CatalogMerge.MergeCommands` | dashboard/app.py:3334-3376 | the whole merge, both modes, with and without syncing, equals its specification |
| `ModelLock.SyncedTargetIff` | dashboard/app.py:3334-3376 | merged and synced commands keep the base's only target iff neither loose nor hijacked |
| `ModelLock.MergeKeepsTargetIff` | dashboard/app.py:3334-3376 | the same from the raw lists, for the target the base names once its JSON-valued flags are normalised |
| `ModelLock.NamedModelIsLocked` | dashboard/app.py:3276-3376 | a base naming its model by `--model` or `vllm serve`, by no tensor-parallel token, keeps its target for every submission, image, count and mode |
| `LockHistory.EveryHistoryKeepsTarget` | dashboard/app.py:11516-11526 | over every history of edits, each merged into the result of the one before, a base that names its model keeps its target and goes on naming it |
| `LockHistory.EveryMergeHistoryKeepsTarget` | dashboard/app.py:11516-11526 | the same from the raw lists, without JSON-valued flags |
| `ModelLock.PositionalModelIsNotLocked` | dashboard/app.py:2588-2604 | a model named only by position is lost when one word is appended |
| `MergeIdempotence.SyncedTwiceIff` | dashboard/app.py:3334-3376 | for every base whose targets can be read and every submission, mode and image kind: feeding the merged and synced commands back changes nothing iff the base's model value is not taken for an omni or tensor-parallel token |
| `MergeIdempotence.MergeTwiceIff` | dashboard/app.py:3334-3376 | the same from the raw lists, when the merged list needs no further JSON normalising |
| `MergeIdempotence.PlainMergeTwiceIff` | dashboard/app.py:3334-3376 | which holds for all lists without JSON-valued flags |
| `MergeIdempotence.OmniModelIsConfused` | dashboard/app.py:2490-2496 | a concrete base with an omni flag as model value whose second merge differs |
| `UnsyncedMerge.NoTargetIff` | dashboard/app.py:2607-2651 | a list has no effective target iff no positional model, no `vllm serve` and no model argument is in it |
| `UnsyncedMerge.StaysWithoutTargetIff` | dashboard/app.py:3334-3376 | without syncing, a base without a target gives a result without one iff the customer's tokens do not open with one, complete a lone `vllm`, or carry one as a tensor-parallel value |
| `UnsyncedMerge.EmptyBaseGainsTarget` | dashboard/app.py:3334-3376 | an empty base gains the repository a customer submits |
| `UnsyncedMerge.SyncedStaysWithoutTargetIff` | dashboard/app.py:7265-7271 | with syncing, for an entry whose model is named by its sample query only: commands without a target stay without one iff the customer's synced tokens do not bring one in |
| `UnsyncedMerge.SyncedEmptyBaseGainsTarget` | dashboard/app.py:7265-7271 | an empty base gains the repository a customer submits, with syncing too |
| `UnsyncedMerge.PreservedTwiceIff` | dashboard/app.py:3334-3376 | without syncing, merging again changes nothing iff the carried-over tensor-parallel tokens are still recognised once omni flags are taken out |
| `UnsyncedMerge.CustomersTokensWin` | dashboard/app.py:3367-3375 | without syncing, a basic result carries the customer's tensor-parallel tokens if there are any, else the base's, and no other |
| `UnsyncedMerge.OmniValueLeavesResidue` | dashboard/app.py:3367-3375 | a concrete submission whose second merge without syncing differs |
| `EnvMerge.TakeBase` | dashboard/app.py:7100-7108 | the first loop: all base entries, and the protected ones among them |
| `EnvMerge.TakeCustomer` | dashboard/app.py:7110-7120 | the second loop: customer entries except protected keys the base has set |
| `EnvMerge.MergeProtectedEnvs` | dashboard/app.py:7090-7125 | the three loops equal the merge function |
| `EnvMerge.MergeMeaning` | dashboard/app.py:7090-7125 | keys once each in order of first occurrence, their set is the union, protected base keys keep base's last value, other keys take the customer's last value if any |
| `EnvMerge.RemergeIsNoOp` | dashboard/app.py:7090-7125 | merging the same customer list again changes nothing |
| `EnvMerge.SelfMergeIff` | dashboard/app.py:7090-7125 | merging a list with itself reproduces it iff it is well formed and repeats no key |
| `PolicyOverlay.BuildFullIsFixpoint` | dashboard/app.py:2837-2846 | a built policy is complete, keeps every visible field, and is its own build |
| `PolicyOverlay.BuildFullFailsIff` | dashboard/app.py:2744-2846 | building fails iff a field is out of range or the effective maximum is below the effective minimum |
| `JsonDiff.DiffIsExact` | dashboard/app.py:7452-7495 | for every rounding of numbers: no difference is reported iff the values are equal after rounding, and a reported path leads to different values |
| `JsonDiff.MissingKeyIsReported` | dashboard/app.py:7470-7478 | a key missing on the second side is reported first, the smallest of them |
| `JsonDiff.AddedKeyIsReported` | dashboard/app.py:7470-7478 | then a key missing on the first side |
| `JsonDiff.SmallestKeyIsReported` | dashboard/app.py:7479-7483 | then the smallest key with different values |
| `JsonDiff.FirstItemIsReported` | dashboard/app.py:7485-7492 | and in lists the first position with different items |
| `SpecJson.NoDifferenceIff` | dashboard/app.py:7470-7495 | between two specs in JSON form no difference is reported iff they agree in every field, numbers after rounding |
| `SpecEditor.StripReservedEnvs` | dashboard/app.py:2695-2707 | the loop drops malformed entries and reserved keys and nothing else |
| `EditorSave.WithoutReservedMeaning` | dashboard/app.py:2695-2707 | exactly the two reserved keys and malformed entries go; every other key keeps its last value |
| `EditorSave.ValidateMeaning` | dashboard/app.py:2849-2969 | a submission is accepted iff image, count, memory, environment, policy and arguments each are; what is passed on |
| `EditorSave.NormalizeMeaning` | dashboard/app.py:2744-2834 | a policy is accepted iff the part its submitter may set is in range and ordered, bounds spelled out, and that part is kept |
| `EditorSave.BuildMeaning` | dashboard/app.py:2837-2846 | a built policy has each given field and else the default, field by field |
| `EditorSave.SavedPolicyMeaning` | dashboard/app.py:7195-7230 | a saved policy has each submitted field, else the stored one, else the default; without a submission it goes |
| `EditorSave.RebuildPolicy` | dashboard/app.py:7128-7232 | the same for a whole save, with the submitter's rights |
| `EditorSave.RaisedMaximumIsStored` | dashboard/app.py:7204-7206 | an edit that only raises the maximum is stored |
| `EditorSave.RebuildResources` | dashboard/app.py:7157-7178 | image, count and memory are those submitted, cpu and memory those of the row for the count, endpoint and standby those stored |
| `EditorSave.RebuildCommands` | dashboard/app.py:7157-7158 | saved commands carry the submitted count, serve the model and give back the submitted arguments |
| `EditorSave.RebuildEnvs` | dashboard/app.py:7180-7184 | reserved keys keep their stored value or get the default, other keys take the submitted value, else keep the stored one, no key twice |
| `EditorSave.RebuildQuery` | dashboard/app.py:7186-7193 | a submitted query is stored with the model put in, otherwise the stored one stays |
| `EditorSave.BuildResources` | dashboard/app.py:3071-3121 | the fields of a new spec, with the fixed parts spelled out |
| `EditorSave.BuildQuery` | dashboard/app.py:3035-3068 | the sample query of a new spec, submitted or default |
| `EditorSave.OmniFlagsAreGenerated` | dashboard/app.py:2499-2511 | commands for an omni image carry its two flags |
| `EditorSave.ProjectMeaning` | dashboard/app.py:7352-7449 | what opening shows, and when it fails: the only target, else that of the sample query, several are an error |
| `EditorSave.SampleTargetMeaning` | dashboard/app.py:2654-2663 | a sample query names a model by the text at body.model only |
| `EditorCommands.BuildGeneratedCommands` | dashboard/app.py:2499-2516 | opening the built commands gives back exactly the customer's arguments, and they serve the normal form of the model and nothing else |
| `EditorCommands.RecoverCommands` | dashboard/app.py:7372-7380 | the recovered arguments mention nothing generated, and of generated commands they are exactly the customer's |
| `EditorCommands.GeneratedShape` | dashboard/app.py:3081-3087 | generated and synced commands are opening, arguments, closing, for every model name that can be opened again |
| `EditorCommands.LaidIsRecovered` | dashboard/app.py:7372-7380 | opening stored commands gives back the arguments stored in them |
| `EditorFixpoint.RegeneratedIff` | dashboard/app.py:3081-3087 | regenerating from the recovered arguments gives the same commands iff the stored model is in normal form and reading the arguments again changes nothing |
| `EditorCommands.LaidTarget` | dashboard/app.py:2607-2693 | stored commands have the normal form of their model as only target |
| `EditorCommands.UnopenableHasNoTarget` | dashboard/app.py:2607-2651 | commands generated for any other model name have no readable target |
| `EditorCommands.OtherModelDiffers` | dashboard/app.py:2499-2516 | generating for another model gives other commands |
| `EditorFixpoint.EnvsSurviveIff` | dashboard/app.py:7128-7232 | the saved environment equals the built one iff no customer key repeats |
| `EditorFixpoint.SampleQuerySurvivesIff` | dashboard/app.py:3035-3068 | resolving a resolved sample query changes nothing iff it is for the same model |
| `EditorFixpoint.ProducedOpens` | dashboard/app.py:7352-7449 | what a produced spec is projected to, and that it cannot be projected when its model name cannot be opened again |
| `EditorFixpoint.ProducedRebuilds` | dashboard/app.py:7128-7232 | what saving an opened spec builds, for any arguments and any model name |
| `EditorFixpoint.ResavedIsAlikeIff` | dashboard/app.py:7541-7548 | what was saved is alike to what was stored, up to rounding of numbers, iff name, arguments and environment survive |
| `EditorFixpoint.ProducedIsSupportedIff` | dashboard/app.py:7498-7566 | for every submission and model name: the produced spec passes the no-op test iff the name comes back as given, the stored arguments are settled and no environment key repeats |
| `EditorFixpoint.PlainIsSettled` | dashboard/app.py:2849-2969 | arguments without JSON-valued flags are settled |
| `EditorFixpoint.OrdinaryIsSupportedIff` | dashboard/app.py:7498-7566 | for a word as model name and no JSON-valued flags: iff the name is its own normal form and no environment key repeats |
| `EditorExamples.PlainSpecIsSupported` | dashboard/app.py:7498-7566 | a concrete spec that passes |
| `EditorExamples.RepeatedKeyIsUnsupported` | dashboard/app.py:7128-7232 | a concrete spec with a repeated environment key that is produced and does not pass |
| `EditorExamples.CachePathIsUnsupported` | dashboard/app.py:2567-2585 | a concrete spec for a cache path as model name that is produced and does not pass |
| `EditorExamples.UnsettledIsUnsupported` | dashboard/app.py:2432-2516 | a concrete spec with an omni flag as value of a JSON-valued flag that is produced and does not pass |
| `EditorFixpoint.ReplicaKeptIff` | dashboard/app.py:7195-7230 | a non-admin save keeps the admin-set replica count iff there was none or another policy field is submitted |
| `EditorExamples.ReplicaIsLost` | dashboard/app.py:7195-7230 | a concrete non-admin save that loses the count |
| `EditorExamples.TensorParallelModelIsHijacked` | dashboard/app.py:3270-3311 | a concrete base whose target is lost by syncing |
| `CatalogNoOp.CommandsSurviveIff` | dashboard/app.py:7508-7524 | a no-op save of stored catalog commands keeps them iff they are in the order a basic merge writes and the customer's arguments do not repeat the locked prefix |
| `CatalogNoOp.MergedIsOrderedIff` | dashboard/app.py:3334-3376 | what a merge into a base that names its model has stored, in either mode, is in that order iff the tensor-parallel argument is last and in two tokens |
| `CatalogNoOp.BasicMergeSurvivesIff` | dashboard/app.py:7508-7524 | what a basic merge has stored survives a no-op save iff the customer's arguments do not repeat the locked prefix |
| `CatalogNoOp.JoinedCountIsMoved` | dashboard/app.py:3334-3376 | a concrete list stored by an advanced merge that a no-op save changes |
| `CatalogNoOp.EnvsSurviveIff` | dashboard/app.py:7288-7292 | a no-op save keeps the stored catalog environment iff it is well formed and repeats no key |
| `SseStream.StreamText` | dashboard/static/inference.js:1387-1428 | the read loop shows what the specification says, put-back of unparsable payloads included |
| `SseStream.DataLineReads` | dashboard/static/inference.js:1399-1410 | a `data:` line with any white space around its payload carries that payload, `[DONE]` ends the stream |
| `SseStream.OtherLineIsSkipped` | dashboard/static/inference.js:1399-1403 | any other line is skipped |
| `SseStream.SplitConcat` | dashboard/static/inference.js:1395-1397 | when text arrives, finished lines stay and only the unfinished one grows |
| `SseStream.ChunkingIsIrrelevant` | dashboard/static/inference.js:1387-1428 | if every non-empty payload up to `[DONE]` parses, what is shown is that of the whole text's terminated lines, for every split |
| `SseChunking.EverySplitShowsStart` | dashboard/static/inference.js:1387-1428 | for every text, whatever its payloads: each split shows at least what the lines before the first rejected payload show, in order |
| `SseSplits.ChunkingIsIrrelevantIff` | dashboard/static/inference.js:1387-1428 | for every text whose rejected payloads begin no `data:` line: what is shown is the same for all splits iff nothing is left to show after a rejected payload |
| `SseChunking.SafeReadAll` | dashboard/static/inference.js:1387-1428 | on such texts every split, from any point of the stream, shows what is still missing |
| `SseSplits.UnsafeDepends` | dashboard/static/inference.js:1423-1426 | on all others it constructs a split that shows something else |
| `SseSplits.UnparsableDependsOnChunking` | dashboard/static/inference.js:1423-1426 | the shortest failing texts: a rejected payload, then a line that shows something |
| `SseSplits.SpoiledExample` | dashboard/static/inference.js:1423-1426 | a concrete such text, in two splits |
| `SseSplits.RereadExample` | dashboard/static/inference.js:1423-1426 | a rejected payload that begins a `data:` line is read again |
| `PcmStream.Align` | dashboard/static/inference.js:1584-1599 | an even chunk and the carried byte hold exactly the carried byte before and the new bytes; what was copied starts at offset zero |
| `PcmStream.ToFloats` | dashboard/static/inference.js:1601-1607 | the samples of an aligned chunk, an error at an odd buffer offset |
| `PcmStream.SampleReadsBack` | dashboard/static/inference.js:1603-1607 | every signed 16-bit number reads back from its two bytes, low byte first, as the fraction it stands for |
| `PcmStream.BytesAreNumbers` | dashboard/static/inference.js:1603-1607 | every pair of bytes is such a number's |
| `PcmStream.Convert` | dashboard/static/inference.js:1584-1607 | one turn of the loop: all samples complete so far, an error iff a chunk is converted in place at an odd offset |
| `PcmStream.DecodeGoesOn` | dashboard/static/inference.js:1584-1607 | what was not decoded of one part is decoded together with what follows |
| `PcmStream.PlayStream` | dashboard/static/inference.js:1574-1607 | for every split the buffers played are the samples of the whole stream, only a final odd byte dropped; otherwise a prefix, iff some chunk is converted at an odd offset |
| `PcmStream.OddOffsetStops` | dashboard/static/inference.js:1603-1603 | a concrete chunk that cannot be converted |
| `Frontmatter.FindClose` | script/skill_merge.py:34-47 | the first line exactly `---` after the line that follows the opening delimiter, or none |
| `Frontmatter.BreakCodes` | script/skill_merge.py:55-55 | where a header breaks into lines, by code point |
| `Frontmatter.ParseFrontmatter` | script/skill_merge.py:25-64 | the loops compute the parse function |
| `Frontmatter.EncodingIsIrrelevant` | script/skill_merge.py:27-28 | CR LF and CR line endings and a byte order mark do not change the result |
| `Frontmatter.NoHeaderIsBody` | script/skill_merge.py:30-48 | a text that opens no header, or never closes it, is all body |
| `Frontmatter.BareReadsIff` | script/skill_merge.py:55-62 | with any white space around it a value reads as itself iff no matching pair of quotes encloses it, else as the inside |
| `Frontmatter.QuotedReads` | script/skill_merge.py:59-61 | with either quote around it any text reads as itself |
| `Frontmatter.NoFieldIff` | script/skill_merge.py:55-58 | a line is no field iff it does not start with a key and a colon |
| `Frontmatter.LineReadsBack` | script/skill_merge.py:55-62 | a printed line, bare, single-quoted or double-quoted, reads back as its field, any other line as none |
| `Frontmatter.PrintedCloses` | script/skill_merge.py:34-47 | whatever lines a header has, the delimiter found is the one printed |
| `Frontmatter.PrintedTextsReadBack` | script/skill_merge.py:25-64 | a header of any lines reads as what they say one by one, last duplicate winning, and the body as it was |
| `Frontmatter.PrintedBodyIsGood` | script/skill_merge.py:25-64 | the parsed body of a printed file has no CR and no leading newline, whatever was printed |
| `Frontmatter.EmptyHeaderIsLost` | script/skill_merge.py:34-50 | a header without fields never yields its body |
| `Frontmatter.RoundTripIff` | script/skill_merge.py:25-64 | print then parse recovers fields in all three forms, between other lines, and body iff there is a line and the body has no CR and no leading newline |
| `LinkSplice.Splice` | script/skill_merge.py:109-112 | splicing the links last first equals rewriting the line left to right |
| `LinkSplice.SelfReplacementIsIdentity` | script/skill_merge.py:109-112 | nothing outside the links is touched |
| `CatalogSlug.ComponentIsComponent` | dashboard/app.py:6739-6748 | an accepted component has slug characters only, no double dash, no dash at an end, however lower-casing acts |
| `CatalogSlug.ComponentFollowsLowerCase` | dashboard/app.py:6739-6748 | only the lower-cased, trimmed text matters |
| `CatalogSlug.LowerCaseIsKept` | dashboard/app.py:6739-6748 | a text that is a component once lower-cased has that component |
| `CatalogSlug.JunkBecomesDash` | dashboard/app.py:6739-6748 | whatever separates two components becomes one dash |
| `CatalogSlug.ComponentIsIdempotent` | dashboard/app.py:6739-6748 | normalising twice is normalising once; the fixed points are exactly the components |
| `CatalogSlug.DoubleDashIsUnique` | dashboard/app.py:6751-6754 | a slug has exactly one double dash, between its parts |
| `CatalogSlug.SlugIsUnambiguous` | dashboard/app.py:6751-6754 | equal slugs have equal normalised parts |
| `CatalogSlug.SlugReadsBack` | dashboard/app.py:6751-6754 | a slug is the provider's component, two dashes and the display name's; it is refused iff either is |

## Left out

- Overflow of the 64-bit counters: they are unbounded integers. In legal runs without reservations they stay between zero and their initial values.
- Overflow checks of debug builds: slot arithmetic wraps as in a release build.
- `VirtToPhy`, `PhyToVirt`, `GPUSet::V2P`, quota builders and the remaining accessors of resource.rs: they would only add easy members.
- The rest of the scheduler around the node ledger (pods, pending and stopping sets, placement): only the ledger operations it calls are modelled.
- MergeIdempotence.MergeTwiceIff: stated for merged lists that are settled under JSON normalising.
- SseSplits.ChunkingIsIrrelevantIff: texts with a rejected payload that is itself the beginning of a `data:` line are not covered, because such a payload is read again as a line; `EverySplitShowsStart` bounds them from below.
- SseChunking.SafeReadAll: the same texts are not covered.
- The conversion of a number to a float: any rounding function.
- The value of a JSON-valued flag (app.py:2404-2429): an arbitrary normaliser function.
- Type and unknown-key checks of submitted JSON: specs and policies are records, so ill-typed input cannot be expressed; a stored spec has no keys beyond those the editor writes, in particular no entrypoint or mounts.
- The advanced editor mode of spec building, locked image names, and the catalog-customised rebuild of a whole spec: of the last, the command merge in both modes and the environment are modelled.
- The image whitelist, the resource table per GPU count and the sample prompts: parameters.
- Policies by link: an embedded policy object only.
- Lower-casing in slugs: any function; idempotence assumes that it leaves slug text alone.
- `TextDecoder`, JSON parsing of payloads, timing, audio scheduling and `resampleLinear`: chunks are already text, a payload parser is a parameter, samples are exact reals.
- The link regular expressions and bare-link deletion of skill_merge.py: matched spans and their replacements are given.
- Locking in the object manager: each method is one atomic step. Lookup by a ready-made key (data_obj.rs:403-410) is the same map access as `Get`.
- Routes, sessions, database, billing, generated protocol code and command-line clients: input and output.
