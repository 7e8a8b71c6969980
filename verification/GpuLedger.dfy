/**
 The per-node GPU ledger: for each physical GPU the slots, contexts and nccl
 capacity still available, and the operations that reserve and free them.
 Counters are signed, as in the source.
 */
module GpuLedger {
  import opened Common
  import Ascending
  import opened SlotArithmetic

  datatype GpuAlloc = GpuAlloc(contextCnt: int, slotCnt: int, ncclCnt: int) {
    function Plus(other: GpuAlloc): GpuAlloc {
      GpuAlloc(contextCnt + other.contextCnt, slotCnt + other.slotCnt, ncclCnt + other.ncclCnt)
    }

    function Minus(other: GpuAlloc): GpuAlloc {
      GpuAlloc(contextCnt - other.contextCnt, slotCnt - other.slotCnt, ncclCnt - other.ncclCnt)
    }

    predicate AtLeast(other: GpuAlloc) {
      contextCnt >= other.contextCnt && slotCnt >= other.slotCnt && ncclCnt >= other.ncclCnt
    }

    predicate NonNegative() {
      AtLeast(NOTHING)
    }
  }

  const NOTHING := GpuAlloc(0, 0, 0)

  /** The value of a ledger, also the value of one grant taken from it. */
  datatype Gpus = Gpus(totalSlotCnt: int, perGpu: map<int, GpuAlloc>, slotSize: int) {
    predicate NonNegative() {
      forall g :: g in perGpu ==> perGpu[g].NonNegative()
    }
  }

  datatype GpuRequest = GpuRequest(gpuCount: u64, vRam: u64, contextCount: u64)

  /** What the map says about `g`; a GPU it does not list has nothing. */
  function Amount(m: map<int, GpuAlloc>, g: int): GpuAlloc {
    if g in m then m[g] else NOTHING
  }

  // ----- choosing GPUs

  /** What one GPU must have free for the request; a snapshot or a multi-GPU request also takes nccl. */
  function Demand(slotSize: int, req: GpuRequest, createSnapshot: bool): GpuAlloc
    requires slotSize > 0
  {
    GpuAlloc(AsI64(req.contextCount), ReqSlotCnt(slotSize, req.vRam),
             if createSnapshot || req.gpuCount >= 2 then 1 else 0)
  }

  function Eligible(m: Gpus, need: GpuAlloc): set<int> {
    set g | g in m.perGpu && m.perGpu[g].AtLeast(need)
  }

  /** The `n` lowest members of `fit`, or none when there are too few. */
  function Lowest(fit: set<int>, n: nat): Option<seq<int>> {
    var ids := Ascending.Ids(fit);
    if |ids| < n then None else Some(ids[..n])
  }

  /** The GPUs a request gets, or none when it is refused. */
  function Choice(m: Gpus, req: GpuRequest, createSnapshot: bool): Option<seq<int>>
    requires req.gpuCount == 0 || m.slotSize > 0
  {
    if req.gpuCount == 0 then Some([]) else
      Lowest(Eligible(m, Demand(m.slotSize, req, createSnapshot)), req.gpuCount)
  }

  ghost predicate IsLowest(ids: seq<int>, fit: set<int>, n: nat) {
    && |ids| == n
    && Ascending.Increasing(ids)
    && (forall g :: g in ids ==> g in fit)
    && (forall g, h :: g in ids && h in fit && h !in ids ==> g < h)
  }

  lemma LowestIsLowest(fit: set<int>, n: nat)
    ensures match Lowest(fit, n)
            case None => |fit| < n
            case Some(ids) => |fit| >= n && IsLowest(ids, fit, n)
  {
    var all := Ascending.Ids(fit);
    Ascending.IdsOrdered(fit);
    if |all| >= n {
      var ids := all[..n];
      forall g, h | g in ids && h in fit && h !in ids ensures g < h {
        assert h in all;
        var i :| 0 <= i < |ids| && ids[i] == g;
        var j :| 0 <= j < |all| && all[j] == h;
        assert j >= n;
        assert all[i] < all[j];
      }
    }
  }

  /** Refusal means too few GPUs are eligible; success means the lowest eligible ones, and exactly enough. */
  lemma ChoiceIsGreedyAndComplete(m: Gpus, req: GpuRequest, createSnapshot: bool)
    requires req.gpuCount > 0 && m.slotSize > 0
    ensures var fit := Eligible(m, Demand(m.slotSize, req, createSnapshot));
            match Choice(m, req, createSnapshot)
            case None => |fit| < req.gpuCount
            case Some(ids) => |fit| >= req.gpuCount && IsLowest(ids, fit, req.gpuCount)
  {
    LowestIsLowest(Eligible(m, Demand(m.slotSize, req, createSnapshot)), req.gpuCount);
  }

  lemma SubsetSize(a: set<int>, b: set<int>)
    requires a <= b
    ensures |a| <= |b|
  {
    assert b == a + (b - a);
  }

  // ----- the effect of freeing, reserving and granting

  /** The runtime assertions of `Add`. */
  predicate AddAsserts(m: Gpus, free: Gpus) {
    forall g :: g in free.perGpu ==>
      free.perGpu[g].NonNegative() &&
      (g in m.perGpu ==> m.perGpu[g].slotCnt + free.perGpu[g].slotCnt <= m.totalSlotCnt)
  }

  function Topped(m: map<int, GpuAlloc>, free: map<int, GpuAlloc>): map<int, GpuAlloc> {
    map g | g in m.Keys + free.Keys :: Amount(m, g).Plus(Amount(free, g))
  }

  function Freed(m: Gpus, free: Gpus): Gpus {
    Gpus(m.totalSlotCnt, Topped(m.perGpu, free.perGpu), if m.slotSize == 0 then free.slotSize else m.slotSize)
  }

  /** The runtime assertions of `Sub`. */
  predicate SubAsserts(m: Gpus, alloc: Gpus) {
    && (alloc.slotSize == 0 || m.slotSize == alloc.slotSize)
    && alloc.NonNegative()
    && alloc.perGpu.Keys <= m.perGpu.Keys
  }

  function Drawn(m: map<int, GpuAlloc>, alloc: map<int, GpuAlloc>): map<int, GpuAlloc> {
    map g | g in m :: m[g].Minus(Amount(alloc, g))
  }

  function Reserved(m: Gpus, alloc: Gpus): Gpus {
    Gpus(m.totalSlotCnt, Drawn(m.perGpu, alloc.perGpu), m.slotSize)
  }

  lemma ToppedAt(m: map<int, GpuAlloc>, free: map<int, GpuAlloc>, g: int)
    ensures Amount(Topped(m, free), g) == Amount(m, g).Plus(Amount(free, g))
  {
  }

  lemma DrawnAt(m: map<int, GpuAlloc>, alloc: map<int, GpuAlloc>, g: int)
    requires alloc.Keys <= m.Keys
    ensures Amount(Drawn(m, alloc), g) == Amount(m, g).Minus(Amount(alloc, g))
  {
  }

  /** `Alloc` divides by the slot size and asserts that the request covers at least one slot. */
  predicate AllocAsserts(m: Gpus, req: GpuRequest, createSnapshot: bool) {
    req.gpuCount == 0 ||
    (m.slotSize > 0 && (Choice(m, req, createSnapshot).Some? ==> ReqSlotCnt(m.slotSize, req.vRam) > 0))
  }

  /** The resources an accepted request is handed. */
  function Grant(m: Gpus, req: GpuRequest, createSnapshot: bool): Gpus
    requires req.gpuCount == 0 || m.slotSize > 0
    requires Choice(m, req, createSnapshot).Some?
  {
    var ids := Choice(m, req, createSnapshot).value;
    m.(perGpu := map g | g in ids :: if req.gpuCount == 0 then NOTHING else Demand(m.slotSize, req, createSnapshot))
  }

  /** Freeing what was just reserved restores the ledger exactly. */
  lemma FreedUndoesReserved(m: Gpus, alloc: Gpus)
    requires alloc.perGpu.Keys <= m.perGpu.Keys && (alloc.slotSize == 0 || m.slotSize != 0)
    ensures Freed(Reserved(m, alloc), alloc) == m
  {
    var back := Topped(Drawn(m.perGpu, alloc.perGpu), alloc.perGpu);
    assert back.Keys == m.perGpu.Keys;
    forall g | g in m.perGpu ensures back[g] == m.perGpu[g] {
      DrawnAt(m.perGpu, alloc.perGpu, g);
    }
    assert back == m.perGpu;
  }

  /** A grant names as many GPUs as were asked for, each of which has what is taken from it. */
  lemma GrantIsCovered(m: Gpus, req: GpuRequest, createSnapshot: bool)
    requires AllocAsserts(m, req, createSnapshot) && Choice(m, req, createSnapshot).Some?
    ensures var grant := Grant(m, req, createSnapshot);
            && |grant.perGpu| == req.gpuCount
            && grant.perGpu.Keys <= m.perGpu.Keys
            && (forall g :: g in grant.perGpu ==>
                  && m.perGpu[g].AtLeast(grant.perGpu[g])
                  && grant.perGpu[g] == Demand(m.slotSize, req, createSnapshot))
  {
    if req.gpuCount > 0 {
      ChoiceIsGreedyAndComplete(m, req, createSnapshot);
      var ids := Choice(m, req, createSnapshot).value;
      assert Grant(m, req, createSnapshot).perGpu.Keys == set g | g in ids;
      DistinctSize(ids);
    }
  }

  lemma CoveredStaysNonNegative(m: Gpus, alloc: Gpus)
    requires alloc.perGpu.Keys <= m.perGpu.Keys && forall g :: g in alloc.perGpu ==> m.perGpu[g].AtLeast(alloc.perGpu[g])
    requires m.NonNegative()
    ensures Reserved(m, alloc).NonNegative()
  {
  }

  /** The assertions `Sub` makes about a grant hold unless the context count, cast to a signed integer, is negative. */
  lemma GrantIsReservableIff(m: Gpus, req: GpuRequest, createSnapshot: bool)
    requires AllocAsserts(m, req, createSnapshot) && Choice(m, req, createSnapshot).Some?
    ensures SubAsserts(m, Grant(m, req, createSnapshot)) <==> req.gpuCount == 0 || req.contextCount < U64_SIZE / 2
  {
    var grant := Grant(m, req, createSnapshot);
    GrantIsCovered(m, req, createSnapshot);
    if req.gpuCount > 0 {
      var ids := Choice(m, req, createSnapshot).value;
      ChoiceIsGreedyAndComplete(m, req, createSnapshot);
      var first := ids[0];
      assert first in ids;
      assert first in grant.perGpu;
    }
  }

  /** A grant only names GPUs of the ledger, never drives one of them negative, and can be freed again. */
  lemma GrantIsBacked(m: Gpus, req: GpuRequest, createSnapshot: bool)
    requires AllocAsserts(m, req, createSnapshot) && Choice(m, req, createSnapshot).Some?
    ensures var grant := Grant(m, req, createSnapshot);
            && |grant.perGpu| == req.gpuCount
            && grant.perGpu.Keys <= m.perGpu.Keys
            && (forall g :: g in grant.perGpu ==> m.perGpu[g].AtLeast(grant.perGpu[g]))
            && (m.NonNegative() ==> Reserved(m, grant).NonNegative())
            && Freed(Reserved(m, grant), grant) == m
  {
    var grant := Grant(m, req, createSnapshot);
    GrantIsCovered(m, req, createSnapshot);
    if m.NonNegative() {
      CoveredStaysNonNegative(m, grant);
    }
    FreedUndoesReserved(m, grant);
  }

  lemma {:induction false} DistinctSize(ids: seq<int>)
    requires Ascending.Increasing(ids)
    ensures |set g | g in ids| == |ids|
  {
    if ids != [] {
      var last := |ids| - 1;
      DistinctSize(ids[..last]);
      assert (set g | g in ids) == (set g | g in ids[..last]) + {ids[last]} by {
        assert ids == ids[..last] + [ids[last]];
      }
    }
  }

  // ----- grants and refusals in terms of the request

  /** Whether a multi-GPU or snapshot-creating request takes nccl. */
  predicate TakesNccl(req: GpuRequest, createSnapshot: bool) {
    createSnapshot || req.gpuCount > 1
  }

  /**
   For a request in range, every GPU of a grant holds the exact number of slots its memory needs,
   the contexts asked for, and nccl exactly for a snapshot or several GPUs.
   */
  lemma GrantMeetsRequest(m: Gpus, req: GpuRequest, createSnapshot: bool)
    requires req.gpuCount > 0 && 0 < m.slotSize < U64_SIZE && InRange(m.slotSize, req.vRam)
    requires AllocAsserts(m, req, createSnapshot) && Choice(m, req, createSnapshot).Some?
    ensures var grant := Grant(m, req, createSnapshot);
            && |grant.perGpu| == req.gpuCount && grant.slotSize == m.slotSize && grant.totalSlotCnt == m.totalSlotCnt
            && forall g :: g in grant.perGpu ==>
                 && IsCeiling(grant.perGpu[g].slotCnt, req.vRam * MIB, m.slotSize)
                 && grant.perGpu[g].contextCnt == AsI64(req.contextCount)
                 && grant.perGpu[g].ncclCnt == if TakesNccl(req, createSnapshot) then 1 else 0
  {
    GrantIsCovered(m, req, createSnapshot);
    ReqSlotCntIsCeilingIff(m.slotSize, req.vRam);
  }

  /** The GPU has the memory in free slots, the contexts and the nccl capacity for one part of the request. */
  predicate Suits(a: GpuAlloc, slotSize: int, req: GpuRequest, createSnapshot: bool) {
    && a.slotCnt * slotSize >= req.vRam * MIB
    && a.contextCnt >= AsI64(req.contextCount)
    && (TakesNccl(req, createSnapshot) ==> a.ncclCnt >= 1)
    && (!TakesNccl(req, createSnapshot) ==> a.ncclCnt >= 0)
  }

  function Suitable(m: Gpus, req: GpuRequest, createSnapshot: bool): set<int> {
    set g | g in m.perGpu && Suits(m.perGpu[g], m.slotSize, req, createSnapshot)
  }

  lemma EligibleIsSuitable(m: Gpus, req: GpuRequest, createSnapshot: bool)
    requires 0 < m.slotSize < U64_SIZE && InRange(m.slotSize, req.vRam)
    ensures Eligible(m, Demand(m.slotSize, req, createSnapshot)) == Suitable(m, req, createSnapshot)
  {
    var n := ReqSlotCnt(m.slotSize, req.vRam);
    ReqSlotCntIsCeilingIff(m.slotSize, req.vRam);
    forall g | g in m.perGpu
      ensures g in Eligible(m, Demand(m.slotSize, req, createSnapshot)) <==> g in Suitable(m, req, createSnapshot)
    {
      CeilingCovers(n, req.vRam * MIB, m.slotSize, m.perGpu[g].slotCnt);
    }
  }

  /** For a request in range: refused exactly when too few GPUs suit it, else given the lowest that do. */
  lemma RefusedIffTooFewSuit(m: Gpus, req: GpuRequest, createSnapshot: bool)
    requires req.gpuCount > 0 && 0 < m.slotSize < U64_SIZE && InRange(m.slotSize, req.vRam)
    ensures match Choice(m, req, createSnapshot)
            case None => |Suitable(m, req, createSnapshot)| < req.gpuCount
            case Some(ids) => |Suitable(m, req, createSnapshot)| >= req.gpuCount
                              && IsLowest(ids, Suitable(m, req, createSnapshot), req.gpuCount)
  {
    EligibleIsSuitable(m, req, createSnapshot);
    ChoiceIsGreedyAndComplete(m, req, createSnapshot);
  }

  /** A request for 14000 MB of 256 MiB slots takes 55 of them, and is refused by a GPU with 10. */
  lemma FiftyFiveSlots()
    ensures var req := GpuRequest(1, 14000, 1);
            && Choice(Gpus(100, map[0 := GpuAlloc(2, 10, 1)], 256 * MIB), req, false) == None
            && ReqSlotCnt(256 * MIB, 14000) == 55
  {
    var req := GpuRequest(1, 14000, 1);
    var m := Gpus(100, map[0 := GpuAlloc(2, 10, 1)], 256 * MIB);
    var x := 14000 * MIB + 256 * MIB - 1;
    QuotientIs(x, 256 * MIB, 55);
    assert InRange(256 * MIB, 14000);
    UnwrappedIsTruncated(256 * MIB, 14000);
    assert Suitable(m, req, false) == {};
    RefusedIffTooFewSuit(m, req, false);
  }

  /** What freeing leaves behind: amounts add up, capacity stays, and a slot size is adopted only if none was set. */
  lemma FreedMeaning(m: Gpus, free: Gpus, g: int)
    ensures var f := Freed(m, free);
            && f.totalSlotCnt == m.totalSlotCnt
            && (m.slotSize != 0 ==> f.slotSize == m.slotSize) && (m.slotSize == 0 ==> f.slotSize == free.slotSize)
            && (g in f.perGpu <==> g in m.perGpu || g in free.perGpu)
            && (g in f.perGpu && g !in m.perGpu ==> f.perGpu[g] == free.perGpu[g])
            && (g in f.perGpu && g !in free.perGpu ==> f.perGpu[g] == m.perGpu[g])
            && (g in m.perGpu && g in free.perGpu ==>
                  && f.perGpu[g].slotCnt == m.perGpu[g].slotCnt + free.perGpu[g].slotCnt
                  && f.perGpu[g].contextCnt == m.perGpu[g].contextCnt + free.perGpu[g].contextCnt
                  && f.perGpu[g].ncclCnt == m.perGpu[g].ncclCnt + free.perGpu[g].ncclCnt)
  {
  }

  lemma FreeingGrowsEligible(m: Gpus, free: Gpus, need: GpuAlloc)
    requires free.NonNegative()
    ensures Eligible(m, need) <= Eligible(Freed(m, free), need)
  {
    var after := Freed(m, free).perGpu;
    forall g | g in Eligible(m, need) ensures g in Eligible(Freed(m, free), need) {
      assert g in after && after[g].AtLeast(m.perGpu[g]);
    }
  }

  /** Freeing anything non-negative never turns an allocable request into a refused one. */
  lemma FreeingKeepsAllocable(m: Gpus, free: Gpus, req: GpuRequest, createSnapshot: bool)
    requires free.NonNegative() && (req.gpuCount == 0 || m.slotSize > 0)
    ensures Choice(m, req, createSnapshot).Some? ==> Choice(Freed(m, free), req, createSnapshot).Some?
  {
    if req.gpuCount > 0 {
      var need := Demand(m.slotSize, req, createSnapshot);
      FreeingGrowsEligible(m, free, need);
      var before, after := Eligible(m, need), Eligible(Freed(m, free), need);
      SubsetSize(before, after);
      Ascending.IdsOrdered(before);
      Ascending.IdsOrdered(after);
    }
  }

  // ----- what the loops of the ledger object compute, one GPU at a time

  function AddEach(m: map<int, GpuAlloc>, free: map<int, GpuAlloc>, ids: seq<int>): map<int, GpuAlloc>
    decreases ids
  {
    if ids == [] then m else
      AddEach(m[ids[0] := Amount(m, ids[0]).Plus(Amount(free, ids[0]))], free, ids[1..])
  }

  function SubEach(m: map<int, GpuAlloc>, alloc: map<int, GpuAlloc>, ids: seq<int>): map<int, GpuAlloc>
    decreases ids
  {
    if ids == [] then m else
      SubEach(m[ids[0] := Amount(m, ids[0]).Minus(Amount(alloc, ids[0]))], alloc, ids[1..])
  }

  function KeepEligible(m: map<int, GpuAlloc>, need: GpuAlloc, ids: seq<int>): seq<int> {
    if ids == [] then [] else
      (if Amount(m, ids[0]).AtLeast(need) then [ids[0]] else []) + KeepEligible(m, need, ids[1..])
  }

  lemma {:induction false} AddEachPointwise(m: map<int, GpuAlloc>, free: map<int, GpuAlloc>, ids: seq<int>, g: int)
    requires Ascending.Increasing(ids)
    ensures g in AddEach(m, free, ids) <==> g in m || g in ids
    ensures Amount(AddEach(m, free, ids), g) ==
            if g in ids then Amount(m, g).Plus(Amount(free, g)) else Amount(m, g)
    decreases ids
  {
    if ids != [] {
      Ascending.TailMembers(ids, g);
      AddEachPointwise(m[ids[0] := Amount(m, ids[0]).Plus(Amount(free, ids[0]))], free, ids[1..], g);
    }
  }

  lemma {:induction false} SubEachPointwise(m: map<int, GpuAlloc>, alloc: map<int, GpuAlloc>, ids: seq<int>, g: int)
    requires Ascending.Increasing(ids)
    ensures g in SubEach(m, alloc, ids) <==> g in m || g in ids
    ensures Amount(SubEach(m, alloc, ids), g) ==
            if g in ids then Amount(m, g).Minus(Amount(alloc, g)) else Amount(m, g)
    decreases ids
  {
    if ids != [] {
      Ascending.TailMembers(ids, g);
      SubEachPointwise(m[ids[0] := Amount(m, ids[0]).Minus(Amount(alloc, ids[0]))], alloc, ids[1..], g);
    }
  }

  lemma {:induction false} KeepEligibleMembers(m: map<int, GpuAlloc>, need: GpuAlloc, ids: seq<int>)
    requires Ascending.Increasing(ids)
    ensures Ascending.Increasing(KeepEligible(m, need, ids))
    ensures forall g :: g in KeepEligible(m, need, ids) <==> g in ids && Amount(m, g).AtLeast(need)
  {
    if ids != [] {
      var k := ids[0];
      var rest := KeepEligible(m, need, ids[1..]);
      KeepEligibleMembers(m, need, ids[1..]);
      assert KeepEligible(m, need, ids) == (if Amount(m, k).AtLeast(need) then [k] else []) + rest;
      forall g ensures g in KeepEligible(m, need, ids) <==> g in ids && Amount(m, g).AtLeast(need) {
        Ascending.TailMembers(ids, g);
      }
      forall j | 0 <= j < |rest| ensures k < rest[j] {
        assert rest[j] in rest;
        Ascending.TailMembers(ids, rest[j]);
      }
    }
  }

  /** Every runtime assertion of the freeing loop holds when the loop reaches it. */
  ghost predicate AddChecks(m: map<int, GpuAlloc>, free: map<int, GpuAlloc>, ids: seq<int>, total: int)
    decreases ids
  {
    ids == [] ||
    (var g := ids[0];
     && Amount(free, g).NonNegative()
     && (g in m ==> m[g].slotCnt + Amount(free, g).slotCnt <= total)
     && AddChecks(m[g := Amount(m, g).Plus(Amount(free, g))], free, ids[1..], total))
  }

  lemma {:induction false} AddChecksHold(m: map<int, GpuAlloc>, free: map<int, GpuAlloc>, ids: seq<int>, total: int)
    requires Ascending.Increasing(ids)
    requires forall g :: g in ids ==> Amount(free, g).NonNegative()
    requires forall g :: g in ids && g in m ==> m[g].slotCnt + Amount(free, g).slotCnt <= total
    ensures AddChecks(m, free, ids, total)
    decreases ids
  {
    if ids != [] {
      var k := ids[0];
      assert k in ids;
      forall g | g in ids[1..] ensures g in ids && g != k {
        Ascending.TailMembers(ids, g);
      }
      AddChecksHold(m[k := Amount(m, k).Plus(Amount(free, k))], free, ids[1..], total);
    }
  }

  lemma AddEachIsFreed(m: Gpus, free: Gpus, ids: seq<int>)
    requires Ascending.Increasing(ids) && (forall g :: g in ids <==> g in free.perGpu)
    ensures AddEach(m.perGpu, free.perGpu, ids) == Freed(m, free).perGpu
  {
    var each := AddEach(m.perGpu, free.perGpu, ids);
    var goal := Freed(m, free).perGpu;
    forall g ensures g in each <==> g in goal
      ensures g in goal ==> each[g] == goal[g]
    {
      AddEachPointwise(m.perGpu, free.perGpu, ids, g);
    }
  }

  lemma AddEachSortedIsFreed(m: Gpus, free: Gpus)
    ensures AddEach(m.perGpu, free.perGpu, Ascending.Ids(free.perGpu.Keys)) == Freed(m, free).perGpu
  {
    Ascending.IdsOrdered(free.perGpu.Keys);
    AddEachIsFreed(m, free, Ascending.Ids(free.perGpu.Keys));
  }

  lemma AddAssertsAreChecked(m: Gpus, free: Gpus)
    requires AddAsserts(m, free)
    ensures AddChecks(m.perGpu, free.perGpu, Ascending.Ids(free.perGpu.Keys), m.totalSlotCnt)
  {
    Ascending.IdsOrdered(free.perGpu.Keys);
    AddChecksHold(m.perGpu, free.perGpu, Ascending.Ids(free.perGpu.Keys), m.totalSlotCnt);
  }

  lemma SubEachIsReserved(m: Gpus, alloc: Gpus, ids: seq<int>)
    requires Ascending.Increasing(ids) && (forall g :: g in ids <==> g in alloc.perGpu)
    requires alloc.perGpu.Keys <= m.perGpu.Keys
    ensures SubEach(m.perGpu, alloc.perGpu, ids) == Reserved(m, alloc).perGpu
  {
    var each := SubEach(m.perGpu, alloc.perGpu, ids);
    var goal := Reserved(m, alloc).perGpu;
    forall g ensures g in each <==> g in goal
      ensures g in goal ==> each[g] == goal[g]
    {
      SubEachPointwise(m.perGpu, alloc.perGpu, ids, g);
    }
  }

  lemma SubEachSortedIsReserved(m: Gpus, alloc: Gpus)
    requires alloc.perGpu.Keys <= m.perGpu.Keys
    ensures SubEach(m.perGpu, alloc.perGpu, Ascending.Ids(alloc.perGpu.Keys)) == Reserved(m, alloc).perGpu
  {
    Ascending.IdsOrdered(alloc.perGpu.Keys);
    SubEachIsReserved(m, alloc, Ascending.Ids(alloc.perGpu.Keys));
  }

  lemma KeepEligibleIsAll(m: Gpus, need: GpuAlloc)
    ensures KeepEligible(m.perGpu, need, Ascending.Ids(m.perGpu.Keys)) == Ascending.Ids(Eligible(m, need))
  {
    var ids := Ascending.Ids(m.perGpu.Keys);
    Ascending.IdsOrdered(m.perGpu.Keys);
    Ascending.IdsOrdered(Eligible(m, need));
    KeepEligibleMembers(m.perGpu, need, ids);
    Ascending.IncreasingUnique(KeepEligible(m.perGpu, need, ids), Ascending.Ids(Eligible(m, need)));
  }

  // ----- the ledger object

  class GpuResourceMap {
    var totalSlotCnt: int
    var gpus: map<int, GpuAlloc>
    var slotSize: int

    constructor (initial: Gpus)
      ensures Value() == initial
    {
      totalSlotCnt, gpus, slotSize := initial.totalSlotCnt, initial.perGpu, initial.slotSize;
    }

    function Value(): Gpus
      reads this
    {
      Gpus(totalSlotCnt, gpus, slotSize)
    }

    /** One entry of the loop in `Add`: insert an unknown GPU, top up a known one. */
    method Credit(g: int, resource: GpuAlloc)
      requires g in gpus ==> gpus[g].slotCnt + resource.slotCnt <= totalSlotCnt
      modifies this`gpus
      ensures gpus == old(gpus)[g := Amount(old(gpus), g).Plus(resource)]
    {
      if g !in gpus {
        gpus := gpus[g := resource];
      } else {
        gpus := gpus[g := gpus[g].Plus(resource)];
      }
    }

    method Add(free: Gpus)
      requires AddAsserts(Value(), free)
      modifies this
      ensures Value() == Freed(old(Value()), free)
    {
      ghost var before := Value();
      AddAssertsAreChecked(before, free);
      if slotSize == 0 {
        slotSize := free.slotSize;
      }
      var ids := Ascending.Ids(free.perGpu.Keys);
      for i := 0 to |ids|
        modifies this`gpus
        invariant AddEach(gpus, free.perGpu, ids[i..]) == AddEach(before.perGpu, free.perGpu, ids)
        invariant AddChecks(gpus, free.perGpu, ids[i..], totalSlotCnt)
      {
        var g := ids[i];
        Ascending.IdAt(free.perGpu.Keys, i);
        assert ids[i..][1..] == ids[i + 1..];
        var resource := free.perGpu[g];
        assert resource.slotCnt >= 0 && resource.contextCnt >= 0 && resource.ncclCnt >= 0;
        Credit(g, resource);
      }
      AddEachSortedIsFreed(before, free);
    }

    method Sub(alloc: Gpus)
      requires SubAsserts(Value(), alloc)
      modifies this`gpus
      ensures Value() == Reserved(old(Value()), alloc)
    {
      ghost var before := Value();
      SubEachSortedIsReserved(before, alloc);
      var ids := Ascending.Ids(alloc.perGpu.Keys);
      for i := 0 to |ids|
        invariant gpus.Keys == before.perGpu.Keys
        invariant SubEach(gpus, alloc.perGpu, ids[i..]) == SubEach(before.perGpu, alloc.perGpu, ids)
      {
        var g := ids[i];
        Ascending.IdAt(alloc.perGpu.Keys, i);
        assert ids[i..][1..] == ids[i + 1..];
        var resource := alloc.perGpu[g];
        assert resource.slotCnt >= 0 && resource.contextCnt >= 0 && resource.ncclCnt >= 0;
        gpus := gpus[g := gpus[g].Minus(resource)];
      }
    }

    /** The scan of `CanAlloc`: walk the GPUs upwards and stop once `count` of them fit. */
    method Scan(need: GpuAlloc, count: nat) returns (r: Option<seq<int>>)
      requires count > 0
      ensures r == Lowest(Eligible(Value(), need), count)
    {
      var cnt := count;
      var chosen: seq<int> := [];
      var ids := Ascending.Ids(gpus.Keys);
      ghost var fit := KeepEligible(gpus, need, ids);
      for i := 0 to |ids|
        invariant cnt > 0 && |chosen| + cnt == count
        invariant chosen + KeepEligible(gpus, need, ids[i..]) == fit
      {
        var g := ids[i];
        Ascending.IdAt(gpus.Keys, i);
        assert ids[i..][1..] == ids[i + 1..];
        var resource := gpus[g];
        if resource.contextCnt < need.contextCnt {
          continue;
        }
        if resource.ncclCnt < need.ncclCnt {
          continue;
        }
        if resource.slotCnt >= need.slotCnt {
          cnt := cnt - 1;
          chosen := chosen + [g];
          if cnt == 0 {
            assert fit[..|chosen|] == chosen;
            KeepEligibleIsAll(Value(), need);
            return Some(chosen);
          }
        }
      }
      KeepEligibleIsAll(Value(), need);
      return None;
    }

    method CanAlloc(req: GpuRequest, createSnapshot: bool) returns (r: Option<seq<int>>)
      requires req.gpuCount == 0 || slotSize > 0
      ensures r == Choice(Value(), req, createSnapshot)
    {
      var cnt := req.gpuCount;
      if cnt == 0 {
        return Some([]);
      }
      var ncclCnt := if createSnapshot then 1 else if cnt < 2 then 0 else 1;
      var reqSlotCnt := ReqSlotCnt(slotSize, req.vRam);
      r := Scan(GpuAlloc(AsI64(req.contextCount), reqSlotCnt, ncclCnt), cnt);
    }

    /** The deduction loop of `Alloc`: take `need` from each chosen GPU and record it. */
    method Deduct(ids: seq<int>, need: GpuAlloc) returns (granted: map<int, GpuAlloc>)
      requires forall g :: g in ids ==> g in gpus
      modifies this`gpus
      ensures granted == map g | g in ids :: need
      ensures gpus == SubEach(old(gpus), granted, ids)
    {
      ghost var before := gpus;
      ghost var alloc := map g | g in ids :: need;
      granted := map[];
      for i := 0 to |ids|
        invariant gpus.Keys == before.Keys
        invariant SubEach(gpus, alloc, ids[i..]) == SubEach(before, alloc, ids)
        invariant granted == map g | g in ids[..i] :: need
      {
        var g := ids[i];
        assert g in ids;
        assert ids[i..][1..] == ids[i + 1..];
        assert ids[..i + 1] == ids[..i] + [g];
        gpus := gpus[g := gpus[g].Minus(need)];
        granted := granted[g := need];
      }
      assert ids[..|ids|] == ids;
    }

    method Alloc(req: GpuRequest, createSnapshot: bool) returns (r: Result<Gpus>)
      requires AllocAsserts(Value(), req, createSnapshot)
      modifies this`gpus
      ensures match Choice(old(Value()), req, createSnapshot)
              case None => r == Err && Value() == old(Value())
              case Some(_) =>
                && r == Ok(Grant(old(Value()), req, createSnapshot))
                && Value() == Reserved(old(Value()), r.value)
    {
      var choice := CanAlloc(req, createSnapshot);
      if choice == None {
        return Err;
      }
      var count := req.gpuCount;
      if count == 0 {
        assert gpus == Reserved(Value(), Grant(Value(), req, createSnapshot)).perGpu;
        return Ok(Gpus(totalSlotCnt, map[], slotSize));
      }
      var ncclCnt := if createSnapshot then 1 else if count == 1 then 0 else 1;
      var slotCnt := ReqSlotCnt(slotSize, req.vRam);
      assert slotCnt > 0;
      ChoiceIsGreedyAndComplete(Value(), req, createSnapshot);
      SubEachIsReserved(Value(), Grant(Value(), req, createSnapshot), choice.value);
      var granted := Deduct(choice.value, GpuAlloc(AsI64(req.contextCount), slotCnt, ncclCnt));
      r := Ok(Gpus(totalSlotCnt, granted, slotSize));
    }
  }
}
