/**
 A node's available resources, and every run of the three operations the
 scheduler performs on them: allocate, reserve what a pod already uses, release.
 */
module NodeLedger {
  import opened Common
  import opened SlotArithmetic
  import opened GpuLedger

  datatype Node = Node(nodename: string, cpu: int, memory: int, cacheMemory: int, gpuType: string,
                       gpus: Gpus, maxContextCnt: int)

  datatype Resources = Resources(cpu: u64, memory: u64, cacheMemory: u64, gpuType: string, gpu: GpuRequest)

  predicate TypeMatches(have: string, want: string) {
    want == "Any" || have == want
  }

  /** `CanAlloc` divides by the slot size as soon as a GPU is asked for. */
  predicate Divides(n: Node, req: Resources) {
    req.gpu.gpuCount == 0 || n.gpus.slotSize > 0
  }

  /** All five checks of the allocation state. */
  predicate Admits(n: Node, req: Resources, createSnapshot: bool)
    requires Divides(n, req)
  {
    && n.cpu >= AsI64(req.cpu)
    && n.memory >= AsI64(req.memory)
    && n.cacheMemory >= AsI64(req.cacheMemory)
    && TypeMatches(n.gpuType, req.gpuType)
    && Choice(n.gpus, req.gpu, createSnapshot).Some?
  }

  predicate AllocAllowed(n: Node, req: Resources, createSnapshot: bool) {
    Divides(n, req) && (Admits(n, req, createSnapshot) ==> AllocAsserts(n.gpus, req.gpu, createSnapshot))
  }

  function Granted(n: Node, req: Resources, createSnapshot: bool): Node
    requires Divides(n, req) && Admits(n, req, createSnapshot)
  {
    Node(n.nodename, AsI64(req.cpu), AsI64(req.memory), AsI64(req.cacheMemory), n.gpuType,
         Grant(n.gpus, req.gpu, createSnapshot), n.maxContextCnt)
  }

  /** `Sub`: cpu is deliberately left alone. */
  function Less(n: Node, other: Node): Node {
    Node(n.nodename, n.cpu, n.memory - other.memory, n.cacheMemory - other.cacheMemory, n.gpuType,
         Reserved(n.gpus, other.gpus), n.maxContextCnt)
  }

  /** `Add`: cpu is deliberately left alone. */
  function More(n: Node, free: Node): Node {
    Node(n.nodename, n.cpu, n.memory + free.memory, n.cacheMemory + free.cacheMemory, n.gpuType,
         Freed(n.gpus, free.gpus), n.maxContextCnt)
  }

  class NodeResources {
    const nodename: string
    const gpuType: string
    const maxContextCnt: int
    const gpus: GpuResourceMap
    var cpu: int
    var memory: int
    var cacheMemory: int

    constructor (n: Node)
      ensures Value() == n && fresh(gpus)
    {
      nodename, gpuType, maxContextCnt := n.nodename, n.gpuType, n.maxContextCnt;
      cpu, memory, cacheMemory := n.cpu, n.memory, n.cacheMemory;
      gpus := new GpuResourceMap(n.gpus);
    }

    function Value(): Node
      reads this, gpus
    {
      Node(nodename, cpu, memory, cacheMemory, gpuType, gpus.Value(), maxContextCnt)
    }

    method Sub(other: Node)
      requires SubAsserts(gpus.Value(), other.gpus)
      modifies this, gpus
      ensures Value() == Less(old(Value()), other)
    {
      memory := memory - other.memory;
      cacheMemory := cacheMemory - other.cacheMemory;
      gpus.Sub(other.gpus);
    }

    method Add(free: Node)
      requires gpuType == free.gpuType && AddAsserts(gpus.Value(), free.gpus)
      modifies this, gpus
      ensures Value() == More(old(Value()), free)
    {
      gpus.Add(free.gpus);
      memory := memory + free.memory;
      cacheMemory := cacheMemory + free.cacheMemory;
    }

    method CanAlloc(req: Resources, createSnapshot: bool) returns (ok: bool)
      requires Divides(Value(), req)
      ensures ok == Admits(Value(), req, createSnapshot)
    {
      var choice := gpus.CanAlloc(req.gpu, createSnapshot);
      ok := cpu >= AsI64(req.cpu) && memory >= AsI64(req.memory) && cacheMemory >= AsI64(req.cacheMemory)
            && TypeMatches(gpuType, req.gpuType) && choice.Some?;
    }

    /**
     The memory is taken before the GPUs are; the GPU allocation cannot fail any more
     by then, so a refusal leaves the node exactly as it was.
     */
    method Alloc(req: Resources, createSnapshot: bool) returns (r: Result<Node>)
      requires AllocAllowed(Value(), req, createSnapshot)
      modifies this, gpus
      ensures if Admits(old(Value()), req, createSnapshot)
              then r == Ok(Granted(old(Value()), req, createSnapshot)) && Value() == Less(old(Value()), r.value)
              else r == Err && Value() == old(Value())
    {
      var ok := CanAlloc(req, createSnapshot);
      if !ok {
        return Err;
      }
      memory := memory - AsI64(req.memory);
      cacheMemory := cacheMemory - AsI64(req.cacheMemory);
      var g := gpus.Alloc(req.gpu, createSnapshot);
      if g.Err? {
        return Err;
      }
      r := Ok(Node(nodename, AsI64(req.cpu), AsI64(req.memory), AsI64(req.cacheMemory), gpuType, g.value, maxContextCnt));
    }
  }

  // ----- runs

  /** Something taken and not yet given back; exclusive when it was to own its GPUs. */
  datatype Lease = Lease(held: Node, exclusive: bool)

  datatype State = State(node: Node, leases: seq<Lease>)

  datatype Op =
    | Allocate(req: Resources, createSnapshot: bool)
    | Reserve(other: Node)
    | Release(index: nat)

  datatype Outcome = Panic | Next(state: State)

  function Without<T>(s: seq<T>, i: nat): seq<T>
    requires i < |s|
  {
    s[..i] + s[i + 1..]
  }

  /** One operation, with every failed runtime assertion as `Panic`. */
  function Step(s: State, op: Op): Outcome
    requires op.Release? ==> op.index < |s.leases|
  {
    match op
    case Allocate(req, createSnapshot) =>
      if !AllocAllowed(s.node, req, createSnapshot) then Panic
      else if !Admits(s.node, req, createSnapshot) then Next(s)
      else
        var granted := Granted(s.node, req, createSnapshot);
        Next(State(Less(s.node, granted),
                   s.leases + [Lease(granted, createSnapshot || req.gpu.gpuCount >= 2)]))
    case Reserve(other) =>
      if !SubAsserts(s.node.gpus, other.gpus) then Panic
      else Next(State(Less(s.node, other), s.leases + [Lease(other, false)]))
    case Release(i) =>
      var free := s.leases[i].held;
      if s.node.gpuType != free.gpuType || !AddAsserts(s.node.gpus, free.gpus) then Panic
      else Next(State(More(s.node, free), Without(s.leases, i)))
  }

  /** What the scheduler owes: requests for at least one slot, reservations of known GPUs, releases of live leases. */
  predicate Legal(s: State, op: Op) {
    match op
    case Allocate(req, _) =>
      req.gpu.gpuCount == 0 ||
      (&& s.node.gpus.slotSize > 0 && ReqSlotCnt(s.node.gpus.slotSize, req.gpu.vRam) > 0
       && req.gpu.contextCount < U64_SIZE / 2)
    case Reserve(other) => SubAsserts(s.node.gpus, other.gpus)
    case Release(i) => i < |s.leases| && s.leases[i].held.gpuType == s.node.gpuType
  }

  function Run(s: State, ops: seq<Op>): Outcome
    requires LegalRun(s, ops)
    decreases ops
  {
    if ops == [] then Next(s)
    else match Step(s, ops[0])
      case Panic => Panic
      case Next(t) => Run(t, ops[1..])
  }

  predicate LegalRun(s: State, ops: seq<Op>)
    decreases ops
  {
    ops == [] ||
    (Legal(s, ops[0]) && (Step(s, ops[0]).Next? ==> LegalRun(Step(s, ops[0]).state, ops[1..])))
  }

  // ----- conservation

  /** What leases hold of one GPU and of the node's memory. */
  datatype Totals = Totals(contextCnt: int, slotCnt: int, ncclCnt: int, memory: int, cacheMemory: int) {
    function Plus(o: Totals): Totals {
      Totals(contextCnt + o.contextCnt, slotCnt + o.slotCnt, ncclCnt + o.ncclCnt, memory + o.memory, cacheMemory + o.cacheMemory)
    }

    predicate Covers(a: GpuAlloc) {
      contextCnt >= a.contextCnt && slotCnt >= a.slotCnt && ncclCnt >= a.ncclCnt
    }
  }

  function Holding(n: Node, g: int): Totals {
    var a := Amount(n.gpus.perGpu, g);
    Totals(a.contextCnt, a.slotCnt, a.ncclCnt, n.memory, n.cacheMemory)
  }

  function Held(leases: seq<Lease>, g: int): Totals {
    if leases == [] then Totals(0, 0, 0, 0, 0)
    else Held(leases[..|leases| - 1], g).Plus(Holding(leases[|leases| - 1].held, g))
  }

  /** A lease only names GPUs of the node, holds non-negative amounts, and was cut in the node's slot size. */
  predicate Backed(init: Node, held: Node) {
    && held.gpus.perGpu.Keys <= init.gpus.perGpu.Keys
    && held.gpus.NonNegative()
    && (held.gpus.slotSize == 0 || held.gpus.slotSize == init.gpus.slotSize)
  }

  predicate SameNode(init: Node, n: Node) {
    && n.nodename == init.nodename && n.cpu == init.cpu && n.gpuType == init.gpuType
    && n.maxContextCnt == init.maxContextCnt
    && n.gpus.totalSlotCnt == init.gpus.totalSlotCnt && n.gpus.slotSize == init.gpus.slotSize
    && n.gpus.perGpu.Keys == init.gpus.perGpu.Keys
  }

  predicate Balanced(init: Node, s: State, g: int) {
    Holding(s.node, g).Plus(Held(s.leases, g)) == Holding(init, g)
  }

  predicate AllBacked(init: Node, leases: seq<Lease>) {
    forall i :: 0 <= i < |leases| ==> Backed(init, leases[i].held)
  }

  /** Available plus leased is what the node started with, for every counter. */
  ghost predicate Conserved(init: Node, s: State) {
    && SameNode(init, s.node)
    && AllBacked(init, s.leases)
    && (forall g :: Balanced(init, s, g))
  }

  ghost predicate WithinCapacity(init: Node) {
    forall g :: g in init.gpus.perGpu ==> init.gpus.perGpu[g].slotCnt <= init.gpus.totalSlotCnt
  }

  lemma HeldAppend(leases: seq<Lease>, l: Lease, g: int)
    ensures Held(leases + [l], g) == Held(leases, g).Plus(Holding(l.held, g))
  {
    assert (leases + [l])[..|leases|] == leases;
  }

  lemma {:induction false} HeldWithout(leases: seq<Lease>, i: nat, g: int)
    requires i < |leases|
    ensures Held(leases, g) == Held(Without(leases, i), g).Plus(Holding(leases[i].held, g))
  {
    var last := |leases| - 1;
    if i == last {
      assert Without(leases, i) == leases[..last];
    } else {
      HeldWithout(leases[..last], i, g);
      assert Without(leases, i) == Without(leases[..last], i) + [leases[last]];
      HeldAppend(Without(leases[..last], i), leases[last], g);
    }
  }

  lemma {:induction false} HeldAtLeast(init: Node, leases: seq<Lease>, i: nat, g: int)
    requires i < |leases| && AllBacked(init, leases)
    ensures Held(leases, g).Covers(Amount(leases[i].held.gpus.perGpu, g))
  {
    var last := |leases| - 1;
    assert Backed(init, leases[last].held);
    if i < last {
      HeldAtLeast(init, leases[..last], i, g);
    } else {
      HeldNonNegative(init, leases[..last], g);
    }
  }

  lemma {:induction false} HeldNonNegative(init: Node, leases: seq<Lease>, g: int)
    requires AllBacked(init, leases)
    ensures Held(leases, g).Covers(NOTHING)
  {
    if leases != [] {
      var last := |leases| - 1;
      assert Backed(init, leases[last].held);
      HeldNonNegative(init, leases[..last], g);
    }
  }

  lemma HoldingLess(n: Node, other: Node, g: int)
    requires other.gpus.perGpu.Keys <= n.gpus.perGpu.Keys
    ensures Holding(Less(n, other), g).Plus(Holding(other, g)) == Holding(n, g)
  {
    DrawnAt(n.gpus.perGpu, other.gpus.perGpu, g);
  }

  lemma HoldingMore(n: Node, free: Node, g: int)
    ensures Holding(More(n, free), g) == Holding(n, g).Plus(Holding(free, g))
  {
    var before, freed := n.gpus.perGpu, free.gpus.perGpu;
    assert More(n, free).gpus.perGpu == Topped(before, freed);
    ToppedCounters(before, freed, g);
  }

  /** Freeing adds up counter by counter. */
  lemma ToppedCounters(before: map<int, GpuAlloc>, freed: map<int, GpuAlloc>, g: int)
    ensures var a, b, c := Amount(Topped(before, freed), g), Amount(before, g), Amount(freed, g);
            && a.contextCnt == b.contextCnt + c.contextCnt
            && a.slotCnt == b.slotCnt + c.slotCnt
            && a.ncclCnt == b.ncclCnt + c.ncclCnt
  {
    ToppedAt(before, freed, g);
  }

  /** Moving `part` between what is available and what is held leaves the sum alone. */
  lemma MoveAcross(available: Totals, part: Totals, held: Totals)
    ensures available.Plus(part).Plus(held) == available.Plus(held.Plus(part))
  {
  }

  lemma TakingBalances(init: Node, s: State, l: Lease, g: int)
    requires Balanced(init, s, g) && l.held.gpus.perGpu.Keys <= s.node.gpus.perGpu.Keys
    ensures Balanced(init, State(Less(s.node, l.held), s.leases + [l]), g)
  {
    HeldAppend(s.leases, l, g);
    HoldingLess(s.node, l.held, g);
    MoveAcross(Holding(Less(s.node, l.held), g), Holding(l.held, g), Held(s.leases, g));
  }

  lemma TakingConserves(init: Node, s: State, l: Lease)
    requires Conserved(init, s) && SubAsserts(s.node.gpus, l.held.gpus)
    ensures Conserved(init, State(Less(s.node, l.held), s.leases + [l]))
  {
    var t := State(Less(s.node, l.held), s.leases + [l]);
    assert Backed(init, l.held);
    forall g ensures Balanced(init, t, g) {
      assert Balanced(init, s, g);
      TakingBalances(init, s, l, g);
    }
  }

  lemma ReleaseAsserts(init: Node, s: State, i: nat)
    requires WithinCapacity(init) && Conserved(init, s) && i < |s.leases|
    ensures AddAsserts(s.node.gpus, s.leases[i].held.gpus)
  {
    var free := s.leases[i].held.gpus;
    assert Backed(init, s.leases[i].held);
    forall g | g in free.perGpu ensures s.node.gpus.perGpu[g].slotCnt + free.perGpu[g].slotCnt <= s.node.gpus.totalSlotCnt {
      HeldAtLeast(init, s.leases, i, g);
      assert Balanced(init, s, g);
    }
  }

  lemma ReleasingBalances(init: Node, s: State, i: nat, g: int)
    requires Balanced(init, s, g) && i < |s.leases|
    ensures Balanced(init, State(More(s.node, s.leases[i].held), Without(s.leases, i)), g)
  {
    var free := s.leases[i].held;
    HeldWithout(s.leases, i, g);
    HoldingMore(s.node, free, g);
    MoveAcross(Holding(s.node, g), Holding(free, g), Held(Without(s.leases, i), g));
  }

  lemma BackedWithout(init: Node, leases: seq<Lease>, i: nat)
    requires AllBacked(init, leases) && i < |leases|
    ensures AllBacked(init, Without(leases, i))
  {
  }

  lemma ReleasingConserves(init: Node, s: State, i: nat)
    requires Conserved(init, s) && i < |s.leases|
    ensures Conserved(init, State(More(s.node, s.leases[i].held), Without(s.leases, i)))
  {
    var free := s.leases[i].held;
    var t := State(More(s.node, free), Without(s.leases, i));
    assert Backed(init, free);
    assert t.node.gpus.perGpu.Keys == init.gpus.perGpu.Keys;
    BackedWithout(init, s.leases, i);
    forall g ensures Balanced(init, t, g) {
      assert Balanced(init, s, g);
      ReleasingBalances(init, s, i, g);
    }
  }

  /** In any state a run can reach, releasing a lease trips an assertion exactly when the GPU types differ. */
  lemma ReleasePanicsIff(init: Node, s: State, i: nat)
    requires WithinCapacity(init) && Conserved(init, s) && i < |s.leases|
    ensures Step(s, Release(i)) == Panic <==> s.leases[i].held.gpuType != init.gpuType
  {
    ReleaseAsserts(init, s, i);
  }

  /** `Sub` does not look at the GPU type, so reserving a foreign type is accepted and its release then panics. */
  lemma ForeignReservationCannotBeReleased(init: Node, other: Node)
    requires WithinCapacity(init) && SubAsserts(init.gpus, other.gpus) && other.gpuType != init.gpuType
    ensures Step(State(init, []), Reserve(other)).Next?
    ensures Step(Step(State(init, []), Reserve(other)).state, Release(0)) == Panic
  {
    InitiallyConserved(init);
    StepConserves(init, State(init, []), Reserve(other));
    ReleasePanicsIff(init, Step(State(init, []), Reserve(other)).state, 0);
  }

  /** The GPUs that have what the request asks of each: slots, contexts and nccl. */
  function Fitting(n: Node, req: Resources, createSnapshot: bool): set<int>
    requires n.gpus.slotSize > 0
  {
    set g | g in n.gpus.perGpu
            && n.gpus.perGpu[g].slotCnt >= ReqSlotCnt(n.gpus.slotSize, req.gpu.vRam)
            && n.gpus.perGpu[g].contextCnt >= AsI64(req.gpu.contextCount)
            && n.gpus.perGpu[g].ncclCnt >= if createSnapshot || req.gpu.gpuCount > 1 then 1 else 0
  }

  lemma FittingIsEligible(n: Node, req: Resources, createSnapshot: bool)
    requires n.gpus.slotSize > 0
    ensures Fitting(n, req, createSnapshot) == Eligible(n.gpus, Demand(n.gpus.slotSize, req.gpu, createSnapshot))
  {
    var need := Demand(n.gpus.slotSize, req.gpu, createSnapshot);
    forall g ensures g in Fitting(n, req, createSnapshot) <==> g in Eligible(n.gpus, need) {
    }
  }

  /** For a request in range, these are the GPUs whose free slots cover the memory. */
  lemma FittingIsSuitable(n: Node, req: Resources, createSnapshot: bool)
    requires 0 < n.gpus.slotSize < U64_SIZE && InRange(n.gpus.slotSize, req.gpu.vRam)
    ensures Fitting(n, req, createSnapshot) == Suitable(n.gpus, req.gpu, createSnapshot)
  {
    FittingIsEligible(n, req, createSnapshot);
    EligibleIsSuitable(n.gpus, req.gpu, createSnapshot);
  }

  /**
   An allocation that does not panic adds a lease exactly when the GPU type is "Any" or the node's,
   cpu and both memories suffice, and enough GPUs fit; the lease holds what was asked for.
   Otherwise nothing changes.
   */
  lemma AllocateLeasesIff(s: State, req: Resources, createSnapshot: bool)
    requires req.gpu.gpuCount > 0 ==> s.node.gpus.slotSize > 0
    requires Step(s, Allocate(req, createSnapshot)).Next?
    ensures var t := Step(s, Allocate(req, createSnapshot)).state;
            if && (req.gpuType == "Any" || req.gpuType == s.node.gpuType)
               && s.node.cpu >= AsI64(req.cpu)
               && s.node.memory >= AsI64(req.memory)
               && s.node.cacheMemory >= AsI64(req.cacheMemory)
               && (req.gpu.gpuCount > 0 ==> |Fitting(s.node, req, createSnapshot)| >= req.gpu.gpuCount)
            then && |t.leases| == |s.leases| + 1 && t.leases[..|s.leases|] == s.leases
                 && Leased(s.node, t.node, t.leases[|s.leases|], req, createSnapshot)
            else t == s
  {
    if req.gpu.gpuCount > 0 {
      FittingIsEligible(s.node, req, createSnapshot);
      ChoiceIsGreedyAndComplete(s.node.gpus, req.gpu, createSnapshot);
    }
    if Admits(s.node, req, createSnapshot) {
      GrantIsCovered(s.node.gpus, req.gpu, createSnapshot);
    }
  }

  /** What a lease holds, and what the node has left, after a request was served. */
  ghost predicate Leased(before: Node, after: Node, l: Lease, req: Resources, createSnapshot: bool)
    requires req.gpu.gpuCount > 0 ==> before.gpus.slotSize > 0
  {
    && l.exclusive == (createSnapshot || req.gpu.gpuCount > 1)
    && l.held.nodename == before.nodename && l.held.gpuType == before.gpuType && l.held.maxContextCnt == before.maxContextCnt
    && l.held.cpu == AsI64(req.cpu) && l.held.memory == AsI64(req.memory) && l.held.cacheMemory == AsI64(req.cacheMemory)
    && |l.held.gpus.perGpu| == req.gpu.gpuCount
    && (forall g :: g in l.held.gpus.perGpu ==>
          && g in Fitting(before, req, createSnapshot)
          && l.held.gpus.perGpu[g].slotCnt == ReqSlotCnt(before.gpus.slotSize, req.gpu.vRam)
          && l.held.gpus.perGpu[g].contextCnt == AsI64(req.gpu.contextCount)
          && l.held.gpus.perGpu[g].ncclCnt == if createSnapshot || req.gpu.gpuCount > 1 then 1 else 0)
    && after.cpu == before.cpu
    && after.memory == before.memory - AsI64(req.memory) && after.cacheMemory == before.cacheMemory - AsI64(req.cacheMemory)
  }

  /** A node of one GPU type refuses a request for another. */
  lemma ForeignTypeIsRefused(s: State, req: Resources, createSnapshot: bool)
    requires req.gpuType != "Any" && req.gpuType != s.node.gpuType && (req.gpu.gpuCount > 0 ==> s.node.gpus.slotSize > 0)
    ensures Step(s, Allocate(req, createSnapshot)) == Next(s)
  {
    assert !Admits(s.node, req, createSnapshot);
    AllocateLeasesIff(s, req, createSnapshot);
  }

  /** A reservation trips an assertion exactly for another slot size, a negative amount or an unknown GPU. */
  lemma ReservePanicsIff(s: State, other: Node)
    ensures Step(s, Reserve(other)) == Panic <==>
            || (other.gpus.slotSize != 0 && other.gpus.slotSize != s.node.gpus.slotSize)
            || (exists g :: g in other.gpus.perGpu && g !in s.node.gpus.perGpu)
            || (exists g :: g in other.gpus.perGpu &&
                  (other.gpus.perGpu[g].slotCnt < 0 || other.gpus.perGpu[g].contextCnt < 0 || other.gpus.perGpu[g].ncclCnt < 0))
  {
    var a, m := other.gpus, s.node.gpus;
    if forall g :: g in a.perGpu ==> g in m.perGpu {
      assert a.perGpu.Keys <= m.perGpu.Keys;
    }
  }

  /** An allocation trips an assertion exactly when it asks for GPUs of an unsliced node, or is admitted for zero slots. */
  lemma AllocatePanicsIff(s: State, req: Resources, createSnapshot: bool)
    requires s.node.gpus.slotSize >= 0
    ensures Step(s, Allocate(req, createSnapshot)) == Panic <==>
            req.gpu.gpuCount > 0 &&
            (|| s.node.gpus.slotSize == 0
             || (Admits(s.node, req, createSnapshot) && ReqSlotCnt(s.node.gpus.slotSize, req.gpu.vRam) == 0))
  {
  }

  /** A node with one free GPU panics on a request for one GPU and no memory on it. */
  lemma ZeroRequestPanics()
    ensures var node := Node("n", 0, 0, 0, "Any", Gpus(1, map[0 := GpuAlloc(1, 1, 1)], MIB), 1);
            var req := Resources(0, 0, 0, "Any", GpuRequest(1, 0, 1));
            Step(State(node, []), Allocate(req, false)) == Panic
  {
    var node := Node("n", 0, 0, 0, "Any", Gpus(1, map[0 := GpuAlloc(1, 1, 1)], MIB), 1);
    var req := Resources(0, 0, 0, "Any", GpuRequest(1, 0, 1));
    NoMemoryNoSlots();
    var fit := Eligible(node.gpus, Demand(MIB, req.gpu, false));
    assert fit == {0};
    LowestIsLowest(fit, 1);
    AllocatePanicsIff(State(node, []), req, false);
  }

  lemma NoMemoryNoSlots()
    ensures ReqSlotCnt(MIB, 0) == 0
  {
    QuotientIs(MIB - 1, MIB, 0);
  }

  lemma AllocateConserves(init: Node, s: State, req: Resources, createSnapshot: bool)
    requires WithinCapacity(init) && Conserved(init, s) && Legal(s, Allocate(req, createSnapshot))
    ensures Step(s, Allocate(req, createSnapshot)).Next?
    ensures Conserved(init, Step(s, Allocate(req, createSnapshot)).state)
  {
    if Admits(s.node, req, createSnapshot) {
      GrantIsReservableIff(s.node.gpus, req.gpu, createSnapshot);
      TakingConserves(init, s, Lease(Granted(s.node, req, createSnapshot), createSnapshot || req.gpu.gpuCount >= 2));
    }
  }

  lemma StepConserves(init: Node, s: State, op: Op)
    requires WithinCapacity(init) && Conserved(init, s) && Legal(s, op)
    ensures Step(s, op).Next? && Conserved(init, Step(s, op).state)
  {
    match op
    case Allocate(req, createSnapshot) =>
      AllocateConserves(init, s, req, createSnapshot);
    case Reserve(other) =>
      TakingConserves(init, s, Lease(other, false));
    case Release(i) =>
      ReleaseAsserts(init, s, i);
      ReleasingConserves(init, s, i);
  }

  lemma InitiallyBalanced(init: Node, g: int)
    ensures Balanced(init, State(init, []), g)
  {
  }

  lemma InitiallyConserved(init: Node)
    ensures Conserved(init, State(init, []))
  {
    forall g ensures Balanced(init, State(init, []), g) {
      InitiallyBalanced(init, g);
    }
  }

  lemma {:induction false} RunFromConserves(init: Node, s: State, ops: seq<Op>)
    requires WithinCapacity(init) && Conserved(init, s) && LegalRun(s, ops)
    ensures Run(s, ops).Next? && Conserved(init, Run(s, ops).state)
    decreases ops
  {
    if ops != [] {
      StepConserves(init, s, ops[0]);
      RunFromConserves(init, Step(s, ops[0]).state, ops[1..]);
    }
  }

  /** No legal run panics, and every state it reaches accounts for all the node started with. */
  lemma EveryRunConserves(init: Node, ops: seq<Op>)
    requires WithinCapacity(init) && LegalRun(State(init, []), ops)
    ensures Run(State(init, []), ops).Next?
    ensures Conserved(init, Run(State(init, []), ops).state)
  {
    InitiallyConserved(init);
    RunFromConserves(init, State(init, []), ops);
  }

  lemma DrainedHolding(init: Node, s: State, g: int)
    requires Conserved(init, s) && s.leases == []
    ensures Holding(s.node, g) == Holding(init, g)
  {
    assert Balanced(init, s, g);
  }

  /** Once everything is released the node is back to its initial value, cpu included. */
  lemma DrainedIsInitial(init: Node, s: State)
    requires Conserved(init, s) && s.leases == []
    ensures s.node == init
  {
    forall g | g in init.gpus.perGpu ensures s.node.gpus.perGpu[g] == init.gpus.perGpu[g] {
      DrainedHolding(init, s, g);
    }
    assert s.node.gpus.perGpu == init.gpus.perGpu;
    DrainedHolding(init, s, 0);
  }

  // ----- exclusion

  /** Nothing is overdrawn, and each exclusive lease holds nccl capacity on every GPU it names. */
  ghost predicate Guarded(init: Node, s: State) {
    && Conserved(init, s)
    && s.node.gpus.NonNegative()
    && (forall i, g :: 0 <= i < |s.leases| && s.leases[i].exclusive && g in s.leases[i].held.gpus.perGpu ==>
          Amount(s.leases[i].held.gpus.perGpu, g).ncclCnt >= 1)
  }

  lemma AllocateGuards(init: Node, s: State, req: Resources, createSnapshot: bool)
    requires WithinCapacity(init) && Guarded(init, s) && Legal(s, Allocate(req, createSnapshot))
    ensures Step(s, Allocate(req, createSnapshot)).Next?
    ensures Guarded(init, Step(s, Allocate(req, createSnapshot)).state)
  {
    StepConserves(init, s, Allocate(req, createSnapshot));
    if Admits(s.node, req, createSnapshot) {
      GrantIsBacked(s.node.gpus, req.gpu, createSnapshot);
    }
  }

  lemma ReleaseGuards(init: Node, s: State, i: nat)
    requires WithinCapacity(init) && Guarded(init, s) && Legal(s, Release(i))
    ensures Step(s, Release(i)).Next? && Guarded(init, Step(s, Release(i)).state)
  {
    StepConserves(init, s, Release(i));
    var t := Step(s, Release(i)).state;
    assert Backed(init, s.leases[i].held);
    forall k | 0 <= k < |t.leases| ensures t.leases[k] == if k < i then s.leases[k] else s.leases[k + 1] {}
  }

  lemma {:induction false} RunFromGuards(init: Node, s: State, ops: seq<Op>)
    requires WithinCapacity(init) && Guarded(init, s) && LegalRun(s, ops)
    requires forall i :: 0 <= i < |ops| ==> !ops[i].Reserve?
    ensures Run(s, ops).Next? && Guarded(init, Run(s, ops).state)
    decreases ops
  {
    if ops != [] {
      match ops[0] {
        case Allocate(req, createSnapshot) => AllocateGuards(init, s, req, createSnapshot);
        case Release(i) => ReleaseGuards(init, s, i);
      }
      RunFromGuards(init, Step(s, ops[0]).state, ops[1..]);
    }
  }

  lemma TwoHolders(init: Node, leases: seq<Lease>, i: nat, j: nat, g: int)
    requires i < j < |leases| && AllBacked(init, leases)
    ensures Held(leases, g).Covers(
              Amount(leases[i].held.gpus.perGpu, g).Plus(Amount(leases[j].held.gpus.perGpu, g)))
  {
    var rest := Without(leases, j);
    HeldWithout(leases, j, g);
    BackedWithout(init, leases, j);
    assert rest[i] == leases[i];
    HeldAtLeast(init, rest, i, g);
  }

  lemma NoSharing(init: Node, s: State, i: nat, j: nat, g: int)
    requires Guarded(init, s) && i < j < |s.leases| && s.leases[i].exclusive && s.leases[j].exclusive
    requires g in init.gpus.perGpu ==> init.gpus.perGpu[g].ncclCnt == 1
    ensures !(g in s.leases[i].held.gpus.perGpu && g in s.leases[j].held.gpus.perGpu)
  {
    if g in s.leases[i].held.gpus.perGpu && g in s.leases[j].held.gpus.perGpu {
      assert Backed(init, s.leases[i].held);
      assert Balanced(init, s, g);
      TwoHolders(init, s.leases, i, j, g);
      assert false;
    }
  }

  lemma BetweenZeroAndInitial(init: Node, s: State, g: int)
    requires Guarded(init, s) && g in init.gpus.perGpu
    ensures g in s.node.gpus.perGpu && s.node.gpus.perGpu[g].NonNegative()
    ensures init.gpus.perGpu[g].AtLeast(s.node.gpus.perGpu[g])
  {
    HeldNonNegative(init, s.leases, g);
    assert Balanced(init, s, g);
  }

  /**
   In runs of allocations and releases no counter leaves the range from zero to its
   initial value, and with one unit of nccl capacity per GPU no GPU is ever named by
   two live leases that are multi-GPU or snapshot-creating.
   */
  lemma EveryRunExcludes(init: Node, ops: seq<Op>)
    requires WithinCapacity(init) && init.gpus.NonNegative() && LegalRun(State(init, []), ops)
    requires forall i :: 0 <= i < |ops| ==> !ops[i].Reserve?
    ensures Run(State(init, []), ops).Next?
    ensures var s := Run(State(init, []), ops).state;
            && SameNode(init, s.node)
            && (forall g :: g in init.gpus.perGpu ==>
                  s.node.gpus.perGpu[g].NonNegative() && init.gpus.perGpu[g].AtLeast(s.node.gpus.perGpu[g]))
            && ((forall g :: g in init.gpus.perGpu ==> init.gpus.perGpu[g].ncclCnt == 1) ==>
                  forall i, j, g :: 0 <= i < j < |s.leases| && s.leases[i].exclusive && s.leases[j].exclusive ==>
                    !(g in s.leases[i].held.gpus.perGpu && g in s.leases[j].held.gpus.perGpu))
  {
    InitiallyConserved(init);
    RunFromGuards(init, State(init, []), ops);
    var s := Run(State(init, []), ops).state;
    forall g | g in init.gpus.perGpu ensures s.node.gpus.perGpu[g].NonNegative() && init.gpus.perGpu[g].AtLeast(s.node.gpus.perGpu[g]) {
      BetweenZeroAndInitial(init, s, g);
    }
    if forall g :: g in init.gpus.perGpu ==> init.gpus.perGpu[g].ncclCnt == 1 {
      forall i, j, g | 0 <= i < j < |s.leases| && s.leases[i].exclusive && s.leases[j].exclusive
        ensures !(g in s.leases[i].held.gpus.perGpu && g in s.leases[j].held.gpus.perGpu)
      {
        NoSharing(init, s, i, j, g);
      }
    }
  }

  // ----- memory

  /** The memory amounts of the request are below 2^63, so that they are not negative as signed integers. */
  predicate Modest(op: Op) {
    op.Allocate? ==> op.req.memory < U64_SIZE / 2 && op.req.cacheMemory < U64_SIZE / 2
  }

  ghost predicate MemoryHeld(s: State) {
    && s.node.memory >= 0 && s.node.cacheMemory >= 0
    && (forall i :: 0 <= i < |s.leases| ==> s.leases[i].held.memory >= 0 && s.leases[i].held.cacheMemory >= 0)
  }

  lemma AllocateKeepsMemory(s: State, req: Resources, createSnapshot: bool)
    requires MemoryHeld(s) && Modest(Allocate(req, createSnapshot)) && Step(s, Allocate(req, createSnapshot)).Next?
    ensures MemoryHeld(Step(s, Allocate(req, createSnapshot)).state)
  {
    if Admits(s.node, req, createSnapshot) {
      var granted := Granted(s.node, req, createSnapshot);
      assert granted.memory == req.memory && granted.cacheMemory == req.cacheMemory;
    }
  }

  lemma ReleaseKeepsMemory(s: State, i: nat)
    requires MemoryHeld(s) && i < |s.leases| && Step(s, Release(i)).Next?
    ensures MemoryHeld(Step(s, Release(i)).state)
  {
    var t := Step(s, Release(i)).state;
    forall k | 0 <= k < |t.leases| ensures t.leases[k] == if k < i then s.leases[k] else s.leases[k + 1] {}
  }

  lemma StepKeepsMemory(s: State, op: Op)
    requires MemoryHeld(s) && Legal(s, op) && !op.Reserve? && Modest(op) && Step(s, op).Next?
    ensures MemoryHeld(Step(s, op).state)
  {
    match op
    case Allocate(req, createSnapshot) => AllocateKeepsMemory(s, req, createSnapshot);
    case Release(i) => ReleaseKeepsMemory(s, i);
  }

  lemma {:induction false} RunKeepsMemory(init: Node, s: State, ops: seq<Op>)
    requires WithinCapacity(init) && Conserved(init, s) && MemoryHeld(s) && LegalRun(s, ops)
    requires forall i :: 0 <= i < |ops| ==> !ops[i].Reserve? && Modest(ops[i])
    ensures Run(s, ops).Next? && Conserved(init, Run(s, ops).state) && MemoryHeld(Run(s, ops).state)
    decreases ops
  {
    if ops != [] {
      StepConserves(init, s, ops[0]);
      StepKeepsMemory(s, ops[0]);
      RunKeepsMemory(init, Step(s, ops[0]).state, ops[1..]);
    }
  }

  lemma {:induction false} HeldMemoryNonNegative(leases: seq<Lease>)
    requires forall i :: 0 <= i < |leases| ==> leases[i].held.memory >= 0 && leases[i].held.cacheMemory >= 0
    ensures Held(leases, 0).memory >= 0 && Held(leases, 0).cacheMemory >= 0
  {
    if leases != [] {
      HeldMemoryNonNegative(leases[..|leases| - 1]);
    }
  }

  /** In runs of allocations and releases with such requests, both memories stay between zero and their initial values. */
  lemma EveryRunBoundsMemory(init: Node, ops: seq<Op>)
    requires WithinCapacity(init) && init.memory >= 0 && init.cacheMemory >= 0 && LegalRun(State(init, []), ops)
    requires forall i :: 0 <= i < |ops| ==> !ops[i].Reserve? && Modest(ops[i])
    ensures Run(State(init, []), ops).Next?
    ensures var n := Run(State(init, []), ops).state.node;
            0 <= n.memory <= init.memory && 0 <= n.cacheMemory <= init.cacheMemory
  {
    InitiallyConserved(init);
    RunKeepsMemory(init, State(init, []), ops);
    var s := Run(State(init, []), ops).state;
    HeldMemoryNonNegative(s.leases);
    assert Balanced(init, s, 0);
  }

  /** From 2^63 on they need not: such a request is admitted by every node, and raises its free memory. */
  lemma HugeRequestRaisesMemory(init: Node, memory: u64)
    requires memory >= U64_SIZE / 2 && init.cpu >= 0 && init.memory >= 0 && init.cacheMemory >= 0
    ensures var req := Resources(0, memory, 0, "Any", GpuRequest(0, 0, 0));
            && Legal(State(init, []), Allocate(req, false))
            && Step(State(init, []), Allocate(req, false)).Next?
            && Step(State(init, []), Allocate(req, false)).state.node.memory > init.memory
  {
  }
}
