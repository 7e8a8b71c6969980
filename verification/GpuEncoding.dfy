/** The fixed eight-entry encoding of a ledger that is sent to a node agent, and what it loses. */
module GpuEncoding {
  import opened Common
  import opened GpuLedger
  import Ascending

  const MAX_GPU_COUNT: int := 8

  datatype GpuInfo = GpuInfo(total: int, slots: seq<int>, slotSize: int)

  /** An info holds eight 32-bit slot counts. */
  predicate WellFormed(info: GpuInfo) {
    |info.slots| == MAX_GPU_COUNT && forall g :: 0 <= g < MAX_GPU_COUNT ==> 0 <= info.slots[g] < U32_SIZE
  }

  /** Encoding indexes an eight-entry array by GPU id and asserts a non-negative slot count. */
  predicate Encodable(m: map<int, GpuAlloc>) {
    forall g :: g in m ==> 0 <= g < MAX_GPU_COUNT && m[g].slotCnt >= 0
  }

  function SlotsOf(m: map<int, GpuAlloc>): seq<int> {
    seq(MAX_GPU_COUNT, g => Amount(m, g).slotCnt % U32_SIZE)
  }

  function Encoded(m: Gpus): GpuInfo {
    GpuInfo(m.totalSlotCnt, SlotsOf(m.perGpu), m.slotSize)
  }

  function Used(slots: seq<int>): set<int> {
    set g | 0 <= g < |slots| && slots[g] > 0
  }

  /** Every used GPU comes back with one context, and with nccl exactly when several are used. */
  function Filled(slots: seq<int>): map<int, GpuAlloc> {
    map g | g in Used(slots) :: GpuAlloc(1, slots[g], if |Used(slots)| > 1 then 1 else 0)
  }

  function Decoded(info: GpuInfo): Gpus {
    Gpus(info.total, Filled(info.slots), info.slotSize)
  }

  method Encode(m: Gpus) returns (info: GpuInfo)
    requires Encodable(m.perGpu)
    ensures info == Encoded(m)
  {
    var slots := new int[MAX_GPU_COUNT](_ => 0);
    var ids := Ascending.Ids(m.perGpu.Keys);
    Ascending.IdsMembers(m.perGpu.Keys);
    for i := 0 to |ids|
      invariant forall g :: 0 <= g < MAX_GPU_COUNT ==>
                              slots[g] == if g in ids[..i] then Amount(m.perGpu, g).slotCnt % U32_SIZE else 0
    {
      var g := ids[i];
      assert g in ids;
      assert ids[..i + 1] == ids[..i] + [g];
      assert m.perGpu[g].slotCnt >= 0;
      slots[g] := m.perGpu[g].slotCnt % U32_SIZE;
    }
    assert ids[..|ids|] == ids;
    assert slots[..] == SlotsOf(m.perGpu);
    info := GpuInfo(m.totalSlotCnt, slots[..], m.slotSize);
  }

  function CountUsed(slots: seq<int>): nat {
    if slots == [] then 0 else CountUsed(slots[..|slots| - 1]) + if slots[|slots| - 1] > 0 then 1 else 0
  }

  lemma {:induction false} CountUsedIsSize(slots: seq<int>)
    ensures CountUsed(slots) == |Used(slots)|
  {
    if slots == [] {
      assert Used(slots) == {};
    } else {
      var n := |slots| - 1;
      CountUsedIsSize(slots[..n]);
      assert Used(slots) == Used(slots[..n]) + if slots[n] > 0 then {n} else {};
    }
  }

  method Decode(info: GpuInfo) returns (m: Gpus)
    ensures m == Decoded(info)
  {
    var gpuCnt := 0;
    for i := 0 to |info.slots|
      invariant gpuCnt == CountUsed(info.slots[..i])
    {
      assert info.slots[..i + 1][..i] == info.slots[..i];
      if info.slots[i] > 0 {
        gpuCnt := gpuCnt + 1;
      }
    }
    assert info.slots[..|info.slots|] == info.slots;
    CountUsedIsSize(info.slots);
    var ncclCnt := if gpuCnt > 1 then 1 else 0;
    var perGpu: map<int, GpuAlloc> := map[];
    for i := 0 to |info.slots|
      invariant perGpu == map g | g in Used(info.slots) && g < i :: GpuAlloc(1, info.slots[g], ncclCnt)
    {
      if info.slots[i] > 0 {
        perGpu := perGpu[i := GpuAlloc(1, info.slots[i], ncclCnt)];
      }
    }
    m := Gpus(info.total, perGpu, info.slotSize);
  }

  /** Nothing of an info is lost by decoding and encoding it again. */
  lemma InfoSurvives(info: GpuInfo)
    requires WellFormed(info)
    ensures Encodable(Decoded(info).perGpu) && Encoded(Decoded(info)) == info
  {
    var back := SlotsOf(Filled(info.slots));
    forall g | 0 <= g < MAX_GPU_COUNT ensures back[g] == info.slots[g] {
    }
    assert back == info.slots;
  }

  lemma SlotAt(m: map<int, GpuAlloc>, g: int)
    requires 0 <= g < MAX_GPU_COUNT && (g in m ==> 0 <= m[g].slotCnt < U32_SIZE)
    ensures SlotsOf(m)[g] == Amount(m, g).slotCnt
  {
  }

  ghost predicate InWidth(m: map<int, GpuAlloc>) {
    Encodable(m) && forall g :: g in m ==> m[g].slotCnt < U32_SIZE
  }

  /** What the encoding can express: a used GPU holds a 32-bit count of slots, one context, and nccl iff it is not alone. */
  ghost predicate Expressible(m: map<int, GpuAlloc>) {
    forall g :: g in m ==> 0 < m[g].slotCnt < U32_SIZE && m[g].contextCnt == 1 && m[g].ncclCnt == if |m| > 1 then 1 else 0
  }

  lemma UsedIsKeys(m: map<int, GpuAlloc>)
    requires InWidth(m)
    ensures Used(SlotsOf(m)) == set g | g in m && m[g].slotCnt > 0
  {
    forall g | 0 <= g < MAX_GPU_COUNT ensures SlotsOf(m)[g] == Amount(m, g).slotCnt {
      SlotAt(m, g);
    }
  }

  lemma ExpressibleSurvives(m: map<int, GpuAlloc>)
    requires InWidth(m) && Expressible(m)
    ensures Filled(SlotsOf(m)) == m
  {
    UsedIsKeys(m);
    assert Used(SlotsOf(m)) == m.Keys;
    forall g | g in m ensures Filled(SlotsOf(m))[g] == m[g] {
      SlotAt(m, g);
    }
  }

  lemma SurvivorIsExpressible(slots: seq<int>)
    requires forall g :: 0 <= g < |slots| ==> slots[g] < U32_SIZE
    ensures Expressible(Filled(slots))
  {
    assert Filled(slots).Keys == Used(slots);
  }

  /** A ledger comes back unchanged exactly when the encoding can express it. */
  lemma LedgerSurvivesIff(m: Gpus)
    requires Encodable(m.perGpu)
    ensures Decoded(Encoded(m)) == m <==> Expressible(m.perGpu)
  {
    if Expressible(m.perGpu) {
      ExpressibleSurvives(m.perGpu);
    }
    SurvivorIsExpressible(SlotsOf(m.perGpu));
  }

  /** For a grant: exactly when it asked for one context and is not a single-GPU snapshot. */
  lemma GrantSurvivesIff(m: Gpus, req: GpuRequest, createSnapshot: bool)
    requires req.gpuCount > 0 && AllocAsserts(m, req, createSnapshot) && Choice(m, req, createSnapshot).Some?
    requires forall g :: g in Grant(m, req, createSnapshot).perGpu ==> 0 <= g < MAX_GPU_COUNT
    ensures var grant := Grant(m, req, createSnapshot);
            && InWidth(grant.perGpu)
            && (Decoded(Encoded(grant)) == grant <==>
                req.contextCount == 1 && !(req.gpuCount == 1 && createSnapshot))
  {
    var grant := Grant(m, req, createSnapshot);
    GrantIsCovered(m, req, createSnapshot);
    LedgerSurvivesIff(grant);
    ChoiceIsGreedyAndComplete(m, req, createSnapshot);
    var first := Choice(m, req, createSnapshot).value[0];
    assert first in grant.perGpu;
  }

  /** A second context on a GPU is lost on the way. */
  lemma SecondContextIsLost(total: int, slotSize: int)
    ensures var m := Gpus(total, map[0 := GpuAlloc(2, 1, 0)], slotSize); InWidth(m.perGpu) && Decoded(Encoded(m)) != m
  {
    var m := Gpus(total, map[0 := GpuAlloc(2, 1, 0)], slotSize);
    assert 0 in m.perGpu && m.perGpu[0].contextCnt == 2;
    LedgerSurvivesIff(m);
  }
}
