/** Slot counts and reported memory: 64-bit wrapping arithmetic against exact ceilings. */
module SlotArithmetic {
  import opened Common

  const MIB: int := 1024 * 1024

  /** Slots covering `vRam` MB, in wrapping 64-bit arithmetic, truncated to 32 bits. */
  function ReqSlotCnt(slotSize: int, vRam: u64): u32
    requires slotSize > 0
  {
    var bytes := vRam * 1024 * 1024 % U64_SIZE;
    (bytes + slotSize - 1) % U64_SIZE / slotSize % U32_SIZE
  }

  /** The `VRam` accessor: whole megabytes per slot, times the slots held. */
  function VRam(slotSize: int, slotCnt: int): int {
    slotSize / 1024 / 1024 * slotCnt
  }

  /** `n` slots of size `d` hold `x` bytes, and one slot less does not. */
  predicate IsCeiling(n: int, x: int, d: int) {
    (n - 1) * d < x <= n * d
  }

  function Ceiling(x: int, d: int): int
    requires d > 0
  {
    (x + d - 1) / d
  }

  /** The rounded-up sum fits 64 bits and the count fits 32. */
  predicate InRange(slotSize: u64, vRam: u64)
    requires slotSize > 0
  {
    vRam * MIB + slotSize <= U64_SIZE && Ceiling(vRam * MIB, slotSize) < U32_SIZE
  }

  // ----- division

  lemma DivisionBounds(x: int, d: int)
    requires d > 0
    ensures x / d * d <= x < x / d * d + d
  {
    assert x == x / d * d + x % d;
  }

  lemma BelowOne(q: int, d: int)
    requires d > 0 && q * d < d
    ensures q <= 0
  {
    assert (q - 1) * d < 0;
  }

  lemma QuotientIs(x: int, d: int, q: int)
    requires d > 0 && q * d <= x < q * d + d
    ensures x / d == q
  {
    DivisionBounds(x, d);
    var r := x / d;
    assert (r - q) * d < d && (q - r) * d < d;
    BelowOne(r - q, d);
    BelowOne(q - r, d);
  }

  lemma Small(x: int, m: int)
    requires 0 <= x < m
    ensures x % m == x
  {
  }

  lemma CeilingIff(n: int, x: int, d: int)
    requires d > 0
    ensures IsCeiling(n, x, d) <==> n == Ceiling(x, d)
  {
    assert (n - 1) * d == n * d - d;
    if IsCeiling(n, x, d) {
      QuotientIs(x + d - 1, d, n);
    }
    if n == Ceiling(x, d) {
      DivisionBounds(x + d - 1, d);
    }
  }

  lemma QuotientGrows(y: int, x: int, d: int)
    requires d > 0 && y + d <= x
    ensures y / d < x / d
  {
    DivisionBounds(y, d);
    DivisionBounds(x, d);
    assert (y / d - x / d + 1) * d == y / d * d - x / d * d + d;
    assert y / d * d - x / d * d < 0;
    BelowOne(y / d - x / d + 1, d);
  }

  /** Having the ceiling is having enough. */
  lemma CeilingCovers(n: int, x: int, d: int, c: int)
    requires d > 0 && IsCeiling(n, x, d)
    ensures c >= n <==> c * d >= x
  {
    if c >= n {
      assert (c - n) * d >= 0;
      assert (c - n) * d == c * d - n * d;
    } else {
      assert (n - 1 - c) * d >= 0;
      assert (n - 1 - c) * d == (n - 1) * d - c * d;
    }
  }

  // ----- the slot count

  /** Wrapping twice is wrapping the sum once. */
  lemma WrapsOnce(x: int, y: int, m: int)
    requires m > 0 && 0 <= x
    ensures (x % m + y) % m == (x + y) % m
  {
    var q, s, t := x / m, x % m + y, (x % m + y) / m;
    DivisionBounds(s, m);
    assert x + y == s + q * m;
    assert (t + q) * m == t * m + q * m;
    QuotientIs(x + y, m, t + q);
  }

  lemma CountIsQuotient(slotSize: u64, vRam: u64)
    requires slotSize > 0
    ensures ReqSlotCnt(slotSize, vRam) == (vRam * MIB + slotSize - 1) % U64_SIZE / slotSize % U32_SIZE
  {
    assert vRam * 1024 * 1024 == vRam * MIB;
    WrapsOnce(vRam * MIB, slotSize - 1, U64_SIZE);
  }

  /** A remainder of something at least `m` is short of it by `m` or more. */
  lemma RemainderFallsShort(s: int, m: int)
    requires m > 0 && s >= m
    ensures 0 <= s % m && s % m + m <= s
  {
    DivisionBounds(s, m);
    var q := s / m;
    assert (1 - q) * m == m - q * m;
    BelowOne(1 - q, m);
    assert (q - 1) * m >= 0;
    assert (q - 1) * m == q * m - m;
  }

  lemma TruncationOnlyShrinks(x: int, m: int)
    requires m > 0 && x >= 0
    ensures 0 <= x % m <= x
  {
  }

  lemma WrappedQuotient(s: int, d: int, m: int, w: int)
    requires 0 < d <= m <= s && w > 0
    ensures s % m / d % w < s / d
  {
    var y := s % m;
    RemainderFallsShort(s, m);
    QuotientGrows(y, s, d);
    QuotientIsNonNegative(y, d);
    TruncationOnlyShrinks(y / d, w);
  }

  lemma QuotientIsNonNegative(x: int, d: int)
    requires x >= 0 && d > 0
    ensures x / d >= 0
  {
  }

  /** A wrap makes the count fall below the ceiling. */
  lemma WrappedFallsShort(slotSize: u64, vRam: u64)
    requires slotSize > 0 && vRam * MIB + slotSize > U64_SIZE
    ensures ReqSlotCnt(slotSize, vRam) < Ceiling(vRam * MIB, slotSize)
  {
    CountIsQuotient(slotSize, vRam);
    WrappedQuotient(vRam * MIB + slotSize - 1, slotSize, U64_SIZE, U32_SIZE);
  }

  lemma UnwrappedIsTruncated(slotSize: u64, vRam: u64)
    requires slotSize > 0 && vRam * MIB + slotSize <= U64_SIZE
    ensures ReqSlotCnt(slotSize, vRam) == Ceiling(vRam * MIB, slotSize) % U32_SIZE
  {
    CountIsQuotient(slotSize, vRam);
    Small(vRam * MIB + slotSize - 1, U64_SIZE);
  }

  /** The slot count is the exact ceiling of the requested bytes if and only if nothing wraps and nothing is cut off. */
  lemma ReqSlotCntIsCeilingIff(slotSize: u64, vRam: u64)
    requires slotSize > 0
    ensures IsCeiling(ReqSlotCnt(slotSize, vRam), vRam * MIB, slotSize) <==> InRange(slotSize, vRam)
  {
    CeilingIff(ReqSlotCnt(slotSize, vRam), vRam * MIB, slotSize);
    if vRam * MIB + slotSize > U64_SIZE {
      WrappedFallsShort(slotSize, vRam);
    } else {
      UnwrappedIsTruncated(slotSize, vRam);
      if InRange(slotSize, vRam) {
        QuotientIsNonNegative(vRam * MIB + slotSize - 1, slotSize);
        Small(Ceiling(vRam * MIB, slotSize), U32_SIZE);
      }
    }
  }

  /** Out of range the count can collapse: 2^44 MB wraps to zero slots. */
  lemma ReqSlotCntWraps(slotSize: u64)
    requires slotSize > 0
    ensures ReqSlotCnt(slotSize, 0x1000_0000_0000) == 0
    ensures !IsCeiling(0, 0x1000_0000_0000 * MIB, slotSize)
  {
    ReqSlotCntIsCeilingIff(slotSize, 0x1000_0000_0000);
    assert 0x1000_0000_0000 * 1024 * 1024 % U64_SIZE == 0;
    assert (0 + slotSize - 1) % U64_SIZE == slotSize - 1;
    QuotientIs(slotSize - 1, slotSize, 0);
  }

  // ----- the reported memory

  /** With slots of whole megabytes the reported VRam covers the request with less than one slot to spare. */
  lemma ReportedVRamCovers(slotSize: u64, vRam: u64)
    requires slotSize > 0 && slotSize % MIB == 0 && InRange(slotSize, vRam)
    ensures var reported := VRam(slotSize, ReqSlotCnt(slotSize, vRam));
            vRam <= reported < vRam + slotSize / MIB
  {
    var n := ReqSlotCnt(slotSize, vRam);
    ReqSlotCntIsCeilingIff(slotSize, vRam);
    VRamIs(slotSize, n);
    assert slotSize == slotSize / MIB * MIB;
    WholeMegabytes(slotSize / MIB, n, vRam);
  }

  lemma WholeMegabytes(mb: int, n: int, vRam: int)
    requires (n - 1) * (mb * MIB) < vRam * MIB <= n * (mb * MIB)
    ensures vRam <= mb * n < vRam + mb
  {
    assert n * (mb * MIB) == (mb * n) * MIB;
    assert (n - 1) * (mb * MIB) == (mb * n - mb) * MIB;
  }

  /** The fewest slots whose left-over bytes, those beyond whole megabytes, add up to a megabyte. */
  function Spill(slotSize: u64): int
    requires slotSize % MIB != 0
  {
    Ceiling(MIB, slotSize % MIB)
  }

  /** The smallest request that is reported short. */
  function FirstUncovered(slotSize: u64): int
    requires slotSize % MIB != 0
  {
    slotSize / MIB * Spill(slotSize) + 1
  }

  lemma SpillBounds(slotSize: u64)
    requires slotSize % MIB != 0
    ensures var r, n := slotSize % MIB, Spill(slotSize); 1 <= n <= MIB && (n - 1) * r < MIB <= n * r
  {
    var r, n := slotSize % MIB, Spill(slotSize);
    CeilingIff(n, MIB, r);
    PositiveFactor(n, r);
    BelowProduct(n - 1, r, MIB);
  }

  lemma PositiveFactor(n: int, r: int)
    requires r > 0 && n * r > 0
    ensures n >= 1
  {
    assert (1 - n) * r == r - n * r;
    BelowOne(1 - n, r);
  }

  lemma BelowProduct(a: int, r: int, m: int)
    requires r >= 1 && a >= 0 && a * r < m
    ensures a < m
  {
    assert a * r == a + a * (r - 1);
  }

  lemma MegabytesAndRest(slotSize: int, n: int)
    ensures n * slotSize == slotSize / MIB * n * MIB + n * (slotSize % MIB)
  {
    assert slotSize == slotSize / MIB * MIB + slotSize % MIB;
    assert n * (slotSize / MIB * MIB + slotSize % MIB) == n * (slotSize / MIB * MIB) + n * (slotSize % MIB);
    assert n * (slotSize / MIB * MIB) == slotSize / MIB * n * MIB;
  }

  lemma FirstUncoveredNeedsSpill(slotSize: u64)
    requires slotSize % MIB != 0
    ensures IsCeiling(Spill(slotSize), FirstUncovered(slotSize) * MIB, slotSize)
  {
    var k, r, n := slotSize / MIB, slotSize % MIB, Spill(slotSize);
    SpillBounds(slotSize);
    MegabytesAndRest(slotSize, n);
    assert (n - 1) * slotSize == n * slotSize - slotSize;
    assert (n - 1) * r == n * r - r;
    assert (k * n + 1) * MIB == k * n * MIB + MIB;
  }

  /** If it is in range at all, the first uncovered request is indeed reported short. */
  lemma UncoveredRequest(slotSize: u64)
    requires slotSize % MIB != 0 && FirstUncovered(slotSize) * MIB + slotSize <= U64_SIZE
    ensures 0 <= FirstUncovered(slotSize) < U64_SIZE && InRange(slotSize, FirstUncovered(slotSize))
    ensures VRam(slotSize, ReqSlotCnt(slotSize, FirstUncovered(slotSize))) < FirstUncovered(slotSize)
  {
    var v, n := FirstUncovered(slotSize), Spill(slotSize);
    SpillBounds(slotSize);
    FirstUncoveredFits(slotSize / MIB, n, slotSize);
    FirstUncoveredNeedsSpill(slotSize);
    CeilingIff(n, v * MIB, slotSize);
    ReqSlotCntIsCeilingIff(slotSize, v);
    CeilingIff(ReqSlotCnt(slotSize, v), v * MIB, slotSize);
    VRamIs(slotSize, n);
  }

  lemma FirstUncoveredFits(k: int, n: int, slotSize: int)
    requires k >= 0 && n >= 0 && slotSize >= 0 && (k * n + 1) * MIB + slotSize <= U64_SIZE
    ensures 0 <= k * n + 1 < U64_SIZE
  {
  }

  lemma VRamIs(slotSize: int, n: int)
    requires slotSize >= 0
    ensures VRam(slotSize, n) == slotSize / MIB * n
  {
    assert slotSize / 1024 / 1024 == slotSize / MIB;
  }

  /** Whatever is reported short is at least as large as the first uncovered request. */
  lemma UncoveredIsLarge(slotSize: u64, vRam: u64)
    requires slotSize > 0 && InRange(slotSize, vRam) && VRam(slotSize, ReqSlotCnt(slotSize, vRam)) < vRam
    ensures slotSize % MIB != 0 && FirstUncovered(slotSize) <= vRam
  {
    var k, r, n := slotSize / MIB, slotSize % MIB, ReqSlotCnt(slotSize, vRam);
    ReqSlotCntIsCeilingIff(slotSize, vRam);
    VRamIs(slotSize, n);
    MegabytesAndRest(slotSize, n);
    ShortMeansSpill(k, r, n, vRam);
    SpillBounds(slotSize);
    SpillIsFewest(Spill(slotSize), n, r);
    Scaled(k, Spill(slotSize), n);
  }

  /** A request that `k` megabytes per slot do not cover needs a whole megabyte from the left-over bytes. */
  lemma ShortMeansSpill(k: int, r: int, n: int, vRam: int)
    requires k * n < vRam && vRam * MIB <= k * n * MIB + n * r && n >= 0 && r >= 0
    ensures r > 0 && MIB <= n * r
  {
    assert (k * n + 1) * MIB == k * n * MIB + MIB;
    assert r == 0 ==> n * r == 0;
  }

  lemma Scaled(k: int, a: int, b: int)
    requires k >= 0 && a <= b
    ensures k * a <= k * b
  {
  }

  lemma SpillIsFewest(n0: int, n: int, r: int)
    requires r > 0 && (n0 - 1) * r < MIB <= n * r
    ensures n0 <= n
  {
    assert (n0 - 1 - n) * r == (n0 - 1) * r - n * r;
    BelowOne(n0 - n, r);
  }

  /**
   Every in-range request is covered by the VRam reported for it, if and only if slots are
   whole megabytes, or so large that the first request reported short is out of range.
   */
  lemma ReportedVRamCoversIff(slotSize: u64)
    requires slotSize > 0
    ensures (forall vRam: u64 :: InRange(slotSize, vRam) ==> vRam <= VRam(slotSize, ReqSlotCnt(slotSize, vRam)))
            <==> slotSize % MIB == 0 || FirstUncovered(slotSize) * MIB + slotSize > U64_SIZE
  {
    if slotSize % MIB == 0 || FirstUncovered(slotSize) * MIB + slotSize > U64_SIZE {
      forall vRam: u64 | InRange(slotSize, vRam)
        ensures vRam <= VRam(slotSize, ReqSlotCnt(slotSize, vRam))
      {
        if VRam(slotSize, ReqSlotCnt(slotSize, vRam)) < vRam {
          UncoveredIsLarge(slotSize, vRam);
          assert false;
        }
      }
    } else {
      UncoveredRequest(slotSize);
    }
  }
}
