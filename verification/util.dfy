/**
 * Helpers of the CoreCLR VM utility header (src/coreclr/vm/util.hpp): the
 * integer range checks, Lemire's fastmod, and the JIT and GC notification
 * records used by the debugger's data-access layer.
 */
module Util {

  const TWO32: int := 0x1_0000_0000
  const TWO64: int := 0x1_0000_0000_0000_0000
  const UINT64_MAX: int := 0xFFFF_FFFF_FFFF_FFFF
  const INT_MAX: int := 0x7FFF_FFFF

  type uint16 = x: int | 0 <= x < 0x1_0000
  type uint32 = x: int | 0 <= x < 0x1_0000_0000
  type uint64 = x: int | 0 <= x < 0x1_0000_0000_0000_0000
  type int64 = x: int | -0x8000_0000_0000_0000 <= x < 0x8000_0000_0000_0000

  // ---------------------------------------------------------------------------
  // Range checks. A narrowing cast keeps the low bits; a signed one then reads
  // them as two's complement. The value fits when widening it back gives it
  // unchanged.
  // ---------------------------------------------------------------------------

  /** The two's-complement reading of val's low bits, where m is 2^bits. */
  function SignedLowBits(val: int, m: nat): int
    requires m >= 2
  {
    var low := val % m;
    if low >= m / 2 then low - m else low
  }

  function FitsInI1(val: int64): (r: bool)
    ensures r <==> -0x80 <= val < 0x80
  {
    val == SignedLowBits(val, 0x100)
  }

  function FitsInI2(val: int64): (r: bool)
    ensures r <==> -0x8000 <= val < 0x8000
  {
    val == SignedLowBits(val, 0x1_0000)
  }

  function FitsInI4(val: int64): (r: bool)
    ensures r <==> -0x8000_0000 <= val < 0x8000_0000
  {
    val == SignedLowBits(val, 0x1_0000_0000)
  }

  function FitsInU1(val: uint64): (r: bool)
    ensures r <==> val < 0x100
  {
    val == val % 0x100
  }

  function FitsInU2(val: uint64): (r: bool)
    ensures r <==> val < 0x1_0000
  {
    val == val % 0x1_0000
  }

  function FitsInU4(val: uint64): (r: bool)
    ensures r <==> val < 0x1_0000_0000
  {
    val == val % 0x1_0000_0000
  }

  // ---------------------------------------------------------------------------
  // Lemire's fastmod (64-bit targets only).
  // ---------------------------------------------------------------------------

  /**
   * GetFastModMultiplier: UINT64_MAX / divisor + 1 in 64-bit arithmetic, so
   * the multiplier wraps to 0 for divisor 1. For larger divisors it is the
   * ceiling of 2^64 / divisor.
   */
  function GetFastModMultiplier(divisor: uint32): (m: uint64)
    requires divisor != 0
    ensures divisor == 1 ==> m == 0
    ensures divisor > 1 ==> TWO64 <= m * divisor < TWO64 + divisor
  {
    MultiplierBounds(divisor);
    (UINT64_MAX / divisor + 1) % TWO64
  }

  lemma MultiplierBounds(d: uint32)
    requires d != 0
    ensures var m := UINT64_MAX / d + 1; TWO64 <= m * d < TWO64 + d && (d > 1 ==> m < TWO64)
  {
    var q, s := UINT64_MAX / d, UINT64_MAX % d;
    DivModParts(UINT64_MAX, d);
    MulSucc(q, d);
    if d > 1 {
      MulLeft(2, d, q);
    }
  }

  lemma DivModParts(n: int, d: int)
    requires 0 <= n && 0 < d
    ensures n == (n / d) * d + n % d && 0 <= n % d < d && 0 <= n / d
  {
  }

  lemma MulSucc(q: int, d: int)
    ensures (q + 1) * d == q * d + d
  {
  }

  /**
   * FastMod: the high 32 bits of ((high 32 bits of multiplier * value) + 1) * divisor,
   * each product taken modulo 2^64 as UINT64 arithmetic does.
   */
  function FastMod(value: uint32, divisor: uint32, multiplier: uint64): (r: uint32)
    requires divisor <= INT_MAX
  {
    var low := (multiplier * value) % TWO64;
    var high := (((low / TWO32) + 1) * divisor) % TWO64 / TWO32;
    high % TWO32
  }

  // Small steps of nonlinear arithmetic, each kept separate so that the
  // solver sees one product at a time.

  lemma MulLeft(a: int, b: int, c: int)
    requires 0 <= c && a <= b
    ensures a * c <= b * c
  {}

  lemma ModOfDecomposition(x: int, k: int, low: int, n: int)
    requires 0 < n && 0 <= low < n && x == k * n + low
    ensures x % n == low
  {
    var q := x / n;
    assert x == q * n + x % n;
    if q > k {
      MulLeft(k + 1, q, n);
    } else if q < k {
      MulLeft(q + 1, k, n);
    }
    assert q == k;
  }

  lemma MultiplierFacts(d: uint32) returns (M: int, e: int)
    requires 2 <= d <= INT_MAX
    ensures M == GetFastModMultiplier(d)
    ensures M * d == TWO64 + e && 0 <= e < d
    ensures M > 2 * TWO32
  {
    MultiplierBounds(d);
    M := UINT64_MAX / d + 1;
    e := M * d - TWO64;
    if M <= 2 * TWO32 {
      MulLeft(M, 2 * TWO32, d);
    }
  }

  lemma Distrib(a: int, b: int, c: int)
    ensures a * (b + c) == a * b + a * c
  {}

  lemma Rotate(a: int, b: int, c: int)
    ensures a * (b * c) == b * (a * c)
  {}

  lemma LowBitsSplit(value: int, d: int, M: int, e: int, a: int, r: int)
    requires M * d == TWO64 + e && value == a * d + r
    ensures M * value == a * TWO64 + (a * e + M * r)
  {
    Distrib(M, a * d, r);
    Rotate(M, a, d);
    Distrib(a, TWO64, e);
  }

  lemma LowBitsRange(value: int, d: int, M: int, e: int, a: int, r: int)
    requires 2 <= d <= INT_MAX && 0 <= value < TWO32
    requires M * d == TWO64 + e && 0 <= e < d && M > 2 * TWO32
    requires value == a * d + r && 0 <= a && 0 <= r < d
    ensures 0 <= a * e + M * r < TWO64
  {
    MulLeft(e, d, a);
    MulLeft(0, e, a);
    MulLeft(0, r, M);
    assert a * e <= value;
    MulLeft(r, d - 1, M);
    Distrib(M, d, -1);
    assert M * r <= TWO64 + e - M;
  }

  lemma LowBits(value: int, d: int, M: int, e: int, a: int, r: int)
    requires 2 <= d && 0 <= value < TWO32
    requires M * d == TWO64 + e && 0 <= e < d && M > 2 * TWO32
    requires value == a * d + r && 0 <= a && 0 <= r < d
    ensures (M * value) % TWO64 == a * e + M * r
  {
    LowBitsSplit(value, d, M, e, a, r);
    LowBitsRange(value, d, M, e, a, r);
    ModOfDecomposition(M * value, a, a * e + M * r, TWO64);
  }

  lemma HighBitsLower(L: int, H: int, M: int, d: int, e: int, r: int)
    requires 0 < d && 0 <= r && H == L / TWO32 && L >= M * r && M * d == TWO64 + e && 0 <= e
    ensures (H + 1) * d > r * TWO32
  {
    var P := (H + 1) * d;
    assert (H + 1) * TWO32 >= L + 1;
    MulLeft(M * r + 1, (H + 1) * TWO32, d);
    assert (M * r) * d == r * (M * d);
    assert P * TWO32 > r * TWO64;
    if P <= r * TWO32 {
      MulLeft(P, r * TWO32, TWO32);
    }
  }

  lemma HighBitsUpper(value: int, L: int, H: int, d: int, e: int, r: int)
    requires 0 < d <= INT_MAX && 0 <= value < TWO32 && 0 <= e < d && 0 <= L && H == L / TWO32
    requires L * d == r * TWO64 + e * value
    ensures (H + 1) * d < (r + 1) * TWO32
  {
    var P := (H + 1) * d;
    assert (H + 1) * TWO32 <= L + TWO32;
    MulLeft((H + 1) * TWO32, L + TWO32, d);
    assert e * value <= d * value by { MulLeft(e, d, value); }
    assert d * value <= d * TWO32 by { MulLeft(value, TWO32, d); }
    assert P * TWO32 < (r + 1) * TWO64;
    if P >= (r + 1) * TWO32 {
      MulLeft((r + 1) * TWO32, P, TWO32);
    }
  }

  lemma HighProductFits(L: int, H: int, d: int)
    requires 0 < d <= INT_MAX && 0 <= L < TWO64 && H == L / TWO32
    ensures 0 <= (H + 1) * d < TWO64
  {
    MulLeft(H + 1, TWO32, d);
    MulLeft(0, H + 1, d);
  }

  lemma ScaledLowBits(value: int, d: int, M: int, e: int, a: int, r: int)
    requires M * d == TWO64 + e && value == a * d + r
    ensures (a * e + M * r) * d == r * TWO64 + e * value
  {
    Distrib(d, a * e, M * r);
    Rotate(d, M, r);
    Rotate(d, a, e);
    Distrib(r, TWO64, e);
    Distrib(e, a * d, r);
  }

  lemma DivOfBounds(x: int, k: int, n: int)
    requires 0 < n && k * n <= x < (k + 1) * n
    ensures x / n == k
  {
    ModOfDecomposition(x, k, x - k * n, n);
  }

  lemma FastModFromParts(value: uint32, d: uint32, M: uint64, L: int, r: int)
    requires d <= INT_MAX && 0 <= r < TWO32
    requires (M * value) % TWO64 == L
    requires 0 <= (L / TWO32 + 1) * d < TWO64
    requires ((L / TWO32 + 1) * d) / TWO32 == r
    ensures FastMod(value, d, M) == r
  {
    var product := (L / TWO32 + 1) * d;
    assert product % TWO64 == product;
    assert (product % TWO64) / TWO32 == r;
  }

  lemma HighBitsAreRemainder(value: int, d: int, M: int, e: int, a: int, r: int)
    requires 2 <= d <= INT_MAX && 0 <= value < TWO32
    requires M * d == TWO64 + e && 0 <= e < d && M > 2 * TWO32
    requires value == a * d + r && 0 <= a && 0 <= r < d
    ensures var H := (a * e + M * r) / TWO32; ((H + 1) * d) / TWO32 == r
  {
    var L := a * e + M * r;
    var H := L / TWO32;
    LowBitsRange(value, d, M, e, a, r);
    ScaledLowBits(value, d, M, e, a, r);
    MulLeft(0, r, M);
    HighBitsLower(L, H, M, d, e, r);
    HighBitsUpper(value, L, H, d, e, r);
    MulLeft(r, r + 1, TWO32);
    DivOfBounds((H + 1) * d, r, TWO32);
  }

  lemma FastModOfDecomposition(value: uint32, d: uint32, M: uint64, e: int, a: int, r: int)
    requires 2 <= d <= INT_MAX
    requires M * d == TWO64 + e && 0 <= e < d && M > 2 * TWO32
    requires value == a * d + r && 0 <= a && 0 <= r < d
    ensures FastMod(value, d, M) == r
  {
    var L := a * e + M * r;
    LowBits(value, d, M, e, a, r);
    LowBitsRange(value, d, M, e, a, r);
    HighProductFits(L, L / TWO32, d);
    HighBitsAreRemainder(value, d, M, e, a, r);
    FastModFromParts(value, d, M, L, r);
  }

  /**
   * Lemire's fastmod: with the multiplier GetFastModMultiplier computes, FastMod
   * returns value % divisor for every divisor up to INT_MAX.
   */
  lemma FastModIsRemainder(value: uint32, divisor: uint32)
    requires 0 < divisor <= INT_MAX
    ensures FastMod(value, divisor, GetFastModMultiplier(divisor)) == value % divisor
  {
    if divisor > 1 {
      FastModAboveOne(value, divisor);
    } else {
      FastModByOne(value);
    }
  }

  lemma FastModAboveOne(value: uint32, divisor: uint32)
    requires 1 < divisor <= INT_MAX
    ensures FastMod(value, divisor, GetFastModMultiplier(divisor)) == value % divisor
  {
    var M, e := MultiplierFacts(divisor);
    var a, r := Decompose(value, divisor);
    FastModOfDecomposition(value, divisor, M, e, a, r);
  }

  /** value = a * d + r with r the remainder of value by d. */
  lemma Decompose(value: nat, d: nat) returns (a: nat, r: nat)
    requires d > 0
    ensures value == a * d + r && r < d && r == value % d
  {
    a, r := value / d, value % d;
  }

  /** Division by one: the multiplier is 0 and every value leaves remainder 0. */
  lemma FastModByOne(value: uint32)
    ensures FastMod(value, 1, GetFastModMultiplier(1)) == 0
  {
    assert GetFastModMultiplier(1) == 0;
  }

  // ---------------------------------------------------------------------------
  // JIT notifications: one entry of the table the debugger reads to learn
  // which methods it asked to be told about.
  // ---------------------------------------------------------------------------

  /** CLRDataMethodCodeNotification values. */
  const CLRDATA_METHNOTIFY_NONE: bv16 := 0
  const CLRDATA_METHNOTIFY_GENERATED: bv16 := 1
  const CLRDATA_METHNOTIFY_DISCARDED: bv16 := 2

  /** A notification value is valid when it sets no bit besides the GENERATED and DISCARDED flags. */
  predicate IsValidMethodCodeNotification(notification: bv16) {
    notification & !(CLRDATA_METHNOTIFY_GENERATED | CLRDATA_METHNOTIFY_DISCARDED) == 0
  }

  class JITNotification {
    var state: bv16
    var clrModule: uint64
    var methodToken: uint32

    constructor ()
      ensures IsFree() && clrModule == 0 && methodToken == 0
    {
      new;
      SetFree();
    }

    predicate IsFree()
      reads this
    {
      state == CLRDATA_METHNOTIFY_NONE
    }

    /** Frees the entry: no notification, and neither module nor token. */
    method SetFree()
      modifies this
      ensures IsFree()
      ensures state == CLRDATA_METHNOTIFY_NONE && clrModule == 0 && methodToken == 0
    {
      state := CLRDATA_METHNOTIFY_NONE;
      clrModule := 0;
      methodToken := 0;
    }

    /** Records a request for method token `tokenIn` of module `moduleIn`; NONE frees the entry. */
    method SetState(moduleIn: uint64, tokenIn: uint32, nType: bv16)
      requires IsValidMethodCodeNotification(nType)
      modifies this
      ensures clrModule == moduleIn && methodToken == tokenIn && state == nType
      ensures IsFree() <==> nType == CLRDATA_METHNOTIFY_NONE
    {
      clrModule := moduleIn;
      methodToken := tokenIn;
      state := nType;
    }
  }

  // ---------------------------------------------------------------------------
  // GC notifications.
  // ---------------------------------------------------------------------------

  /** GcEvt_t values. */
  const CLRDATA_GC_NONE: uint32 := 0
  const GC_MARK_END: uint32 := 1
  const GC_EVENT_TYPE_MAX: uint32 := 2

  /** GcEvtArgs: the event type and, for GC_MARK_END, the condemned generations as a bit set. */
  datatype GcEvtArgs = GcEvtArgs(typ: uint32, condemnedGeneration: bv32)

  function IsValidGcNotification(evType: uint32): (r: bool)
    ensures r <==> evType == CLRDATA_GC_NONE || evType == GC_MARK_END
  {
    evType < GC_EVENT_TYPE_MAX
  }

  class GcNotification {
    var ev: GcEvtArgs

    constructor ()
      ensures IsFree() && ev == GcEvtArgs(CLRDATA_GC_NONE, 0)
    {
      new;
      SetFree();
    }

    predicate IsFree()
      reads this
    {
      ev.typ == CLRDATA_GC_NONE
    }

    /** Clears the whole entry. */
    method SetFree()
      modifies this
      ensures ev == GcEvtArgs(CLRDATA_GC_NONE, 0) && IsFree()
    {
      ev := GcEvtArgs(CLRDATA_GC_NONE, 0);
    }

    method Set(ev': GcEvtArgs)
      requires IsValidGcNotification(ev'.typ)
      modifies this
      ensures ev == ev'
    {
      ev := ev';
    }

    /**
     * Whether the stored request covers the event `query`: only a GC_MARK_END
     * request matches, and only a GC_MARK_END event; it matches when the
     * event names no generation or shares a condemned generation with it.
     */
    function IsMatch(query: GcEvtArgs): (r: bool)
      reads this
      ensures r ==> ev.typ == query.typ == GC_MARK_END
      ensures IsFree() ==> !r
    {
      if ev.typ != query.typ then false
      else if ev.typ == GC_MARK_END then
        GenerationsOverlap(ev.condemnedGeneration, query.condemnedGeneration)
      else false
    }
  }

  /** An event's generation set is covered by a request's when it is empty or the two share a generation. */
  predicate GenerationsOverlap(requested: bv32, condemned: bv32) {
    condemned == 0 || requested & condemned != 0
  }

  /** The generation set holding generation g alone. */
  function GenerationBit(g: bv5): bv32 {
    1 << g
  }

  /**
   * A GC_MARK_END request for generation set `requested` matches the event
   * that condemns generation g alone exactly when g is in the set.
   */
  lemma MarkEndMatchesRequestedGeneration(n: GcNotification, requested: bv32, g: bv5)
    requires n.ev == GcEvtArgs(GC_MARK_END, requested)
    ensures n.IsMatch(GcEvtArgs(GC_MARK_END, GenerationBit(g))) <==> requested & GenerationBit(g) != 0
  {
    var bit := GenerationBit(g);
    GenerationBitNonZero(g);
    assert n.IsMatch(GcEvtArgs(GC_MARK_END, bit)) == GenerationsOverlap(requested, bit);
  }

  lemma GenerationBitNonZero(g: bv5)
    ensures GenerationBit(g) != 0
  {
  }

  /** A generation bit is either wholly inside a word or wholly outside it. */
  lemma GenerationBitIsSingle(x: bv32, g: bv5)
    ensures x & GenerationBit(g) == 0 || x & GenerationBit(g) == GenerationBit(g)
  {
  }

  /** A nonzero word has a set generation bit: the lowest one. */
  lemma LowestSetBit(x: bv32) returns (h: bv5)
    requires x != 0
    ensures x & GenerationBit(h) != 0
  {
    h := SetBitFrom(x, 0);
  }

  /** A nonzero word whose bits below h are clear has a set bit at h or above. */
  lemma {:induction false} SetBitFrom(x: bv32, h: bv5) returns (g: bv5)
    requires x != 0 && x & (GenerationBit(h) - 1) == 0
    ensures x & GenerationBit(g) != 0
    decreases 31 - h
  {
    if x & GenerationBit(h) != 0 {
      g := h;
    } else if h == 31 {
      TopBitSet(x);
      g := 31;
    } else {
      LowBitsStayClear(x, h);
      g := SetBitFrom(x, h + 1);
    }
  }

  /** Below a clear bit h, the bits below h + 1 are clear too. */
  lemma LowBitsStayClear(x: bv32, h: bv5)
    requires h < 31 && x & (GenerationBit(h) - 1) == 0 && x & GenerationBit(h) == 0
    ensures x & (GenerationBit(h + 1) - 1) == 0
  {
  }

  /** A nonzero word whose bits below 31 are clear has bit 31 set. */
  lemma TopBitSet(x: bv32)
    requires x != 0 && x & (GenerationBit(31) - 1) == 0
    ensures x & GenerationBit(31) != 0
  {
  }

  /**
   * A GC_MARK_END request matches a GC_MARK_END event exactly when the event
   * names no generation or some generation is both requested and condemned.
   */
  lemma MarkEndMatchesSharedGeneration(n: GcNotification, condemned: bv32)
    requires n.ev.typ == GC_MARK_END
    ensures n.IsMatch(GcEvtArgs(GC_MARK_END, condemned)) <==>
      condemned == 0 || SharedGeneration(n.ev.condemnedGeneration, condemned)
  {
    MarkEndMatchIsOverlap(n, condemned);
    CoveredIffShared(n.ev.condemnedGeneration, condemned);
  }

  /** Between two GC_MARK_END entries, matching is generation-set coverage. */
  lemma MarkEndMatchIsOverlap(n: GcNotification, condemned: bv32)
    requires n.ev.typ == GC_MARK_END
    ensures n.IsMatch(GcEvtArgs(GC_MARK_END, condemned)) == GenerationsOverlap(n.ev.condemnedGeneration, condemned)
  {
  }

  /** An event's generations are covered when it names none or shares one with the request. */
  lemma CoveredIffShared(requested: bv32, condemned: bv32)
    ensures GenerationsOverlap(requested, condemned) <==> condemned == 0 || SharedGeneration(requested, condemned)
  {
    OverlapIffSharedBit(requested, condemned);
  }

  /** Some generation is in both sets. */
  ghost predicate SharedGeneration(requested: bv32, condemned: bv32) {
    exists g: bv5 :: requested & GenerationBit(g) != 0 && condemned & GenerationBit(g) != 0
  }

  /** Two generation sets intersect exactly when some generation is in both. */
  lemma OverlapIffSharedBit(requested: bv32, condemned: bv32)
    ensures requested & condemned != 0 <==> SharedGeneration(requested, condemned)
  {
    if requested & condemned != 0 {
      var g := LowestSetBit(requested & condemned);
      SharedBitOfIntersection(requested, condemned, g);
    }
    forall g: bv5 | requested & GenerationBit(g) != 0 && condemned & GenerationBit(g) != 0
      ensures requested & condemned != 0
    {
      SharedBitInIntersection(requested, condemned, g);
    }
  }

  /** A bit of the intersection is a bit of both sets. */
  lemma SharedBitOfIntersection(requested: bv32, condemned: bv32, g: bv5)
    requires (requested & condemned) & GenerationBit(g) != 0
    ensures requested & GenerationBit(g) != 0 && condemned & GenerationBit(g) != 0
  {
  }

  /** A generation in both sets is in their intersection. */
  lemma SharedBitInIntersection(requested: bv32, condemned: bv32, g: bv5)
    requires requested & GenerationBit(g) != 0 && condemned & GenerationBit(g) != 0
    ensures requested & condemned != 0
  {
    GenerationBitIsSingle(requested, g);
    GenerationBitIsSingle(condemned, g);
    GenerationBitNonZero(g);
    assert (requested & condemned) & GenerationBit(g) == GenerationBit(g);
  }

  /** A GC_MARK_END event that names no generation matches every GC_MARK_END request. */
  lemma MarkEndWithoutGenerationMatches(n: GcNotification)
    requires n.ev.typ == GC_MARK_END
    ensures n.IsMatch(GcEvtArgs(GC_MARK_END, 0))
  {
  }
}
