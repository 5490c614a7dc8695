/**
 Compressed capability bounds: what an encoding decodes to, which ranges some encoding
 expresses, and the choice of a shorter range when the one asked for is not among them.

 The alignment-mask instruction is taken by its contract: it gives the mask of the least
 exponent of the encoding at which the length, rounded up to that many units, fits 511.
 */
module CapabilityBounds {
  import opened Arith
  import opened Basics

  datatype Range = Range(base: int, top: int)

  // ---------------------------------------------------------------- decoding

  /** The exponent of an encoded `E` field; fifteen stands for the whole address space. */
  function Exponent(E: nat): nat {
    if E == 15 then 24 else E
  }

  /** The bounds from the address's top and middle bits, with the corrections for crossing a 512-unit boundary. */
  function DecodeFields(aTop: int, aMid: nat, u: nat, B: nat, T: nat): Range {
    var aHi := if aMid < B then 1 else 0;
    var tHi := if T < B then 1 else 0;
    Range(((aTop - aHi) * 512 + B) * u, ((aTop + tHi - aHi) * 512 + T) * u)
  }

  /** The bounds of a capability from its fields and its address. */
  function Decode(addr: nat, e: nat, B: nat, T: nat): Range {
    DecodeFields(Shr(addr, e + 9), Shr(addr, e) % 512, Pow2(e), B, T)
  }

  /** The base in units of 2^e: the last number at or below the address's that ends in `B`. */
  function BaseUnits(v: int, B: nat): (b: int)
    requires B < 512
    ensures b <= v < b + 512 && b % 512 == B
  {
    v - (v - B) % 512
  }

  lemma BaseUnitsUnique(v: int, b: int, B: nat)
    requires B < 512 && b <= v < b + 512 && b % 512 == B
    ensures BaseUnits(v, B) == b
  {}

  lemma TopDigits(addr: nat, e: nat)
    ensures Shr(addr, e + 9) == Shr(addr, e) / 512
  {
    ShrTwice(addr, e, 9);
    NineBits(Shr(addr, e));
  }

  lemma NineBits(v: nat)
    ensures Shr(v, 9) == v / 512
  {
    assert Shr(v, 3) == v / 8;
    ShrTwice(v, 3, 3);
    assert Shr(v / 8, 3) == v / 64;
    ShrTwice(v, 6, 3);
    assert Shr(v / 64, 3) == v / 512;
  }

  /** The carries of the decoder, in units. */
  lemma Carries(v: nat, B: nat, T: nat)
    requires B < 512 && T < 512
    ensures var aHi, tHi := if v % 512 < B then 1 else 0, if T < B then 1 else 0;
            && (v / 512 - aHi) * 512 + B == BaseUnits(v, B)
            && (v / 512 + tHi - aHi) * 512 + T == BaseUnits(v, B) + (T - B) % 512
  {}

  lemma FieldsInUnits(v: nat, u: nat, B: nat, T: nat)
    requires B < 512 && T < 512
    ensures DecodeFields(v / 512, v % 512, u, B, T)
         == Range(BaseUnits(v, B) * u, (BaseUnits(v, B) + (T - B) % 512) * u)
  {
    Carries(v, B, T);
  }

  /** In units, decoding finds the base below the address and the length modulo 512. */
  lemma DecodeInUnits(addr: nat, e: nat, B: nat, T: nat)
    requires B < 512 && T < 512
    ensures var u, b := Pow2(e), BaseUnits(Shr(addr, e), B);
            Decode(addr, e, B, T) == Range(b * u, (b + (T - B) % 512) * u)
  {
    TopDigits(addr, e);
    FieldsInUnits(Shr(addr, e), Pow2(e), B, T);
  }

  lemma UnitBounds(x: int, b: int, n: int, u: nat)
    requires u > 0
    ensures b <= x / u < b + n <==> b * u <= x < (b + n) * u
  {
    DivAtLeast(x, b, u);
    DivAtLeast(x, b + n, u);
  }

  lemma DivAtLeast(x: int, b: int, u: nat)
    requires u > 0
    ensures b <= x / u <==> b * u <= x
  {
    var q := x / u;
    assert x == q * u + x % u;
    if b <= q {
      assert (q - b) * u >= 0;
    } else {
      assert (b - q) * u >= u by { MulAtLeast(b - q, u); }
    }
  }

  lemma WindowSize(e: nat)
    ensures Pow2(e + 9) == 512 * Pow2(e)
  {
    Pow2Splits(e, e + 9);
    assert Pow2(9) == 512;
  }

  /** The window of 512 units above unit `b`. */
  lemma Window(x: int, b: int, u: nat)
    requires u > 0
    ensures b <= x / u < b + 512 <==> b * u <= x < b * u + 512 * u
  {
    UnitBounds(x, b, 512, u);
    assert (b + 512) * u == b * u + 512 * u;
  }

  lemma Distribute(b: int, n: int, u: nat)
    ensures (b + n) * u - b * u == n * u
  {}

  /** Decoding puts the address in the window above the base, and gives this length. */
  lemma DecodeWindow(addr: nat, e: nat, B: nat, T: nat)
    requires B < 512 && T < 512
    ensures Decode(addr, e, B, T).base <= addr < Decode(addr, e, B, T).base + Pow2(e + 9)
    ensures Decode(addr, e, B, T).top - Decode(addr, e, B, T).base == (T - B) % 512 * Pow2(e)
  {
    var b := BaseUnits(Shr(addr, e), B);
    DecodeInUnits(addr, e, B, T);
    Window(addr, b, Pow2(e));
    ShrIsDiv(addr, e);
    WindowSize(e);
    Distribute(b, (T - B) % 512, Pow2(e));
  }

  lemma {:induction false} CancelUnit(x: int, y: int, u: nat)
    requires u > 0 && x * u == y * u
    ensures x == y
  {
    NoMultipleBetween(x - y, u);
  }

  /** Another address has the same bounds exactly when it is in the same window. */
  lemma SameBoundsIffSameWindow(addr: nat, addr': nat, e: nat, B: nat, T: nat)
    requires B < 512 && T < 512
    ensures Decode(addr', e, B, T) == Decode(addr, e, B, T)
            <==> Decode(addr, e, B, T).base <= addr' < Decode(addr, e, B, T).base + Pow2(e + 9)
  {
    var u := Pow2(e);
    var b, b' := BaseUnits(Shr(addr, e), B), BaseUnits(Shr(addr', e), B);
    DecodeInUnits(addr, e, B, T);
    DecodeInUnits(addr', e, B, T);
    WindowSize(e);
    Window(addr', b, u);
    ShrIsDiv(addr', e);
    if b <= Shr(addr', e) < b + 512 {
      BaseUnitsUnique(Shr(addr', e), b, B);
    } else if b' * u == b * u {
      CancelUnit(b', b, u);
    }
  }

  // ---------------------------------------------------------------- representable ranges

  /** The exponents the `E` field can name. */
  predicate LegalExponent(e: nat) {
    e <= 14 || e == 24
  }

  lemma FieldNamesExponents(e: nat)
    ensures LegalExponent(e) <==> exists E: nat :: E <= 15 && Exponent(E) == e
    ensures (e <= 14 ==> Exponent(e) == e) && Exponent(15) == 24
  {
    if e <= 14 { assert Exponent(e) == e; } else { assert Exponent(15) == 24; }
  }

  /** Some encoding at this address decodes to exactly these bytes. */
  ghost predicate Representable(addr: nat, len: nat) {
    exists e: nat, B: nat, T: nat :: Encodes(addr, len, e, B, T)
  }

  predicate Encodes(addr: nat, len: nat, e: nat, B: nat, T: nat) {
    LegalExponent(e) && B < 512 && T < 512 && Decode(addr, e, B, T) == Range(addr, addr + len)
  }

  /** The bounds as decoded from the fields of a capability word and its address. */
  function DecodeCapability(addr: nat, E: nat, B: nat, T: nat): Range {
    Decode(addr, Exponent(E), B, T)
  }

  /** Representable is: some four-bit exponent and two nine-bit fields decode to exactly these bytes. */
  lemma RepresentableByFields(addr: nat, len: nat)
    ensures Representable(addr, len)
            <==> exists E: nat, B: nat, T: nat ::
                   E <= 15 && B < 512 && T < 512 && DecodeCapability(addr, E, B, T) == Range(addr, addr + len)
  {
    if Representable(addr, len) {
      var e: nat, B: nat, T: nat :| Encodes(addr, len, e, B, T);
      FieldNamesExponents(e);
      var E := if e == 24 then 15 else e;
      assert DecodeCapability(addr, E, B, T) == Range(addr, addr + len);
    }
    forall E: nat, B: nat, T: nat
      | E <= 15 && B < 512 && T < 512 && DecodeCapability(addr, E, B, T) == Range(addr, addr + len)
      ensures Representable(addr, len)
    {
      assert Encodes(addr, len, Exponent(E), B, T);
    }
  }

  /** `x` rounded down to a multiple of 2^e. */
  function RoundDown(x: nat, e: nat): nat {
    Shr(x, e) * Pow2(e)
  }

  predicate Multiple(x: nat, e: nat) {
    RoundDown(x, e) == x
  }

  /** Base and length are whole units of 2^e and the length has nine bits of them. */
  predicate FitsAt(addr: nat, len: nat, e: nat) {
    LegalExponent(e) && Multiple(addr, e) && Multiple(len, e) && Shr(len, e) <= 511
  }

  lemma ShrOfMultiple(n: nat, e: nat)
    ensures Shr(n * Pow2(e), e) == n
  {
    ShrIsDiv(n * Pow2(e), e);
    DivModUnique(n * Pow2(e), n, 0, Pow2(e));
  }

  lemma UnitsAreMultiples(n: int, x: nat, e: nat)
    requires x == n * Pow2(e)
    ensures n >= 0 && Shr(x, e) == n && Multiple(x, e)
  {
    if n < 0 { MulAtLeast(-n, Pow2(e)); }
    ShrOfMultiple(n, e);
  }

  lemma DecodeAtUnits(addr: nat, e: nat, B: nat, T: nat, b: int, n: nat)
    requires B < 512 && T < 512 && BaseUnits(Shr(addr, e), B) == b && (T - B) % 512 == n
    ensures Decode(addr, e, B, T) == Range(b * Pow2(e), b * Pow2(e) + n * Pow2(e))
  {
    DecodeInUnits(addr, e, B, T);
    Distribute(b, n, Pow2(e));
  }

  lemma EncodedFits(addr: nat, len: nat, e: nat, B: nat, T: nat)
    requires Encodes(addr, len, e, B, T)
    ensures FitsAt(addr, len, e)
  {
    var b, n := BaseUnits(Shr(addr, e), B), (T - B) % 512;
    DecodeAtUnits(addr, e, B, T, b, n);
    UnitsAreMultiples(b, addr, e);
    UnitsAreMultiples(n, len, e);
  }

  lemma FieldsEncode(addr: nat, len: nat, e: nat, B: nat, T: nat)
    requires FitsAt(addr, len, e) && B < 512 && T < 512
    requires BaseUnits(Shr(addr, e), B) == Shr(addr, e) && (T - B) % 512 == Shr(len, e)
    ensures Encodes(addr, len, e, B, T)
  {
    DecodeAtUnits(addr, e, B, T, Shr(addr, e), Shr(len, e));
  }

  lemma FittingEncodes(addr: nat, len: nat, e: nat) returns (B: nat, T: nat)
    requires FitsAt(addr, len, e)
    ensures Encodes(addr, len, e, B, T)
  {
    B, T := UnitFields(Shr(addr, e), Shr(len, e));
    FieldsEncode(addr, len, e, B, T);
  }

  /** Some fields decode to unit `v` and length `n`. */
  lemma UnitFields(v: nat, n: nat) returns (B: nat, T: nat)
    requires n <= 511
    ensures B < 512 && T < 512 && BaseUnits(v, B) == v && (T - B) % 512 == n
  {
    B := v % 512;
    T := if B + n < 512 then B + n else B + n - 512;
    BaseUnitsUnique(v, v, B);
  }

  /** A range is representable exactly when it is whole units at some exponent. */
  lemma RepresentableIffFits(addr: nat, len: nat)
    ensures Representable(addr, len) <==> exists e: nat :: FitsAt(addr, len, e)
  {
    if Representable(addr, len) {
      var e: nat, B: nat, T: nat :| Encodes(addr, len, e, B, T);
      EncodedFits(addr, len, e, B, T);
    }
    if e: nat :| FitsAt(addr, len, e) {
      var B, T := FittingEncodes(addr, len, e);
    }
  }

  // ---------------------------------------------------------------- the alignment mask

  /** The length, rounded up to units of 2^e, is at most 511 of them. */
  predicate Fits(len: nat, e: nat) {
    len <= 511 * Pow2(e)
  }

  lemma FitsIsRoundedUp(len: nat, e: nat)
    ensures Fits(len, e) <==> Shr(len + Pow2(e) - 1, e) <= 511
  {
    var u := Pow2(e);
    ShrIsDiv(len + u - 1, e);
    DivAtLeast(len + u - 1, 512, u);
  }

  /** The least exponent from `e` on at which the length fits. */
  function LeastExponent(len: nat, e: nat): (r: nat)
    requires e <= 15
    ensures LegalExponent(r)
    decreases 15 - e
  {
    if e == 15 then 24 else if Fits(len, e) then e else LeastExponent(len, e + 1)
  }

  /** The contract of the alignment-mask instruction. */
  function MaskExponent(len: nat): nat {
    LeastExponent(len, 0)
  }

  lemma {:induction false} FitsUpward(len: nat, e: nat, e': nat)
    requires Fits(len, e) && e <= e'
    ensures Fits(len, e')
  {
    Pow2Monotone(e, e');
  }

  lemma {:induction false} LeastExponentIsLeast(len: Word, e: nat)
    requires e <= 15 && (e > 0 ==> !Fits(len, e - 1))
    ensures var r := LeastExponent(len, e);
            Fits(len, r) && (0 < r <= 14 ==> !Fits(len, r - 1)) && (r == 24 ==> !Fits(len, 14))
    decreases 15 - e
  {
    if e == 15 {
      Pow2Of24();
    } else if !Fits(len, e) {
      LeastExponentIsLeast(len, e + 1);
    }
  }

  lemma Pow2Of24()
    ensures Pow2(14) == 0x4000 && Pow2(24) == 0x100_0000
  {
    assert Pow2(7) == 128;
    Pow2Splits(7, 14);
    assert Pow2(10) == 1024;
    Pow2Splits(14, 24);
  }

  /** No legal exponent below the mask's fits. */
  lemma MaskIsLeast(len: Word, e: nat)
    requires LegalExponent(e) && Fits(len, e)
    ensures MaskExponent(len) <= e
  {
    var r := MaskExponent(len);
    LeastExponentIsLeast(len, 0);
    if e < r {
      if r == 24 { FitsUpward(len, e, 14); } else { FitsUpward(len, e, r - 1); }
    }
  }

  lemma MultipleStep(x: nat, e: nat)
    requires e > 0
    ensures Multiple(x, e) <==> x % 2 == 0 && Multiple(x / 2, e - 1)
  {
    var y := Shr(x / 2, e - 1);
    assert y * Pow2(e) == 2 * (y * Pow2(e - 1));
  }

  lemma {:induction false} MultipleDown(x: nat, e: nat, e': nat)
    requires Multiple(x, e) && e' <= e
    ensures Multiple(x, e')
    decreases e
  {
    if e' > 0 {
      MultipleStep(x, e);
      MultipleStep(x, e');
      MultipleDown(x / 2, e - 1, e' - 1);
    }
  }

  lemma UnitsFit(len: nat, e: nat)
    requires Multiple(len, e)
    ensures Shr(len, e) <= 511 <==> Fits(len, e)
  {
    ShrIsDiv(len, e);
    DivAtLeast(len, 512, Pow2(e));
    UnitGap(Shr(len, e), Pow2(e));
  }

  lemma UnitGap(n: nat, u: nat)
    requires u > 0
    ensures n * u <= 511 * u <==> n <= 511
  {
    if n > 511 { MulAtLeast(n - 511, u); } else { MulLe(n, 511, u); }
  }

  /** The library's test for a precisely representable range. */
  predicate IsPreciseRange(base: nat, size: nat) {
    Multiple(base, MaskExponent(size)) && Multiple(size, MaskExponent(size))
  }

  /** The test is exact: it accepts a range just when some encoding decodes to it. */
  lemma PreciseIffRepresentable(base: nat, size: Word)
    ensures IsPreciseRange(base, size) <==> Representable(base, size)
  {
    var r := MaskExponent(size);
    RepresentableIffFits(base, size);
    LeastExponentIsLeast(size, 0);
    if IsPreciseRange(base, size) {
      UnitsFit(size, r);
      assert FitsAt(base, size, r);
    }
    if e: nat :| FitsAt(base, size, e) {
      UnitsFit(size, e);
      MaskIsLeast(size, e);
      MultipleDown(base, e, r);
      MultipleDown(size, e, r);
    }
  }

  // ---------------------------------------------------------------- choosing a shorter range

  /** Trailing zero bits. */
  function Ctz(n: nat): nat
    requires n > 0
  {
    if n % 2 == 1 then 0 else 1 + Ctz(n / 2)
  }

  lemma {:induction false} MultipleIffCtz(n: nat, k: nat)
    requires n > 0
    ensures Multiple(n, k) <==> k <= Ctz(n)
    decreases n
  {
    if k > 0 {
      MultipleStep(n, k);
      if n % 2 == 0 { MultipleIffCtz(n / 2, k - 1); }
    }
  }

  lemma CtzBound(n: nat)
    requires 0 < n < 0x1_0000_0000
    ensures Ctz(n) <= 31
  {
    var k := Ctz(n);
    MultipleIffCtz(n, k);
    if k > 31 {
      MultipleDown(n, k, 32);
      ShrIsDiv(n, 32);
      Pow2Word(32);
    }
  }

  /** Nine one bits starting at the lowest one bit of the address, in 32 bits. */
  function MaximumLength(addr: nat): nat
    requires addr > 0
  {
    511 * Pow2(Ctz(addr)) % 0x1_0000_0000
  }

  function AlignedLength(bounds: nat): nat {
    RoundDown(bounds, MaskExponent(bounds))
  }

  /** The length of the slow path. */
  function SlowLength(addr: nat, bounds: nat): nat
    requires addr > 0
  {
    if AlignedLength(bounds) < MaximumLength(addr) then AlignedLength(bounds) else MaximumLength(addr)
  }

  /** The length finally set. */
  function ChosenLength(addr: nat, bounds: nat): nat
    requires addr > 0
  {
    if IsPreciseRange(addr, bounds) then bounds else SlowLength(addr, bounds)
  }

  lemma RoundDownBelow(x: nat, e: nat)
    ensures RoundDown(x, e) <= x < RoundDown(x, e) + Pow2(e)
    ensures Multiple(RoundDown(x, e), e) && Shr(RoundDown(x, e), e) == Shr(x, e)
  {
    ShrIsDiv(x, e);
    ShrOfMultiple(Shr(x, e), e);
    assert x == (x / Pow2(e)) * Pow2(e) + x % Pow2(e);
  }

  lemma {:induction false} Pow2Doubles(j: nat, k: nat)
    requires j < k
    ensures 2 * Pow2(j) <= Pow2(k)
  {
    Pow2Monotone(j, k - 1);
  }

  /** The maximum length by the alignment of the address. */
  lemma MaximumLengthCases(addr: nat)
    requires 0 < addr < 0x1_0000_0000
    ensures var k, m := Ctz(addr), MaximumLength(addr);
            && k <= 31
            && (k <= 23 ==> m == 511 * Pow2(k))
            && (k >= 24 ==> m == 0x1_0000_0000 - Pow2(k) && m >= 0x100_0000 && Multiple(m, 24))
  {
    var k := Ctz(addr);
    CtzBound(addr);
    if k <= 23 {
      Pow2Of23(k);
    } else {
      WrappedMaximum(k);
    }
  }

  lemma Pow2Of23(k: nat)
    requires k <= 23
    ensures 511 * Pow2(k) % 0x1_0000_0000 == 511 * Pow2(k)
  {
    Pow2Monotone(k, 23);
    Pow2Of24();
    assert Pow2(24) == 2 * Pow2(23);
  }

  lemma WrappedMaximum(k: nat)
    requires 24 <= k <= 31
    ensures var m := 511 * Pow2(k) % 0x1_0000_0000;
            m == 0x1_0000_0000 - Pow2(k) && m >= 0x100_0000 && Multiple(m, 24)
  {
    var u := Pow2(k - 24);
    Pow2Of24();
    Pow2Splits(24, k);
    UnitsAtMost128(k - 24);
    WrapUnits(u);
    UnitsAreMultiples(256 - u, (256 - u) * Pow2(24), 24);
  }

  lemma UnitsAtMost128(k: nat)
    requires k <= 7
    ensures 1 <= Pow2(k) <= 128
  {
    assert Pow2(7) == 128;
    Pow2Monotone(k, 7);
  }

  lemma WrapUnits(u: nat)
    requires 1 <= u <= 128
    ensures 511 * (0x100_0000 * u) % 0x1_0000_0000 == (256 - u) * 0x100_0000
  {
    // 511u units of 2^24 are 2u whole address spaces less u units.
    assert 511 * (0x100_0000 * u) == (2 * u - 1) * 0x1_0000_0000 + (256 - u) * 0x100_0000;
  }

  const SMALL := 0x7f_c000        // 511 * 2^14
  const LARGE := 0x100_0000       // 2^24

  /** The mask's exponent by the size of the request. */
  lemma MaskCases(bounds: Word)
    ensures MaskExponent(bounds) <= 14 <==> bounds <= SMALL
    ensures MaskExponent(bounds) == 24 <==> bounds > SMALL
  {
    Pow2Of24();
    LeastExponentIsLeast(bounds, 0);
    if bounds <= SMALL { MaskIsLeast(bounds, 14); }
    else if MaskExponent(bounds) <= 14 { FitsUpward(bounds, MaskExponent(bounds), 14); }
  }

  /** Rounding a small request down loses less than the whole of it. */
  lemma AlignedIsPositive(bounds: Word)
    requires 0 < bounds <= SMALL
    ensures AlignedLength(bounds) > 0
  {
    var e := MaskExponent(bounds);
    MaskCases(bounds);
    LeastExponentIsLeast(bounds, 0);
    RoundDownBelow(bounds, e);
    if e > 0 {
      assert Pow2(e) == 2 * Pow2(e - 1);
    }
  }

  /** A small request: what the slow path sets is representable, shorter, and empty only for an empty request. */
  lemma SmallRequest(addr: Word, bounds: Word)
    requires addr > 0 && bounds <= SMALL
    ensures SlowLength(addr, bounds) <= bounds
    ensures exists e: nat :: FitsAt(addr, SlowLength(addr, bounds), e)
    ensures SlowLength(addr, bounds) == 0 ==> bounds == 0
  {
    var e, k, r := MaskExponent(bounds), Ctz(addr), SlowLength(addr, bounds);
    MaskCases(bounds);
    RoundDownBelow(bounds, e);
    MaximumLengthCases(addr);
    if bounds > 0 { AlignedIsPositive(bounds); }
    if r == MaximumLength(addr) {
      SmallMaximum(addr, bounds);
      MaximumFits(addr);
    } else if k < e {
      AlignedFits(addr, r, e, k);
    } else {
      LeastExponentIsLeast(bounds, 0);
      AlignedFits(addr, r, e, e);
    }
  }

  /** A maximum no longer than a small request belongs to an address of small alignment. */
  lemma SmallMaximum(addr: Word, bounds: Word)
    requires addr > 0 && bounds <= SMALL && MaximumLength(addr) <= bounds
    ensures Ctz(addr) <= 14
  {
    var k := Ctz(addr);
    MaximumLengthCases(addr);
    Pow2Of24();
    if 15 <= k <= 23 { Pow2Doubles(14, k); }
  }

  lemma MaximumFits(addr: Word)
    requires addr > 0 && Ctz(addr) <= 14
    ensures FitsAt(addr, MaximumLength(addr), Ctz(addr))
  {
    MaximumLengthCases(addr);
    MultipleIffCtz(addr, Ctz(addr));
    UnitsAreMultiples(511, MaximumLength(addr), Ctz(addr));
  }

  lemma AlignedFits(addr: Word, r: nat, e: nat, e': nat)
    requires addr > 0 && Multiple(r, e) && e' <= e && e' <= Ctz(addr) && LegalExponent(e') && Fits(r, e')
    ensures FitsAt(addr, r, e')
  {
    MultipleIffCtz(addr, e');
    MultipleDown(r, e, e');
    UnitsFit(r, e');
  }

  /** Between the two exponents the mask clears the whole request. */
  lemma MiddleRequest(addr: Word, bounds: Word)
    requires addr > 0 && SMALL < bounds < LARGE
    ensures SlowLength(addr, bounds) == 0
    ensures exists e: nat :: FitsAt(addr, 0, e)
  {
    MaskCases(bounds);
    Pow2Of24();
    ShrIsDiv(bounds, 24);
    assert FitsAt(addr, 0, 0);
  }

  /** A large request at an address aligned to 2^24, or to at most 2^14. */
  lemma LargeRequest(addr: Word, bounds: Word)
    requires addr > 0 && bounds >= LARGE && (Ctz(addr) <= 14 || Ctz(addr) >= 24)
    ensures 0 < SlowLength(addr, bounds) <= bounds
    ensures exists e: nat :: FitsAt(addr, SlowLength(addr, bounds), e)
  {
    var k, r := Ctz(addr), SlowLength(addr, bounds);
    LargeAligned(bounds);
    MaximumLengthCases(addr);
    if k <= 14 {
      Pow2Of24();
      Pow2Monotone(k, 14);
      MaximumFits(addr);
    } else {
      Pow2Of24();
      AlignedFits(addr, r, 24, 24);
    }
  }

  lemma LargeAligned(bounds: Word)
    requires bounds >= LARGE
    ensures LARGE <= AlignedLength(bounds) <= bounds && Multiple(AlignedLength(bounds), 24)
  {
    MaskCases(bounds);
    RoundDownBelow(bounds, 24);
    Pow2Of24();
    ShrIsDiv(bounds, 24);
  }

  /** In between no exponent is both fine enough for the address and coarse enough for the length. */
  lemma LargeMisfit(addr: Word, bounds: Word, e: nat)
    requires addr > 0 && bounds >= LARGE && 15 <= Ctz(addr) <= 23
    ensures !FitsAt(addr, SlowLength(addr, bounds), e)
    ensures 0 < SlowLength(addr, bounds) <= bounds
  {
    var k, r := Ctz(addr), SlowLength(addr, bounds);
    LargeAligned(bounds);
    MaximumLengthCases(addr);
    Pow2Of24();
    Pow2Doubles(14, k);
    assert r > SMALL;
    MultipleIffCtz(addr, e);
    if FitsAt(addr, r, e) {
      UnitsFit(r, e);
      FitsUpward(r, e, 14);
    }
  }

  /** The request is one the slow path serves: not both large and at an address of middling alignment. */
  predicate Served(addr: nat, bounds: nat)
    requires addr > 0
  {
    bounds < LARGE || Ctz(addr) <= 14 || Ctz(addr) >= 24
  }

  /**
   For every address and request the length set is at most the request, and the final exact set
   succeeds precisely when the request was representable as it stands or is served.  An empty
   range comes of a non-empty request exactly between the encoding's two largest exponents.
   */
  lemma ChosenLengthIsExact(addr: Word, bounds: Word)
    requires addr > 0
    ensures ChosenLength(addr, bounds) <= bounds
    ensures Representable(addr, ChosenLength(addr, bounds)) <==> Representable(addr, bounds) || Served(addr, bounds)
    ensures ChosenLength(addr, bounds) == 0 && bounds > 0
            <==> !Representable(addr, bounds) && SMALL < bounds < LARGE
  {
    var r := ChosenLength(addr, bounds);
    PreciseIffRepresentable(addr, bounds);
    RepresentableIffFits(addr, r);
    if !IsPreciseRange(addr, bounds) {
      if bounds <= SMALL { SmallRequest(addr, bounds); }
      else if bounds < LARGE { MiddleRequest(addr, bounds); }
      else if Served(addr, bounds) { LargeRequest(addr, bounds); }
      else { LargeMisfit(addr, bounds, 0); forall e: nat { LargeMisfit(addr, bounds, e); } }
    }
  }

  /** Within the range of the ordinary exponents every request is met, by a range that is empty only if asked for. */
  lemma SmallRequestsSucceed(addr: Word, bounds: Word)
    requires addr > 0 && bounds <= SMALL
    ensures Representable(addr, ChosenLength(addr, bounds))
    ensures ChosenLength(addr, bounds) == 0 <==> bounds == 0
  {
    ChosenLengthIsExact(addr, bounds);
  }

  lemma FittingIsBelowMaximum(addr: Word, len: nat, e: nat)
    requires addr > 0 && FitsAt(addr, len, e) && (Ctz(addr) <= 23 || addr + len <= 0x1_0000_0000)
    ensures len <= MaximumLength(addr)
  {
    var k := Ctz(addr);
    MaximumLengthCases(addr);
    if k <= 23 {
      MultipleIffCtz(addr, e);
      UnitsFit(len, e);
      FitsUpward(len, e, k);
    } else {
      MultipleIffCtz(addr, k);
      MultipleIsLarge(addr, k);
    }
  }

  lemma MultipleIsLarge(x: nat, k: nat)
    requires x > 0 && Multiple(x, k)
    ensures x >= Pow2(k)
  {
    MulAtLeast(Shr(x, k), Pow2(k));
  }

  /**
   Not wildly too small: no representable length within the request, and within the address space,
   exceeds the one chosen by a unit of the request's own mask.  For a small request that is less than
   two parts in 511 of it.
   */
  lemma ChosenLengthIsNearlyLargest(addr: Word, bounds: Word, len: nat)
    requires addr > 0 && len <= bounds && Representable(addr, len)
    requires bounds <= SMALL || addr + len <= 0x1_0000_0000
    ensures len < ChosenLength(addr, bounds) + Pow2(MaskExponent(bounds))
    ensures bounds <= SMALL && len > ChosenLength(addr, bounds) ==>
              511 * (len - ChosenLength(addr, bounds)) < 2 * bounds
  {
    var e, r := MaskExponent(bounds), ChosenLength(addr, bounds);
    RoundDownBelow(bounds, e);
    if r == MaximumLength(addr) && r < len {
      if bounds <= SMALL { SmallMaximum(addr, bounds); }
      RepresentableIffFits(addr, len);
      var e' :| FitsAt(addr, len, e');
      FittingIsBelowMaximum(addr, len, e');
    }
    MaskCases(bounds);
    LeastExponentIsLeast(bounds, 0);
  }

  lemma CtzOf8000()
    ensures Ctz(0x8000) == 15
  {
    assert Ctz(0x8) == 3;
    assert Ctz(0x80) == 7;
    assert Ctz(0x800) == 11;
  }

  /** A large request at an address aligned to 2^15: the capability comes back invalid. */
  lemma LargeRequestCanFail()
    ensures !Representable(0x8000, ChosenLength(0x8000, LARGE))
  {
    CtzOf8000();
    PreciseIffRepresentable(0x8000, LARGE);
    MaskCases(LARGE);
    MultipleIffCtz(0x8000, 24);
    ChosenLengthIsExact(0x8000, LARGE);
  }

  // ---------------------------------------------------------------- the object itself

  /** A capability: its bounds, its address and whether it is still valid. */
  datatype Capability = Capability(valid: bool, base: nat, top: nat, address: nat)

  /** Setting bounds from the address on: the result is valid if they are within and exactly representable. */
  function SetExact(c: Capability, bounds: nat): Capability {
    Capability(c.valid && c.base <= c.address && c.address + bounds <= c.top && IsPreciseRange(c.address, bounds),
               c.address, c.address + bounds, c.address)
  }

  lemma SlowLengthFits(addr: Word, bounds: Word)
    requires addr > 0
    ensures SlowLength(addr, bounds) <= bounds
  {
    RoundDownBelow(bounds, MaskExponent(bounds));
  }

  /** An exact set is valid exactly for a representable range inside the old bounds, and is then that range. */
  lemma ExactSetIff(c: Capability, bounds: Word)
    ensures var d := SetExact(c, bounds);
            && d.base == d.address == c.address && d.top == c.address + bounds
            && (d.valid <==> c.valid && c.base <= d.base && d.top <= c.top && Representable(c.address, bounds))
  {
    PreciseIffRepresentable(c.address, bounds);
  }

  /** Bounds only ever shrink, and a valid result is exactly representable. */
  lemma SetShrinks(c: Capability, length: Word, bounds: Word)
    requires length <= bounds
    ensures Shrunk(c, SetExact(c, length), bounds)
  {
    ExactSetIff(c, length);
  }

  ghost predicate Shrunk(c: Capability, d: Capability, bounds: Word) {
    && d.base == d.address == c.address && d.base <= d.top <= d.base + bounds
    && (d.valid ==> c.valid && c.base <= d.base && d.top <= c.top && Representable(d.base, d.top - d.base))
  }

  /** The proxy through which a capability's bounds are replaced. */
  class BoundsProxy {
    var cap: Capability

    constructor (c: Capability)
      ensures cap == c
    {
      cap := c;
    }

    method SetInexactAtMostSlow(bounds: Word)
      requires cap.address > 0
      modifies this
      ensures cap == SetExact(old(cap), SlowLength(old(cap.address), bounds))
    {
      var maximumLength := 511 * Pow2(Ctz(cap.address)) % 0x1_0000_0000;
      var alignedLength := RoundDown(bounds, MaskExponent(bounds));
      var length := if alignedLength < maximumLength then alignedLength else maximumLength;
      cap := SetExact(cap, length);
    }

    /** Set the bounds asked for, or failing that the slow path's. */
    method SetInexactAtMost(bounds: Word)
      requires 0 < cap.address < 0x1_0000_0000
      modifies this
      ensures cap == if SetExact(old(cap), bounds).valid then SetExact(old(cap), bounds)
                     else SetExact(old(cap), SlowLength(old(cap.address), bounds))
      ensures Shrunk(old(cap), cap, bounds)
    {
      SetShrinks(cap, bounds, bounds);
      SlowLengthFits(cap.address, bounds);
      SetShrinks(cap, SlowLength(cap.address, bounds), bounds);
      var p := SetExact(cap, bounds);
      if p.valid {
        cap := p;
      } else {
        SetInexactAtMostSlow(bounds);
      }
    }

    /** The same, for a valid capability whose bounds hold the request. */
    method SetWithinBounds(bounds: Word)
      requires cap.valid && cap.base <= cap.address && 0 < cap.address < 0x1_0000_0000
      requires cap.address + bounds <= cap.top
      modifies this
      ensures cap.base == cap.address == old(cap.address)
      ensures cap.top == cap.base + ChosenLength(old(cap.address), bounds) <= cap.base + bounds
      ensures cap.valid <==> Representable(old(cap.address), bounds) || Served(old(cap.address), bounds)
      ensures cap.valid ==> Representable(cap.base, cap.top - cap.base)
    {
      ChosenLengthIsExact(cap.address, bounds);
      PreciseIffRepresentable(cap.address, bounds);
      PreciseIffRepresentable(cap.address, ChosenLength(cap.address, bounds));
      SetInexactAtMost(bounds);
    }
  }
}
