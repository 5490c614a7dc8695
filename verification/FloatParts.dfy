/**
 Splitting a floating-point value into the parts that are printed, over exact reals:
 scaling into [1, 10) by binary powers of ten, then rounding with carry.
 */
module FloatParts {
  import opened Arith

  // ---------------------------------------------------------------- decimal shifts

  /** `a` times ten to the `k`, one decimal place at a time. */
  function Shift(a: real, k: int): real
    decreases if k < 0 then -k else k
  {
    if k == 0 then a else if k > 0 then 10.0 * Shift(a, k - 1) else Shift(a, k + 1) / 10.0
  }

  function TenTo(k: int): real {
    Shift(1.0, k)
  }

  lemma ShiftNext(a: real, k: int)
    ensures Shift(a, k + 1) == 10.0 * Shift(a, k)
  {}

  lemma {:induction false} ShiftTwice(a: real, j: int, k: int)
    ensures Shift(Shift(a, j), k) == Shift(a, j + k)
    decreases if k < 0 then -k else k
  {
    if k > 0 {
      ShiftTwice(a, j, k - 1);
      ShiftNext(a, j + (k - 1));
    } else if k < 0 {
      ShiftTwice(a, j, k + 1);
      ShiftNext(a, j + k);
    }
  }

  lemma {:induction false} ShiftLess(a: real, b: real, k: int)
    ensures a < b <==> Shift(a, k) < Shift(b, k)
    decreases if k < 0 then -k else k
  {
    if k > 0 { ShiftLess(a, b, k - 1); } else if k < 0 { ShiftLess(a, b, k + 1); }
  }

  /** Shifting is multiplication by a power of ten. */
  lemma {:induction false} ShiftIsProduct(a: real, k: int)
    ensures Shift(a, k) == a * TenTo(k)
    decreases if k < 0 then -k else k
  {
    if k > 0 {
      ShiftIsProduct(a, k - 1);
      assert a * (10.0 * TenTo(k - 1)) == 10.0 * (a * TenTo(k - 1));
    } else if k < 0 {
      ShiftIsProduct(a, k + 1);
      assert a * (TenTo(k + 1) / 10.0) == (a * TenTo(k + 1)) / 10.0;
    }
  }

  // ---------------------------------------------------------------- normalisation

  /** Entry `i` of the table of positive powers. */
  function Positive(i: nat): real {
    TenTo(Pow2(i))
  }

  /** Entry `i` of the table of negative powers. */
  function Negative(i: nat): real {
    TenTo(0 - Pow2(i))
  }

  const UPPER := 10000000.0
  const LOWER := 0.00001

  /** The values that `n` table entries can scale: for a double `n` is nine, for a float six. */
  predicate InRange(value: real, n: nat) {
    0.0 <= value < TenTo(Pow2(n)) && (value > 0.0 ==> TenTo(1 - Pow2(n)) <= value)
  }

  /** Printed without an exponent. */
  predicate Plain(value: real) {
    value == 0.0 || LOWER < value < UPPER
  }

  /** The state of the scaling loops. */
  predicate Scaled(original: real, value: real, powers: int) {
    Shift(value, powers) == original && (powers == 0 ==> value == original)
  }

  /** Taking `b` powers of ten out of a value that has them leaves at least one. */
  lemma TakeOut(value: real, powers: int, b: int)
    requires TenTo(b) <= value < TenTo(b + b)
    ensures 1.0 <= Shift(value, 0 - b) < TenTo(b)
    ensures Shift(Shift(value, 0 - b), powers + b) == Shift(value, powers)
  {
    ShiftTwice(1.0, b, 0 - b);
    ShiftTwice(1.0, b + b, 0 - b);
    ShiftLess(value, TenTo(b), 0 - b);
    ShiftLess(value, TenTo(b + b), 0 - b);
    ShiftTwice(value, 0 - b, powers + b);
  }

  /** Putting `b` in brings a value below ten over the power up to below ten. */
  lemma PutIn(value: real, powers: int, b: int)
    requires TenTo(1 - b - b) <= value < TenTo(1 - b)
    ensures TenTo(1 - b) <= Shift(value, b) < 10.0
    ensures Shift(Shift(value, b), powers - b) == Shift(value, powers)
  {
    ShiftTwice(1.0, 1 - b - b, b);
    ShiftTwice(1.0, 1 - b, b);
    ShiftLess(value, TenTo(1 - b - b), b);
    ShiftLess(value, TenTo(1 - b), b);
    ShiftTwice(value, b, powers - b);
  }

  method ShrinkBy(ghost original: real, before: real, powers0: nat, index: nat) returns (value: real, powers: nat)
    requires Scaled(original, before, powers0) && 1.0 <= before < TenTo(Pow2(index + 1))
    ensures Scaled(original, value, powers) && 1.0 <= value < TenTo(Pow2(index))
  {
    value, powers := before, powers0;
    if value >= Positive(index) {
      TakeOut(value, powers, Pow2(index));
      ShiftIsProduct(value, 0 - Pow2(index));
      value, powers := value * Negative(index), powers + Pow2(index);
      assert value == Shift(before, 0 - Pow2(index));
    }
  }

  method GrowBy(ghost original: real, before: real, powers0: int, index: nat) returns (value: real, powers: int)
    requires Scaled(original, before, powers0) && powers0 <= 0 && TenTo(1 - Pow2(index + 1)) <= before < 10.0
    ensures Scaled(original, value, powers) && powers <= 0 && TenTo(1 - Pow2(index)) <= value < 10.0
  {
    value, powers := before, powers0;
    ShiftNext(1.0, 0 - Pow2(index));
    if value < Negative(index) * 10.0 {
      PutIn(value, powers, Pow2(index));
      ShiftIsProduct(value, Pow2(index));
      value, powers := value * Positive(index), powers - Pow2(index);
      assert value == Shift(before, Pow2(index));
    }
  }

  lemma {:induction false} TenToGrows(j: int, k: int)
    requires j <= k
    ensures TenTo(j) <= TenTo(k)
    decreases k - j
  {
    if j < k {
      TenToGrows(j, k - 1);
      ShiftNext(1.0, k - 1);
      ShiftLess(0.0, 1.0, k - 1);
      ZeroStays(k - 1);
    }
  }

  lemma {:induction false} ZeroStays(k: int)
    ensures Shift(0.0, k) == 0.0
    decreases if k < 0 then -k else k
  {
    if k < 0 { ZeroStays(k + 1); } else if k > 0 { ZeroStays(k - 1); }
  }

  /** A value in [1, 10) and its power of ten determine the size of the number. */
  lemma PowersBySize(value: real, powers: int)
    requires 1.0 <= value < 10.0
    ensures TenTo(powers) <= Shift(value, powers) < TenTo(powers + 1)
    ensures Shift(value, powers) >= UPPER ==> powers >= 7
    ensures Shift(value, powers) <= LOWER ==> powers <= -5
  {
    ShiftLess(value, 1.0, powers);
    ShiftLess(value, 10.0, powers);
    ShiftTwice(1.0, 1, powers);
    assert TenTo(7) == UPPER && TenTo(-5) == LOWER;
    if powers < 7 { TenToGrows(powers + 1, 7); }
    if powers > -5 { TenToGrows(-4, powers); }
  }

  /** Scale by powers of ten until the value is in [1, 10), unless it prints well as it is. */
  method Normalize(original: real, n: nat) returns (value: real, powers: int)
    requires InRange(original, n)
    ensures Shift(value, powers) == original
    ensures if Plain(original) then value == original && powers == 0 else 1.0 <= value < 10.0
    ensures original >= UPPER ==> powers >= 7
    ensures 0.0 < original <= LOWER ==> powers <= -5
  {
    value, powers := original, 0;
    var index := n;
    if value >= UPPER {
      while index > 0
        invariant 0 <= index <= n && powers >= 0
        invariant Scaled(original, value, powers)
        invariant 1.0 <= value < TenTo(Pow2(index))
      {
        index := index - 1;
        value, powers := ShrinkBy(original, value, powers, index);
      }
      assert TenTo(Pow2(0)) == 10.0;
      PowersBySize(value, powers);
    }
    if value > 0.0 && value <= LOWER {
      while index > 0
        invariant 0 <= index <= n && powers <= 0
        invariant Scaled(original, value, powers)
        invariant TenTo(1 - Pow2(index)) <= value < 10.0
      {
        index := index - 1;
        value, powers := GrowBy(original, value, powers, index);
      }
      assert TenTo(1 - Pow2(0)) == 1.0;
      PowersBySize(value, powers);
    }
  }

  // ---------------------------------------------------------------- decomposition

  /** The parts of a number: `integral.decimal` with `places` digits after the point, times ten to `exponent`. */
  datatype Parts = Parts(integral: nat, decimal: nat, exponent: int, places: nat)

  function Pow10(k: nat): (p: nat)
    ensures p >= 1
  {
    if k == 0 then 1 else 10 * Pow10(k - 1)
  }

  /** All printed digits as one integer. */
  function Digits(p: Parts): nat {
    p.integral * Pow10(p.places) + p.decimal
  }

  /** The number that is printed. */
  function Denotes(p: Parts): real {
    Shift(Digits(p) as real, p.exponent - p.places)
  }

  lemma Mantissa(p: Parts)
    ensures Shift(Digits(p) as real, 0 - p.places) == p.integral as real + p.decimal as real / Pow10(p.places) as real
  {
    var d, m := Digits(p) as real, Pow10(p.places) as real;
    var x := Shift(d, 0 - p.places);
    ShiftTwice(d, 0 - p.places, p.places);
    ScaledProduct(x, p.places);
    WholeProduct(p.integral, Pow10(p.places));
    Divide(x, p.integral as real, p.decimal as real, m);
  }

  /** The same number, read off the parts. */
  lemma DenotesReading(p: Parts)
    ensures Denotes(p) == Shift(p.integral as real + p.decimal as real / Pow10(p.places) as real, p.exponent)
  {
    Mantissa(p);
    ShiftTwice(Digits(p) as real, 0 - p.places, p.exponent);
  }

  lemma Divide(x: real, i: real, d: real, m: real)
    requires m > 0.0 && x * m == i * m + d
    ensures x == i + d / m
  {
    assert (x - i) * m == d;
  }

  /** The number of digits of an integer beyond the first. */
  function ExtraDigits(n: nat): nat {
    if n < 10 then 0 else 1 + ExtraDigits(n / 10)
  }

  /** The extra digits are those after the first: a number has one more digit than that. */
  lemma {:induction false} ExtraDigitsIs(n: nat)
    ensures (n > 0 ==> Pow10(ExtraDigits(n)) <= n) && n < Pow10(ExtraDigits(n) + 1)
    decreases n
  {
    if n >= 10 { ExtraDigitsIs(n / 10); }
  }

  lemma {:induction false} FewDigits(n: nat, k: nat)
    requires n < Pow10(k + 1)
    ensures ExtraDigits(n) <= k
    decreases k
  {
    if n >= 10 {
      FewDigits(n / 10, k - 1);
    }
  }

  /** Places left for decimals once the integral part has taken its share. */
  function KeptPlaces(places: nat, integral: nat): int {
    places - ExtraDigits(integral)
  }

  /** The loop that gives up a decimal place for each further digit of the integral part. */
  method ReducePlaces(integral: nat, places0: nat) returns (maxDecimal: nat, places: nat)
    requires ExtraDigits(integral) <= places0
    ensures places == KeptPlaces(places0, integral) && maxDecimal == Pow10(places)
  {
    maxDecimal, places := Pow10(places0), places0;
    var tmp := integral;
    while tmp >= 10
      invariant maxDecimal == Pow10(places) && ExtraDigits(tmp) <= places
      invariant places - ExtraDigits(tmp) == places0 - ExtraDigits(integral)
      decreases tmp
    {
      maxDecimal, places := maxDecimal / 10, places - 1;
      tmp := tmp / 10;
    }
  }

  /** `n` is `x` rounded to the nearest integer, halves upward. */
  predicate Rounds(x: real, n: int) {
    n as real - 0.5 <= x < n as real + 0.5
  }

  /** Truncate, then add one if what was cut off is a half or more. */
  method RoundHalfUp(x: real, m: nat) returns (decimal: nat)
    requires 0.0 <= x < m as real
    ensures Rounds(x, decimal) && decimal <= m
  {
    decimal := x.Floor;
    var remainder := x - decimal as real;
    decimal := decimal + (remainder * 2.0).Floor;
  }

  /** The rounding of the decimals, with the carry into the integral part. */
  method RoundDecimals(value: real, maxDecimal: nat) returns (integral: nat, decimal: nat)
    requires value >= 0.0 && maxDecimal >= 1
    ensures decimal < maxDecimal
    ensures Rounds(value * maxDecimal as real, integral * maxDecimal + decimal)
    ensures integral == value.Floor || (integral == value.Floor + 1 && decimal == 0)
  {
    integral := value.Floor;
    var fraction, m := value - integral as real, maxDecimal as real;
    FractionBounds(fraction, m);
    var remainder := fraction * m;
    decimal := RoundHalfUp(remainder, maxDecimal);
    AddWholePart(value, fraction, integral, maxDecimal, decimal);
    if decimal >= maxDecimal {
      Carry(integral, maxDecimal);
      decimal, integral := 0, integral + 1;
    }
  }

  lemma Carry(n: nat, m: nat)
    ensures (n + 1) * m + 0 == n * m + m
  {}

  lemma FractionBounds(f: real, m: real)
    requires 0.0 <= f < 1.0 && m > 0.0
    ensures 0.0 <= f * m < m
  {}

  lemma AddWholePart(value: real, fraction: real, integral: nat, m: nat, decimal: nat)
    requires value == integral as real + fraction && Rounds(fraction * m as real, decimal)
    ensures Rounds(value * m as real, integral * m + decimal)
  {
    WholeProduct(integral, m);
    assert value * m as real == integral as real * m as real + fraction * m as real;
  }

  lemma {:induction false} WholeProduct(n: nat, m: nat)
    ensures (n * m) as real == n as real * m as real
  {
    if n > 0 {
      WholeProduct(n - 1, m);
      assert n * m == (n - 1) * m + m;
      assert n as real * m as real == (n - 1) as real * m as real + m as real;
    }
  }

  /** The loop that drops trailing zeros. */
  method TrimZeros(p: Parts) returns (r: Parts)
    requires p.decimal < Pow10(p.places)
    ensures Denotes(r) == Denotes(p) && r.integral == p.integral && r.exponent == p.exponent
    ensures p.decimal == 0 ==> r.decimal == 0
    ensures r.places <= p.places && r.decimal < Pow10(r.places) && (r.places > 0 ==> r.decimal % 10 != 0)
  {
    r := p;
    while r.decimal % 10 == 0 && r.places > 0
      invariant Denotes(r) == Denotes(p) && r.integral == p.integral && r.exponent == p.exponent
      invariant r.places <= p.places && r.decimal < Pow10(r.places) && (p.decimal == 0 ==> r.decimal == 0)
      decreases r.places
    {
      DropZero(r.integral, r.decimal, r.exponent, r.places);
      r := r.(decimal := r.decimal / 10, places := r.places - 1);
    }
  }

  lemma DropZero(integral: nat, decimal: nat, e: int, places: nat)
    requires places > 0 && decimal % 10 == 0
    ensures Denotes(Parts(integral, decimal / 10, e, places - 1)) == Denotes(Parts(integral, decimal, e, places))
  {
    var d := Digits(Parts(integral, decimal / 10, e, places - 1));
    assert integral * (10 * Pow10(places - 1)) == 10 * (integral * Pow10(places - 1));
    assert Digits(Parts(integral, decimal, e, places)) == 10 * d;
    TenTimes(d, e - places);
  }

  lemma TenTimes(d: nat, k: int)
    ensures Shift((10 * d) as real, k) == Shift(d as real, k + 1)
  {
    ShiftTwice(d as real, 1, k);
    assert Shift(d as real, 1) == (10 * d) as real;
  }

  /** Ten times ten to the `p` is one times ten to the next. */
  lemma TenIsOneUp(p: int, places: nat)
    ensures Denotes(Parts(1, 0, p + 1, places)) == Denotes(Parts(10, 0, p, places))
  {
    TenTimes(Pow10(places), p - places);
    assert Digits(Parts(1, 0, p + 1, places)) == Pow10(places);
    assert Digits(Parts(10, 0, p, places)) == 10 * Pow10(places);
  }

  /** A plain value's integral part has at most seven digits, a scaled one's one. */
  lemma IntegralDigits(value: real)
    requires 0.0 <= value < UPPER
    ensures ExtraDigits(value.Floor) <= 6
    ensures value < 10.0 ==> ExtraDigits(value.Floor) == 0
  {
    assert Pow10(3) == 1000 && Pow10(7) == 10000000;
    FewDigits(value.Floor, 6);
  }

  /**
   The whole conversion.  What is printed is the value rounded, halves upward, to the last place
   kept: between a half of that place below it and strictly less than a half above; there is no
   trailing zero; and the number of places kept is the one asked for less the further digits of
   the integral part.
   */
  method Decompose(original: real, asked: nat, n: nat) returns (parts: Parts, ghost value: real, ghost powers: int)
    requires InRange(original, n) && 6 <= asked <= 9
    ensures Shift(value, powers) == original
    ensures if Plain(original) then value == original && powers == 0 else 1.0 <= value < 10.0
    ensures var kept := KeptPlaces(asked, value.Floor);
            && 0 <= parts.places <= kept
            && Within(Denotes(parts), original, powers - kept)
    ensures parts.decimal < Pow10(parts.places) && (parts.places > 0 ==> parts.decimal % 10 != 0)
    ensures parts.exponent == 0 <==> original == 0.0 || 0.00001 < original < 10000000.0
    ensures parts.exponent == powers || (parts.exponent == powers + 1 && parts.integral == 1 && parts.decimal == 0)
    ensures parts.integral <= (if parts.exponent != 0 then 9 else 10000000)
    ensures parts.exponent != 0 ==> parts.integral >= 1
  {
    var v, exponent := Normalize(original, n);
    value, powers := v, exponent;
    IntegralDigits(v);
    var maxDecimal, places := ReducePlaces(v.Floor, asked);
    parts := RoundParts(v, exponent, maxDecimal, places);
    parts := CarryExponent(parts);
    parts := TrimZeros(parts);
  }

  /** The printed digits are the number, shifted to the last printed place, to within half the last kept one. */
  lemma DigitsNear(p: Parts, y: real, kept: nat)
    requires p.exponent == 0 && p.places <= kept && Within(Denotes(p), y, 0 - kept)
    ensures Within(Digits(p) as real, Shift(y, p.places), p.places - kept)
  {
    var x, h := Denotes(p), Shift(0.5, 0 - kept);
    ShiftTwice(Digits(p) as real, 0 - p.places, p.places);
    ShiftTwice(0.5, 0 - kept, p.places);
    ShiftAdd(y, h, p.places);
    ShiftAdd(y - h, h, p.places);
    ShiftLess(y - h, x, p.places);
    ShiftLess(y + h, x, p.places);
  }

  lemma HalfShrinks(j: int)
    ensures j <= 0 ==> Shift(0.5, j) <= 0.5
    ensures j <= -2 ==> Shift(0.5, j) <= 0.005
  {
    ShiftIsProduct(0.5, j);
    if j <= 0 { TenToGrows(j, 0); }
    if j <= -2 { TenToGrows(j, -2); }
  }

  lemma Shifts123045()
    ensures Shift(123.045, 0) == 123.045 && Shift(123.045, 1) == 1230.45 && Shift(123.045, 2) == 12304.5
    ensures Shift(123.045, 3) == 123045.0 && Shift(123.045, 4) == 1230450.0 && Shift(123.045, 5) == 12304500.0
    ensures Shift(123.045, 6) == 123045000.0 && Shift(123.045, 7) == 1230450000.0
  {
    forall k | 0 <= k < 7 ensures Shift(123.045, k + 1) == 10.0 * Shift(123.045, k) { ShiftNext(123.045, k); }
    assert Shift(123.045, 2) == 10.0 * Shift(123.045, 1);
    assert Shift(123.045, 3) == 10.0 * Shift(123.045, 2);
    assert Shift(123.045, 4) == 10.0 * Shift(123.045, 3);
    assert Shift(123.045, 5) == 10.0 * Shift(123.045, 4);
    assert Shift(123.045, 6) == 10.0 * Shift(123.045, 5);
    assert Shift(123.045, 7) == 10.0 * Shift(123.045, 6);
  }

  lemma LastDigit(p: Parts)
    requires p.places > 0
    ensures Digits(p) % 10 == p.decimal % 10
  {
    var q := p.integral * Pow10(p.places - 1);
    assert Digits(p) == 10 * q + p.decimal;
  }

  lemma DigitsOf123045(d: nat, places: nat, half: real)
    requires places <= 7 && 0.0 <= half <= (if places < 3 then 0.005 else 0.5)
    requires Shift(123.045, places) - half < d as real <= Shift(123.045, places) + half
    ensures places >= 3 && (places == 3 ==> d == 123045) && (places > 3 ==> d % 10 == 0)
  {
    Shifts123045();
  }

  lemma ThreePlaces(p: Parts)
    requires p.places == 3 && p.decimal < Pow10(3) && Digits(p) == 123045
    ensures p.integral == 123 && p.decimal == 45
  {
    assert Pow10(3) == 1000;
  }

  /** However many of the places are asked for, 123.045 has exactly these parts. */
  lemma PartsOf123045(p: Parts, kept: nat)
    requires p.exponent == 0 && p.places <= kept && 4 <= kept <= 7
    requires Within(Denotes(p), 123.045, 0 - kept)
    requires p.decimal < Pow10(p.places) && (p.places > 0 ==> p.decimal % 10 != 0)
    ensures p == Parts(123, 45, 0, 3)
  {
    DigitsNear(p, 123.045, kept);
    HalfShrinks(p.places - kept);
    ShiftLess(0.0, 0.5, p.places - kept);
    ZeroStays(p.places - kept);
    DigitsOf123045(Digits(p), p.places, Shift(0.5, p.places - kept));
    if p.places > 3 { LastDigit(p); } else { ThreePlaces(p); }
  }

  /** The number of the source's own example, for which its comment gives an exponent of one. */
  method CommentExample(asked: nat, n: nat) returns (parts: Parts)
    requires 6 <= asked <= 9 && n >= 2
    ensures parts == Parts(123, 45, 0, 3)
  {
    ghost var value, powers;
    Pow2Monotone(2, n);
    TenToGrows(4, Pow2(n));
    TenToGrows(1 - Pow2(n), 0);
    assert TenTo(4) == 10000.0;
    parts, value, powers := Decompose(123.045, asked, n);
    assert (123.045).Floor == 123;
    assert ExtraDigits(123) == 2;
    PartsOf123045(parts, KeptPlaces(asked, 123));
  }

  method RoundParts(v: real, exponent: int, maxDecimal: nat, places: nat) returns (p: Parts)
    requires 0.0 <= v && maxDecimal == Pow10(places)
    ensures p.exponent == exponent && p.places == places && p.decimal < Pow10(places)
    ensures Within(Denotes(p), Shift(v, exponent), exponent - places)
    ensures p.integral == v.Floor || (p.integral == v.Floor + 1 && p.decimal == 0)
  {
    var integral, decimal := RoundDecimals(v, maxDecimal);
    p := Parts(integral, decimal, exponent, places);
    RoundedIsWithin(v, exponent, places, Digits(p));
  }

  /** An integral part that has become ten moves the point. */
  method CarryExponent(p: Parts) returns (r: Parts)
    requires p.exponent != 0 ==> p.integral < 10 || (p.integral == 10 && p.decimal == 0)
    ensures Denotes(r) == Denotes(p) && r.decimal == p.decimal && r.places == p.places
    ensures p.exponent != 0 && p.integral == 10 ==> r.integral == 1 && r.exponent == p.exponent + 1
    ensures p.exponent == 0 || p.integral < 10 ==> r == p
  {
    r := p;
    if p.exponent != 0 && p.integral >= 10 {
      TenIsOneUp(p.exponent, p.places);
      r := p.(exponent := p.exponent + 1, integral := 1);
    }
  }

  /** `x` is within half a unit of the place `k` of `y`, the upper half included. */
  predicate Within(x: real, y: real, k: int) {
    y - Shift(0.5, k) < x <= y + Shift(0.5, k)
  }

  lemma {:induction false} ShiftAdd(a: real, b: real, k: int)
    ensures Shift(a + b, k) == Shift(a, k) + Shift(b, k)
    decreases if k < 0 then -k else k
  {
    if k > 0 { ShiftAdd(a, b, k - 1); } else if k < 0 { ShiftAdd(a, b, k + 1); }
  }

  lemma {:induction false} TenToIsPow10(k: nat)
    ensures TenTo(k) == Pow10(k) as real
  {
    if k > 0 { TenToIsPow10(k - 1); }
  }

  lemma ScaledProduct(v: real, places: nat)
    ensures Shift(v, places) == v * Pow10(places) as real
  {
    ShiftIsProduct(v, places);
    TenToIsPow10(places);
  }

  lemma WithinAfterShift(v: real, p: int, places: nat, digits: nat)
    requires Rounds(Shift(v, places), digits)
    ensures Within(Shift(digits as real, p - places), Shift(v, p), p - places)
  {
    var k, x, d := p - places, Shift(v, places), digits as real;
    ShiftTwice(v, places, k);
    ShiftLess(x, d + 0.5, k);
    ShiftAdd(d, 0.5, k);
    ShiftLess(x + 0.5, d, k);
    ShiftAdd(x, 0.5, k);
  }

  lemma RoundedIsWithin(v: real, p: int, places: nat, digits: nat)
    requires Rounds(v * Pow10(places) as real, digits)
    ensures Within(Shift(digits as real, p - places), Shift(v, p), p - places)
  {
    ScaledProduct(v, places);
    WithinAfterShift(v, p, places, digits);
  }
}
