/**
 * Fields packed into a storage word.
 *
 * A word is its bits, lowest first; the operators of the source act bit by bit.  A field is a
 * span of bit positions.  Reading a field shifts and masks; writing one clears its span and
 * ors in the new bits.
 */
module Bitpack {
  import opened Arith

  type Bits = seq<bool>

  datatype Field = Field(min: nat, max: nat) {
    function Width(): int {
      max - min + 1
    }

    predicate Holds(i: int) {
      min <= i <= max
    }
  }

  /** A field must not end before it begins and must be narrower than the storage. */
  predicate Declared(f: Field, size: nat) {
    f.min <= f.max && f.Width() < size
  }

  function And(a: Bits, b: Bits): Bits
    requires |a| == |b|
  {
    seq(|a|, i requires 0 <= i < |a| == |b| => a[i] && b[i])
  }

  function Or(a: Bits, b: Bits): Bits
    requires |a| == |b|
  {
    seq(|a|, i requires 0 <= i < |a| == |b| => a[i] || b[i])
  }

  function Not(a: Bits): Bits {
    seq(|a|, i requires 0 <= i < |a| => !a[i])
  }

  function ShiftLeft(a: Bits, k: nat): Bits {
    seq(|a|, i requires 0 <= i < |a| => i >= k && a[i - k])
  }

  function ShiftRight(a: Bits, k: nat): Bits {
    seq(|a|, i requires 0 <= i < |a| => i + k < |a| && a[i + k])
  }

  function Zero(size: nat): Bits {
    seq(size, i => false)
  }

  /** The bits below the field's width. */
  function ValueMask(f: Field, size: nat): Bits {
    seq(size, i => i < f.Width())
  }

  function FieldMask(f: Field, size: nat): Bits {
    ShiftLeft(ValueMask(f, size), f.min)
  }

  function RawView(f: Field, storage: Bits): Bits {
    And(ShiftRight(storage, f.min), ValueMask(f, |storage|))
  }

  function RawWith(f: Field, lhs: Bits, rhs: Bits): (r: Bits)
    requires |lhs| == |rhs|
    ensures |r| == |lhs|
  {
    Or(And(lhs, Not(FieldMask(f, |lhs|))), ShiftLeft(And(rhs, ValueMask(f, |rhs|)), f.min))
  }

  // What the words mean as numbers.

  function Value(bits: Bits): nat {
    if bits == [] then 0 else (if bits[0] then 1 else 0) + 2 * Value(bits[1..])
  }

  lemma {:induction false} ValueBound(bits: Bits)
    ensures Value(bits) < Pow2(|bits|)
  {
    if bits != [] { ValueBound(bits[1..]); }
  }

  lemma Doubled(first: nat, low: nat, high: nat, p: nat)
    ensures first + 2 * (low + high * p) == first + 2 * low + high * (2 * p)
  {}

  lemma {:induction false} ValueSplit(bits: Bits, k: nat)
    requires k <= |bits|
    ensures Value(bits) == Value(bits[..k]) + Value(bits[k..]) * Pow2(k)
  {
    if k == 0 {
      assert bits[0..] == bits;
    } else {
      var rest := bits[1..];
      ValueSplit(rest, k - 1);
      assert rest[..k - 1] == bits[..k][1..];
      assert rest[k - 1..] == bits[k..];
      Doubled(if bits[0] then 1 else 0, Value(rest[..k - 1]), Value(bits[k..]), Pow2(k - 1));
    }
  }

  /** Cutting a word is dividing by a power of two. */
  lemma CutIsDivMod(bits: Bits, k: nat)
    requires k <= |bits|
    ensures Value(bits[k..]) == Value(bits) / Pow2(k)
    ensures Value(bits[..k]) == Value(bits) % Pow2(k)
  {
    ValueSplit(bits, k);
    ValueBound(bits[..k]);
    DivModUnique(Value(bits), Value(bits[k..]), Value(bits[..k]), Pow2(k));
  }

  lemma {:induction false} ZeroIsZero(size: nat)
    ensures Value(Zero(size)) == 0
  {
    if size > 0 {
      ZeroIsZero(size - 1);
      assert Zero(size)[1..] == Zero(size - 1);
    }
  }

  lemma {:induction false} OnesValue(n: nat)
    ensures Value(seq(n, i => true)) == Pow2(n) - 1
  {
    if n > 0 {
      OnesValue(n - 1);
      assert seq(n, i => true)[1..] == seq(n - 1, i => true);
    }
  }

  lemma Padded(bits: Bits, w: nat)
    requires w <= |bits| && forall i :: w <= i < |bits| ==> !bits[i]
    ensures Value(bits) == Value(bits[..w])
  {
    ValueSplit(bits, w);
    assert bits[w..] == Zero(|bits| - w);
    ZeroIsZero(|bits| - w);
  }

  /** The mask is one less than the power of two of the width. */
  lemma ValueMaskIsOnes(f: Field, size: nat)
    requires Declared(f, size)
    ensures Value(ValueMask(f, size)) == Pow2(f.Width()) - 1
  {
    var w := f.Width();
    Padded(ValueMask(f, size), w);
    assert ValueMask(f, size)[..w] == seq(w, i => true);
    OnesValue(w);
  }

  lemma ViewIsSlice(f: Field, storage: Bits)
    requires Declared(f, |storage|) && f.max < |storage|
    ensures Value(RawView(f, storage)) == Value(storage[f.min..][..f.Width()])
  {
    var w := f.Width();
    Padded(RawView(f, storage), w);
    assert RawView(f, storage)[..w] == storage[f.min..][..w];
  }

  /** Reading a field divides the word by two to its lowest index and keeps its width. */
  lemma ViewIsArithmetic(f: Field, storage: Bits)
    requires Declared(f, |storage|) && f.max < |storage|
    ensures Value(RawView(f, storage)) == Value(storage) / Pow2(f.min) % Pow2(f.Width())
  {
    ViewIsSlice(f, storage);
    CutIsDivMod(storage, f.min);
    CutIsDivMod(storage[f.min..], f.Width());
  }

  // One field.

  function Truncated(f: Field, rhs: Bits): (r: Bits)
    ensures |r| == |rhs|
  {
    seq(|rhs|, i requires 0 <= i < |rhs| => i < f.Width() && rhs[i])
  }

  /** The written span holds the new value's low bits and every other bit is as it was. */
  lemma WithIsBitwise(f: Field, lhs: Bits, rhs: Bits, i: nat)
    requires |lhs| == |rhs| && Declared(f, |lhs|) && i < |lhs|
    ensures RawWith(f, lhs, rhs)[i] == if f.Holds(i) then rhs[i - f.min] else lhs[i]
  {
    assert FieldMask(f, |lhs|)[i] == f.Holds(i);
  }

  lemma ViewIsBitwise(f: Field, storage: Bits, j: nat)
    requires j < |storage|
    ensures RawView(f, storage)[j] == (f.Holds(f.min + j) && f.min + j < |storage| && storage[f.min + j])
  {}

  lemma PutGet(f: Field, lhs: Bits, rhs: Bits)
    requires |lhs| == |rhs| && Declared(f, |lhs|) && f.max < |lhs|
    ensures RawView(f, RawWith(f, lhs, rhs)) == Truncated(f, rhs)
  {
    var w := RawWith(f, lhs, rhs);
    forall j | 0 <= j < |lhs|
      ensures RawView(f, w)[j] == Truncated(f, rhs)[j]
    {
      ViewIsBitwise(f, w, j);
      if j < f.Width() { WithIsBitwise(f, lhs, rhs, f.min + j); }
    }
  }

  lemma GetPut(f: Field, lhs: Bits)
    requires Declared(f, |lhs|)
    ensures RawWith(f, lhs, RawView(f, lhs)) == lhs
  {
    forall i | 0 <= i < |lhs|
      ensures RawWith(f, lhs, RawView(f, lhs))[i] == lhs[i]
    {
      WithIsBitwise(f, lhs, RawView(f, lhs), i);
      if f.Holds(i) { ViewIsBitwise(f, lhs, i - f.min); }
    }
  }

  lemma PutPut(f: Field, lhs: Bits, a: Bits, b: Bits)
    requires |lhs| == |a| == |b| && Declared(f, |lhs|)
    ensures RawWith(f, RawWith(f, lhs, a), b) == RawWith(f, lhs, b)
  {
    forall i | 0 <= i < |lhs|
      ensures RawWith(f, RawWith(f, lhs, a), b)[i] == RawWith(f, lhs, b)[i]
    {
      WithIsBitwise(f, lhs, a, i);
      WithIsBitwise(f, lhs, b, i);
      WithIsBitwise(f, RawWith(f, lhs, a), b, i);
    }
  }

  ghost predicate ReadsBack(f: Field, size: nat) {
    forall lhs: Bits, rhs: Bits :: |lhs| == |rhs| == size ==> RawView(f, RawWith(f, lhs, rhs)) == Truncated(f, rhs)
  }

  /** A declared field gives back what is written to it, for every word, exactly when it ends inside the word. */
  lemma ReadsBackIffInside(f: Field, size: nat)
    requires Declared(f, size)
    ensures ReadsBack(f, size) <==> f.max < size
  {
    if f.max < size {
      forall lhs: Bits, rhs: Bits | |lhs| == |rhs| == size
        ensures RawView(f, RawWith(f, lhs, rhs)) == Truncated(f, rhs)
      {
        PutGet(f, lhs, rhs);
      }
    } else {
      var ones: Bits := seq(size, i => true);
      var top := f.Width() - 1;
      ViewIsBitwise(f, RawWith(f, ones, ones), top);
      assert Truncated(f, ones)[top];
    }
  }

  // Chains of fields.

  datatype Setting = Setting(field: Field, value: Bits)

  /** Every field is declared and inside the word, and every value is a storage word. */
  ghost predicate Typed(list: seq<Setting>, size: nat) {
    forall k :: 0 <= k < |list| ==>
      Declared(list[k].field, size) && list[k].field.max < size && |list[k].value| == size
  }

  /** Two fields are the same one or share no bit. */
  ghost predicate Apart(list: seq<Setting>) {
    forall j, k :: 0 <= j < |list| && 0 <= k < |list| ==>
      || list[j].field == list[k].field
      || list[j].field.max < list[k].field.min
      || list[k].field.max < list[j].field.min
  }

  /** The chain of `with`, the first setting innermost. */
  function Withs(b: Bits, list: seq<Setting>): (r: Bits)
    requires forall k :: 0 <= k < |list| ==> |list[k].value| == |b|
    ensures |r| == |b|
  {
    if list == [] then b
    else
      var last := list[|list| - 1];
      RawWith(last.field, Withs(b, list[..|list| - 1]), last.value)
  }

  /** The union of the fields' masks. */
  function MaskOf(list: seq<Setting>, size: nat): (r: Bits)
    ensures |r| == size
  {
    if list == [] then Zero(size)
    else Or(MaskOf(list[..|list| - 1], size), FieldMask(list[|list| - 1].field, size))
  }

  predicate MaskedEquals(b: Bits, list: seq<Setting>)
    requires forall k :: 0 <= k < |list| ==> |list[k].value| == |b|
  {
    And(b, MaskOf(list, |b|)) == Withs(Zero(|b|), list)
  }

  /** The last setting whose field holds bit `i`, or -1. */
  function Owner(list: seq<Setting>, i: nat): (k: int)
    ensures -1 <= k < |list|
    ensures k >= 0 ==> list[k].field.Holds(i)
    ensures forall j :: k < j < |list| ==> !list[j].field.Holds(i)
  {
    if list == [] then -1
    else if list[|list| - 1].field.Holds(i) then |list| - 1
    else Owner(list[..|list| - 1], i)
  }

  lemma {:induction false} WithsBit(b: Bits, list: seq<Setting>, i: nat)
    requires Typed(list, |b|) && i < |b|
    ensures
      var k := Owner(list, i);
      Withs(b, list)[i] == if k < 0 then b[i] else list[k].value[i - list[k].field.min]
  {
    if list != [] {
      var front, last := list[..|list| - 1], list[|list| - 1];
      WithsBit(b, front, i);
      WithIsBitwise(last.field, Withs(b, front), last.value, i);
    }
  }

  lemma {:induction false} MaskBit(list: seq<Setting>, size: nat, i: nat)
    requires Typed(list, size) && i < size
    ensures MaskOf(list, size)[i] == (Owner(list, i) >= 0)
  {
    if list != [] {
      MaskBit(list[..|list| - 1], size, i);
      assert FieldMask(list[|list| - 1].field, size)[i] == list[|list| - 1].field.Holds(i);
    }
  }

  /** No later setting names the same field. */
  ghost predicate IsLast(list: seq<Setting>, k: nat) {
    k < |list| && forall j :: k < j < |list| ==> list[j].field != list[k].field
  }

  lemma LastOwns(list: seq<Setting>, k: nat, i: nat)
    requires Apart(list) && IsLast(list, k) && list[k].field.Holds(i)
    ensures Owner(list, i) == k
  {
    var o := Owner(list, i);
    assert list[o].field == list[k].field;
  }

  lemma OwnerIsLast(list: seq<Setting>, i: nat)
    requires Apart(list) && Owner(list, i) >= 0
    ensures IsLast(list, Owner(list, i))
  {
    var o := Owner(list, i);
    forall j | o < j < |list|
      ensures list[j].field != list[o].field
    {
      assert !list[j].field.Holds(i);
    }
  }

  ghost predicate CarriesAt(f: Field, w: Bits, v: Bits, i: nat)
    requires f.max < |w| == |v|
  {
    f.Holds(i) ==> w[i] == v[i - f.min]
  }

  /** The span of the field holds the low bits of the value. */
  ghost predicate Carries(f: Field, w: Bits, v: Bits)
    requires f.max < |w| == |v|
  {
    forall i: nat :: CarriesAt(f, w, v, i)
  }

  lemma ReadsIffCarries(f: Field, w: Bits, v: Bits)
    requires Declared(f, |w|) && f.max < |w| == |v|
    ensures RawView(f, w) == Truncated(f, v) <==> Carries(f, w, v)
  {
    if RawView(f, w) == Truncated(f, v) {
      forall i: nat | f.Holds(i)
        ensures w[i] == v[i - f.min]
      {
        assert RawView(f, w)[i - f.min] == Truncated(f, v)[i - f.min];
      }
    }
    if Carries(f, w, v) {
      forall j | 0 <= j < |w|
        ensures RawView(f, w)[j] == Truncated(f, v)[j]
      {
        assert CarriesAt(f, w, v, f.min + j);
      }
    }
  }

  /** Each named field reads the last value given for it, cut to its width. */
  ghost predicate ReadsLast(w: Bits, list: seq<Setting>)
    requires Typed(list, |w|)
  {
    forall k :: 0 <= k < |list| && IsLast(list, k) ==>
      RawView(list[k].field, w) == Truncated(list[k].field, list[k].value)
  }

  /** After a chain each named field reads its last value, and a bit in no named field is as it was. */
  lemma ChainReadsLast(b: Bits, list: seq<Setting>)
    requires Typed(list, |b|) && Apart(list)
    ensures ReadsLast(Withs(b, list), list)
    ensures forall i :: 0 <= i < |b| && (forall k :: 0 <= k < |list| ==> !list[k].field.Holds(i))
                        ==> Withs(b, list)[i] == b[i]
  {
    forall k | 0 <= k < |list| && IsLast(list, k)
      ensures RawView(list[k].field, Withs(b, list)) == Truncated(list[k].field, list[k].value)
    {
      ChainCarries(b, list, k);
      ReadsIffCarries(list[k].field, Withs(b, list), list[k].value);
    }
    forall i | 0 <= i < |b| && (forall k :: 0 <= k < |list| ==> !list[k].field.Holds(i))
      ensures Withs(b, list)[i] == b[i]
    {
      WithsBit(b, list, i);
    }
  }

  lemma HeldBit(b: Bits, list: seq<Setting>, k: nat, i: nat)
    requires Typed(list, |b|) && Apart(list) && IsLast(list, k) && list[k].field.Holds(i)
    ensures Withs(b, list)[i] == list[k].value[i - list[k].field.min]
  {
    LastOwns(list, k, i);
    WithsBit(b, list, i);
  }

  lemma ChainBit(b: Bits, list: seq<Setting>, k: nat, i: nat)
    requires Typed(list, |b|) && Apart(list) && IsLast(list, k)
    ensures CarriesAt(list[k].field, Withs(b, list), list[k].value, i)
  {
    if list[k].field.Holds(i) { HeldBit(b, list, k, i); }
  }

  lemma ChainCarries(b: Bits, list: seq<Setting>, k: nat)
    requires Typed(list, |b|) && Apart(list) && IsLast(list, k)
    ensures Carries(list[k].field, Withs(b, list), list[k].value)
  {
    forall i: nat { ChainBit(b, list, k, i); }
  }

  lemma EqualCarries(b: Bits, list: seq<Setting>, k: nat)
    requires Typed(list, |b|) && Apart(list) && IsLast(list, k) && MaskedEquals(b, list)
    ensures Carries(list[k].field, b, list[k].value)
  {
    var f := list[k].field;
    forall i: nat | f.Holds(i)
      ensures CarriesAt(f, b, list[k].value, i)
    {
      ChainBit(Zero(|b|), list, k, i);
      LastOwns(list, k, i);
      MaskBit(list, |b|, i);
      assert And(b, MaskOf(list, |b|))[i] == b[i];
    }
  }

  lemma CarriedBit(b: Bits, list: seq<Setting>, i: nat)
    requires Typed(list, |b|) && Apart(list) && ReadsLast(b, list) && i < |b|
    ensures And(b, MaskOf(list, |b|))[i] == Withs(Zero(|b|), list)[i]
  {
    WithsBit(Zero(|b|), list, i);
    MaskBit(list, |b|, i);
    var o := Owner(list, i);
    if o >= 0 {
      OwnerIsLast(list, i);
      ReadsIffCarries(list[o].field, b, list[o].value);
      assert CarriesAt(list[o].field, b, list[o].value, i);
    }
  }

  /** The masked comparison holds exactly when each named field reads the last value given for it. */
  lemma MaskedEqualsIffFieldsRead(b: Bits, list: seq<Setting>)
    requires Typed(list, |b|) && Apart(list)
    ensures MaskedEquals(b, list) <==> ReadsLast(b, list)
  {
    if MaskedEquals(b, list) {
      forall k | 0 <= k < |list| && IsLast(list, k)
        ensures RawView(list[k].field, b) == Truncated(list[k].field, list[k].value)
      {
        EqualCarries(b, list, k);
        ReadsIffCarries(list[k].field, b, list[k].value);
      }
    }
    if ReadsLast(b, list) {
      forall i | 0 <= i < |b|
        ensures And(b, MaskOf(list, |b|))[i] == Withs(Zero(|b|), list)[i]
      {
        CarriedBit(b, list, i);
      }
    }
  }

  /** A chain makes its own masked comparison true. */
  lemma ChainSatisfiesQuery(b: Bits, list: seq<Setting>)
    requires Typed(list, |b|) && Apart(list)
    ensures MaskedEquals(Withs(b, list), list)
  {
    ChainReadsLast(b, list);
    MaskedEqualsIffFieldsRead(Withs(b, list), list);
  }

  /** A stored bitpack, through the proxy of one of its fields. */
  class Stored {
    var word: Bits

    constructor (w: Bits)
      ensures word == w
    {
      word := w;
    }

    /** Assigning a field changes the part of its span inside the word, and no other bit. */
    method Assign(f: Field, rhs: Bits)
      requires Declared(f, |word|) && |rhs| == |word|
      modifies this
      ensures |word| == old(|word|)
      ensures f.max < |word| ==> RawView(f, word) == Truncated(f, rhs)
      ensures forall i :: 0 <= i < |word| ==> word[i] == if f.Holds(i) then rhs[i - f.min] else old(word[i])
    {
      ghost var before := word;
      word := RawWith(f, word, rhs);
      if f.max < |word| { PutGet(f, before, rhs); }
      forall i | 0 <= i < |word|
        ensures word[i] == if f.Holds(i) then rhs[i - f.min] else before[i]
      {
        WithIsBitwise(f, before, rhs, i);
      }
    }

    /** Altering a field replaces its value by a function of it and changes no other bit. */
    method Alter(f: Field, g: Bits -> Bits)
      requires Declared(f, |word|) && |g(RawView(f, word))| == |word|
      modifies this
      ensures |word| == old(|word|)
      ensures f.max < |word| ==> RawView(f, word) == Truncated(f, g(old(RawView(f, word))))
      ensures forall i :: 0 <= i < |word| ==>
        word[i] == if f.Holds(i) then g(old(RawView(f, word)))[i - f.min] else old(word[i])
    {
      Assign(f, g(RawView(f, word)));
    }
  }
}
