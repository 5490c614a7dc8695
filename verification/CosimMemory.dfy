/**
 The co-simulation memory checker: a queue of word-wide accesses seen on the device's
 bus, matched against the byte-wise accesses the instruction-set simulator makes.

 Words are numbers below 2^32 and bytes numbers below 256; shifting by whole bytes and
 masking with a run of whole bytes are multiplication, division and remainder by powers
 of 256.  A byte enable is the set of its one bits, so `&`, `|` and `& ~` are `*`, `+`
 and `-` on sets.
 */
module CosimMemory {
  import opened Arith
  import opened Basics

  type Byte = b: int | 0 <= b < 256

  /** One data-side bus transaction of the device under test. */
  datatype DutAccess = DutAccess(
    store: bool,
    data: Word,
    addr: Word,
    be: set<nat>,
    error: bool,
    misalignedFirst: bool,
    misalignedSecond: bool,
    misalignedFirstSawError: bool)
  {
    predicate Misaligned() {
      misalignedFirst || misalignedSecond
    }
  }

  /** A queued transaction and the bytes of it the simulator has accessed so far. */
  datatype Pending = Pending(dut: DutAccess, beSpike: set<nat>)

  /** One access of the simulator. */
  datatype SpikeAccess = SpikeAccess(store: bool, addr: Word, bytes: seq<Byte>)

  datatype CheckResult = Passed | CheckFailed | BusError

  datatype CheckError =
    | NothingPending
    | AddressMismatch
    | KindMismatch
    | ByteSeenTwice
    | ByteNotEnabled
    | EnableMismatch
    | DataMismatch
    | SecondHalfMissing
    | SecondHalfAddress
    | PmpShouldHaveFailed

  // ---------------------------------------------------------------- byte lanes

  function Aligned(addr: Word): Word {
    addr - addr % 4
  }

  /** What the two assertions at the head of the check demand of the simulator. */
  predicate WithinWord(a: SpikeAccess) {
    1 <= |a.bytes| <= 4 && a.addr % 4 + |a.bytes| <= 4
  }

  /** The lanes of the aligned word that the simulator accesses. */
  function ByteEnable(a: SpikeAccess): set<nat> {
    set j: nat | j < 4 && Touches(a, j)
  }

  predicate Touches(a: SpikeAccess, j: nat) {
    a.addr % 4 <= j < a.addr % 4 + |a.bytes|
  }

  function Pow256(k: nat): nat
    requires k <= 4
  {
    if k == 0 then 1
    else if k == 1 then 0x100
    else if k == 2 then 0x1_0000
    else if k == 3 then 0x100_0000
    else 0x1_0000_0000
  }

  /** The bytes combined little-endian. */
  function Combined(bytes: seq<Byte>): nat {
    if bytes == [] then 0 else bytes[0] + 256 * Combined(bytes[1..])
  }

  /** The access's bytes moved to their lanes. */
  function ExpectedData(a: SpikeAccess): nat
    requires WithinWord(a)
  {
    Combined(a.bytes) * Pow256(a.addr % 4)
  }

  /** The device's word with every lane the access does not touch cleared. */
  function MaskedData(w: Word, a: SpikeAccess): nat
    requires WithinWord(a)
  {
    (w / Pow256(a.addr % 4)) % Pow256(|a.bytes|) * Pow256(a.addr % 4)
  }

  /** Byte `j` of a bus word. */
  function ByteOf(w: Word, j: nat): Byte
    requires j < 4
  {
    (w / Pow256(j)) % 256
  }

  /** Every byte of the access is the word's byte in its lane. */
  ghost predicate Agrees(w: Word, a: SpikeAccess) {
    forall j: nat :: j < 4 && Touches(a, j) ==> ByteOf(w, j) == a.bytes[j - a.addr % 4]
  }

  lemma SplitLow(v: nat, n: nat, b: Byte, rest: nat)
    requires 1 <= n <= 4
    ensures v % Pow256(n) == b + 256 * rest <==> v % 256 == b && v / 256 % Pow256(n - 1) == rest
  {
    ModSplit(v, 256, Pow256(n - 1));
    SameDigits(v % 256, v / 256 % Pow256(n - 1), b, rest);
  }

  lemma SameDigits(lo: Byte, hi: nat, b: Byte, rest: nat)
    ensures lo + 256 * hi == b + 256 * rest <==> lo == b && hi == rest
  {}

  lemma DivideTwice(w: nat, o: nat, i: nat)
    requires o + i < 4
    ensures w / Pow256(o) / Pow256(i) == w / Pow256(o + i)
  {}

  ghost predicate DigitsAre(v: nat, bytes: seq<Byte>)
    requires |bytes| <= 4
  {
    forall i :: 0 <= i < |bytes| ==> v / Pow256(i) % 256 == bytes[i]
  }

  /** A number's low bytes are the given ones exactly when its low part is their combination. */
  lemma {:induction false} CombinedIsDigitwise(v: nat, bytes: seq<Byte>)
    requires |bytes| <= 4
    ensures v % Pow256(|bytes|) == Combined(bytes) <==> DigitsAre(v, bytes)
  {
    if bytes != [] {
      var rest := bytes[1..];
      SplitLow(v, |bytes|, bytes[0], Combined(rest));
      CombinedIsDigitwise(v / 256, rest);
      assert v / Pow256(0) % 256 == v % 256;
      forall i | 0 <= i < |rest|
        ensures v / 256 / Pow256(i) % 256 == v / Pow256(i + 1) % 256 && rest[i] == bytes[i + 1]
      {
        DivideTwice(v, 1, i);
      }
      assert DigitsAre(v, bytes) <==> v % 256 == bytes[0] && DigitsAre(v / 256, rest) by {
        if v % 256 == bytes[0] && DigitsAre(v / 256, rest) {
          forall i | 0 <= i < |bytes| ensures v / Pow256(i) % 256 == bytes[i] {
            if i > 0 { assert rest[i - 1] == bytes[i]; }
          }
        }
      }
    }
  }

  lemma Cancel(x: nat, y: nat, o: nat)
    requires o < 4
    ensures x * Pow256(o) == y * Pow256(o) <==> x == y
  {}

  /** The masked word comparison of the check is equality on each byte accessed. */
  lemma MaskedDataIsBytewise(w: Word, a: SpikeAccess)
    requires WithinWord(a)
    ensures ExpectedData(a) == MaskedData(w, a) <==> Agrees(w, a)
  {
    var o := a.addr % 4;
    var v := w / Pow256(o);
    CombinedIsDigitwise(v, a.bytes);
    Cancel(Combined(a.bytes), v % Pow256(|a.bytes|), o);
    forall i | 0 <= i < |a.bytes| ensures Touches(a, o + i) && ByteOf(w, o + i) == v / Pow256(i) % 256 {
      DivideTwice(w, o, i);
    }
    assert DigitsAre(v, a.bytes) <==> Agrees(w, a);
  }

  // ---------------------------------------------------------------- one check

  /** The queue afterwards, the result reported to the simulator, and the error recorded, if any. */
  datatype Verdict = Verdict(queue: seq<Pending>, result: CheckResult, errors: seq<CheckError>)

  function Failed(q: seq<Pending>, e: CheckError): Verdict {
    Verdict(q, CheckFailed, [e])
  }

  /** The byte-enable part of the check: no error is a pass. */
  function EnableError(top: Pending, be: set<nat>): seq<CheckError> {
    if top.dut.Misaligned() then
      if be * top.beSpike != {} then [ByteSeenTwice]
      else if be - top.dut.be != {} then [ByteNotEnabled]
      else []
    else if be != top.dut.be then [EnableMismatch]
    else []
  }

  /** The second half that a faulting first half reaching the top byte must be followed by. */
  function SecondHalfError(q: seq<Pending>): seq<CheckError>
    requires q != []
  {
    if |q| < 2 || !q[1].dut.misalignedSecond then [SecondHalfMissing]
    else if q[1].dut.addr != (q[0].dut.addr + 4) % 0x1_0000_0000 then [SecondHalfAddress]
    else []
  }

  function CrossesWord(d: DutAccess): bool {
    d.misalignedFirst && 3 in d.be
  }

  function Check(q: seq<Pending>, a: SpikeAccess): Verdict
    requires WithinWord(a)
  {
    if q == [] then Failed(q, NothingPending) else
    var top := q[0];
    if Aligned(a.addr) != top.dut.addr then Failed(q, AddressMismatch) else
    if a.store != top.dut.store then Failed(q, KindMismatch) else
    var be := ByteEnable(a);
    if EnableError(top, be) != [] then Verdict(q, CheckFailed, EnableError(top, be)) else
    var mis := top.dut.Misaligned();
    var q' := if mis then q[0 := top.(beSpike := top.beSpike + be)] else q;
    if (a.store || !top.dut.error) && ExpectedData(a) != MaskedData(top.dut.data, a) then
      Failed(q', DataMismatch)
    else if top.dut.error && mis then
      if !CrossesWord(top.dut) then Verdict(q'[1..], BusError, [])
      else if SecondHalfError(q) != [] then Verdict(q', CheckFailed, SecondHalfError(q))
      else Verdict(q'[2..], BusError, [])
    else
      Verdict(if !mis || top.beSpike + be == top.dut.be then q'[1..] else q',
              if top.dut.error then BusError else Passed, [])
  }

  // ---------------------------------------------------------------- runs

  /** Why a transaction left the queue. */
  datatype Reason =
    | Matched          // every byte accounted for, no bus error
    | Errored          // the bus error was passed on to the simulator
    | AfterError       // second half of a faulting misaligned access
    | PmpDropped       // second half the simulator never attempted
    | NmiDropped       // the extra transaction of an internal interrupt

  /** A transaction that left, with the simulator accesses charged to it. */
  datatype Departure = Departure(dut: DutAccess, reason: Reason, via: seq<SpikeAccess>)

  /** The checker, with the history of what arrived, what left, and what the front has matched. */
  datatype Cosim = Cosim(
    pending: seq<Pending>,
    errors: seq<CheckError>,
    arrived: seq<DutAccess>,
    departed: seq<Departure>,
    charged: seq<SpikeAccess>)

  datatype Event =
    | Notify(dut: DutAccess)
    | Access(spike: SpikeAccess)
    | AccessFault(pmpOk: bool)       // a load or store access fault trap
    | InternalNmi                    // the trap of an internal non-maskable interrupt

  predicate Enabled(s: Cosim, e: Event) {
    match e
    case Notify(dut) => dut.addr % 4 == 0
    case Access(spike) => WithinWord(spike)
    case AccessFault(_) => true
    case InternalNmi => s.pending != []
  }

  /** Drop the front for `reason`. */
  function Drop(s: Cosim, reason: Reason): Cosim
    requires s.pending != []
  {
    s.(pending := s.pending[1..],
       departed := s.departed + [Departure(s.pending[0].dut, reason, s.charged)], charged := [])
  }

  function AfterCheck(s: Cosim, a: SpikeAccess): Cosim
    requires WithinWord(a)
  {
    var v := Check(s.pending, a);
    var s' := s.(pending := v.queue, errors := s.errors + v.errors);
    if v.result == CheckFailed || |v.queue| == |s.pending| then s'.(charged := s.charged + [a])
    else
      var first := Departure(s.pending[0].dut, if v.result == Passed then Matched else Errored, s.charged + [a]);
      if |v.queue| + 1 == |s.pending| then
        s'.(departed := s.departed + [first], charged := [])
      else
        s'.(departed := s.departed + [first, Departure(s.pending[1].dut, AfterError, [])], charged := [])
  }

  function Step(s: Cosim, e: Event): Cosim
    requires Enabled(s, e)
  {
    match e
    case Notify(dut) => s.(pending := s.pending + [Pending(dut, {})], arrived := s.arrived + [dut])
    case Access(spike) => AfterCheck(s, spike)
    case AccessFault(pmpOk) =>
      if s.pending == [] then s else
      var d := s.pending[0].dut;
      if !(d.misalignedSecond && d.misalignedFirstSawError) then s
      else if !pmpOk then s.(errors := s.errors + [PmpShouldHaveFailed])
      else Drop(s, PmpDropped)
    case InternalNmi => Drop(s, NmiDropped)
  }

  ghost predicate Runs(s: Cosim, events: seq<Event>, s': Cosim)
    decreases |events|
  {
    if events == [] then s == s'
    else Enabled(s, events[0]) && Runs(Step(s, events[0]), events[1..], s')
  }

  const Start := Cosim([], [], [], [], [])

  // ---------------------------------------------------------------- the invariant

  function Accesses(q: seq<Pending>): (r: seq<DutAccess>)
    ensures |r| == |q|
    ensures forall i :: 0 <= i < |q| ==> r[i] == q[i].dut
  {
    seq(|q|, i requires 0 <= i < |q| => q[i].dut)
  }

  function Left(ds: seq<Departure>): (r: seq<DutAccess>)
    ensures |r| == |ds|
    ensures forall i :: 0 <= i < |ds| ==> r[i] == ds[i].dut
  {
    seq(|ds|, i requires 0 <= i < |ds| => ds[i].dut)
  }

  /** The lanes touched by some access of a sequence. */
  function Lanes(via: seq<SpikeAccess>): set<nat> {
    if via == [] then {} else Lanes(via[..|via| - 1]) + ByteEnable(via[|via| - 1])
  }

  /** The access is of this transaction: same word, same kind, its lanes only, its data. */
  ghost predicate Belongs(d: DutAccess, a: SpikeAccess) {
    && WithinWord(a) && Aligned(a.addr) == d.addr && a.store == d.store
    && ByteEnable(a) <= d.be
    && (d.store || !d.error ==> Agrees(d.data, a))
  }

  /** The accesses are of this transaction, and none repeats a lane. */
  ghost predicate Charges(d: DutAccess, via: seq<SpikeAccess>) {
    && (forall i :: 0 <= i < |via| ==> Belongs(d, via[i]))
    && (forall i, j :: 0 <= i < j < |via| ==> ByteEnable(via[i]) !! ByteEnable(via[j]))
  }

  /** What is known of a transaction that has left. */
  ghost predicate Accounted(x: Departure) {
    && (x.reason == Matched ==> !x.dut.error && Charges(x.dut, x.via) && Lanes(x.via) == x.dut.be)
    && (x.reason == Errored ==> x.dut.error && |x.via| == 1 && Charges(x.dut, x.via))
    && (x.reason == AfterError ==> x.dut.misalignedSecond && x.via == [])
    && (x.reason == PmpDropped ==> x.dut.misalignedSecond && x.dut.misalignedFirstSawError)
  }

  ghost predicate Consistent(s: Cosim) {
    && s.arrived == Left(s.departed) + Accesses(s.pending)
    && (forall k :: 0 < k < |s.pending| ==> s.pending[k].beSpike == {})
    && (s.pending == [] ==> s.charged == [])
    && (s.pending != [] ==>
          && s.pending[0].beSpike == Lanes(s.charged)
          && Charges(s.pending[0].dut, s.charged)
          && (!s.pending[0].dut.Misaligned() || s.pending[0].dut.error ==> s.charged == []))
    && (forall i :: 0 <= i < |s.departed| ==> Accounted(s.departed[i]))
  }

  lemma {:induction false} LanesCover(via: seq<SpikeAccess>, i: nat)
    requires i < |via|
    ensures ByteEnable(via[i]) <= Lanes(via)
  {
    if i < |via| - 1 { LanesCover(via[..|via| - 1], i); }
  }

  lemma ChargeOne(d: DutAccess, via: seq<SpikeAccess>, a: SpikeAccess)
    requires Charges(d, via)
    requires Belongs(d, a) && ByteEnable(a) !! Lanes(via)
    ensures Charges(d, via + [a]) && Lanes(via + [a]) == Lanes(via) + ByteEnable(a)
  {
    var more := via + [a];
    assert more[..|more| - 1] == via;
    forall i | 0 <= i < |via| ensures ByteEnable(more[i]) !! ByteEnable(a) { LanesCover(via, i); }
  }

  /** What a passed check has established about the front of the queue. */
  lemma CheckCharges(s: Cosim, a: SpikeAccess)
    requires Consistent(s) && WithinWord(a) && Check(s.pending, a).errors == []
    ensures s.pending != []
    ensures Charges(s.pending[0].dut, s.charged + [a])
    ensures Lanes(s.charged + [a]) == Lanes(s.charged) + ByteEnable(a)
    ensures Check(s.pending, a).result != CheckFailed
  {
    var d := s.pending[0].dut;
    MaskedDataIsBytewise(d.data, a);
    forall j | j in ByteEnable(a) ensures j in d.be {
      assert j in d.be || j in ByteEnable(a) - d.be;
    }
    ChargeOne(d, s.charged, a);
  }

  lemma CheckIsConsistent(s: Cosim, a: SpikeAccess)
    requires Consistent(s) && WithinWord(a) && Check(s.pending, a).errors == []
    ensures Consistent(AfterCheck(s, a))
  {
    CheckCharges(s, a);
    QueueAfterCheck(s.pending, a);
    var v := Check(s.pending, a);
    if |v.queue| == |s.pending| {
      assert Accesses(v.queue) == Accesses(s.pending);
    } else if |v.queue| + 1 == |s.pending| {
      LeaveFront(s, a);
    } else {
      LeaveBoth(s, a);
    }
  }

  /** A passed check keeps the queue but for its front: it is marked, or it leaves, alone or with its second half. */
  lemma QueueAfterCheck(q: seq<Pending>, a: SpikeAccess)
    requires WithinWord(a) && Check(q, a).errors == []
    ensures q != []
    ensures var v := Check(q, a); var d := q[0].dut; var be := q[0].beSpike + ByteEnable(a);
            || (v.queue == q[0 := q[0].(beSpike := be)]
                && d.Misaligned() && be != d.be && !d.error && v.result == Passed)
            || (v.queue == q[1..]
                && if d.error then v.result == BusError else v.result == Passed && (d.Misaligned() ==> be == d.be))
            || (|q| >= 2 && v.queue == q[2..] && d.error && q[1].dut.misalignedSecond && v.result == BusError)
    ensures !q[0].dut.Misaligned() ==> ByteEnable(a) == q[0].dut.be
  {}

  /** Entries may leave from the front, each accounted for. */
  lemma DepartFront(s: Cosim, xs: seq<Departure>, errors: seq<CheckError>)
    requires Consistent(s) && 0 < |xs| <= |s.pending|
    requires forall i :: 0 <= i < |xs| ==> xs[i].dut == s.pending[i].dut && Accounted(xs[i])
    ensures Consistent(s.(departed := s.departed + xs, pending := s.pending[|xs|..], charged := [], errors := errors))
  {
    assert Left(s.departed + xs) == Left(s.departed) + Accesses(s.pending)[..|xs|];
    assert Accesses(s.pending[|xs|..]) == Accesses(s.pending)[|xs|..];
  }

  /** The front leaves accounted for: with a bus error, or with all its lanes seen. */
  lemma FrontAccounted(s: Cosim, a: SpikeAccess, passed: bool)
    requires Consistent(s) && s.pending != [] && Charges(s.pending[0].dut, s.charged + [a])
    requires Lanes(s.charged + [a]) == Lanes(s.charged) + ByteEnable(a)
    requires var d := s.pending[0].dut;
             passed == !d.error
             && (passed ==> (if d.Misaligned() then s.pending[0].beSpike else {}) + ByteEnable(a) == d.be)
    ensures Accounted(Departure(s.pending[0].dut, if passed then Matched else Errored, s.charged + [a]))
  {}

  lemma LeaveFront(s: Cosim, a: SpikeAccess)
    requires Consistent(s) && WithinWord(a) && Check(s.pending, a).errors == []
    requires |Check(s.pending, a).queue| + 1 == |s.pending|
    ensures Consistent(AfterCheck(s, a))
  {
    CheckCharges(s, a);
    QueueAfterCheck(s.pending, a);
    FrontAccounted(s, a, Check(s.pending, a).result == Passed);
    DepartFront(s, [AfterCheck(s, a).departed[|s.departed|]], AfterCheck(s, a).errors);
  }

  lemma LeaveBoth(s: Cosim, a: SpikeAccess)
    requires Consistent(s) && WithinWord(a) && Check(s.pending, a).errors == []
    requires |Check(s.pending, a).queue| + 2 == |s.pending|
    ensures Consistent(AfterCheck(s, a))
  {
    CheckCharges(s, a);
    QueueAfterCheck(s.pending, a);
    FrontAccounted(s, a, false);
    var first := AfterCheck(s, a).departed[|s.departed|];
    DepartFront(s, [first, Departure(s.pending[1].dut, AfterError, [])], AfterCheck(s, a).errors);
  }

  lemma DropIsConsistent(s: Cosim, reason: Reason)
    requires Consistent(s) && s.pending != []
    requires Accounted(Departure(s.pending[0].dut, reason, s.charged))
    ensures Consistent(Drop(s, reason))
  {
    DepartFront(s, [Departure(s.pending[0].dut, reason, s.charged)], s.errors);
  }

  lemma NotifyIsConsistent(s: Cosim, dut: DutAccess)
    requires Consistent(s) && dut.addr % 4 == 0
    ensures Consistent(Step(s, Notify(dut)))
  {
    var s' := Step(s, Notify(dut));
    assert Accesses(s'.pending) == Accesses(s.pending) + [dut];
  }

  lemma StepIsConsistent(s: Cosim, e: Event)
    requires Consistent(s) && Enabled(s, e) && Step(s, e).errors == s.errors
    ensures Consistent(Step(s, e))
  {
    match e
    case Notify(dut) => NotifyIsConsistent(s, dut);
    case Access(spike) => CheckIsConsistent(s, spike);
    case AccessFault(pmpOk) => if Step(s, e) != s { DropIsConsistent(s, PmpDropped); }
    case InternalNmi => DropIsConsistent(s, NmiDropped);
  }

  lemma {:induction false} ErrorsOnlyGrow(s: Cosim, events: seq<Event>, s': Cosim)
    requires Runs(s, events, s')
    ensures |s.errors| <= |s'.errors|
    decreases |events|
  {
    if events != [] { ErrorsOnlyGrow(Step(s, events[0]), events[1..], s'); }
  }

  lemma {:induction false} RunIsConsistent(s: Cosim, events: seq<Event>, s': Cosim)
    requires Runs(s, events, s') && Consistent(s) && s.errors == [] && s'.errors == []
    ensures Consistent(s')
    decreases |events|
  {
    if events != [] {
      ErrorsOnlyGrow(Step(s, events[0]), events[1..], s');
      StepIsConsistent(s, events[0]);
      RunIsConsistent(Step(s, events[0]), events[1..], s');
    }
  }

  // ---------------------------------------------------------------- main results

  lemma {:induction false} LaneHasAccess(via: seq<SpikeAccess>, j: nat) returns (i: nat)
    requires j in Lanes(via)
    ensures i < |via| && j in ByteEnable(via[i])
  {
    if j in ByteEnable(via[|via| - 1]) { i := |via| - 1; }
    else { i := LaneHasAccess(via[..|via| - 1], j); }
  }

  /** The transactions notified in a run, and the accesses the simulator made, in order. */
  function Notified(events: seq<Event>): seq<DutAccess> {
    if events == [] then [] else (if events[0].Notify? then [events[0].dut] else []) + Notified(events[1..])
  }

  function Spikes(events: seq<Event>): seq<SpikeAccess> {
    if events == [] then [] else (if events[0].Access? then [events[0].spike] else []) + Spikes(events[1..])
  }

  /** The accesses charged to the transactions that have left, in order of leaving. */
  function Vias(ds: seq<Departure>): seq<SpikeAccess> {
    if ds == [] then [] else Vias(ds[..|ds| - 1]) + ds[|ds| - 1].via
  }

  lemma OneMoreVia(ds: seq<Departure>, x: Departure)
    ensures Vias(ds + [x]) == Vias(ds) + x.via
  {
    assert (ds + [x])[..|ds|] == ds;
  }

  lemma DepartingConserves(ds: seq<Departure>, charged: seq<SpikeAccess>, a: SpikeAccess, first: Departure)
    requires first.via == charged + [a]
    ensures Vias(ds + [first]) + [] == Vias(ds) + charged + [a]
    ensures forall second: Departure :: second.via == [] ==>
              Vias(ds + [first, second]) + [] == Vias(ds) + charged + [a]
  {
    OneMoreVia(ds, first);
    Regroup(Vias(ds), charged, [a]);
    forall second: Departure | second.via == []
      ensures Vias(ds + [first, second]) + [] == Vias(ds) + charged + [a]
    {
      OneMoreVia(ds + [first], second);
      assert ds + [first, second] == ds + [first] + [second];
    }
  }

  lemma CheckConserves(s: Cosim, a: SpikeAccess)
    requires WithinWord(a)
    ensures var s' := AfterCheck(s, a);
            s'.arrived == s.arrived && Vias(s'.departed) + s'.charged == Vias(s.departed) + s.charged + [a]
  {
    var s', n := AfterCheck(s, a), |s.departed|;
    if |s'.departed| > n {
      DepartingConserves(s.departed, s.charged, a, s'.departed[n]);
    } else {
      Regroup(Vias(s.departed), s.charged, [a]);
    }
  }

  lemma StepConserves(s: Cosim, e: Event)
    requires Enabled(s, e)
    ensures Step(s, e).arrived == s.arrived + if e.Notify? then [e.dut] else []
    ensures var s' := Step(s, e);
            Vias(s'.departed) + s'.charged == Vias(s.departed) + s.charged + if e.Access? then [e.spike] else []
  {
    if e.Access? {
      CheckConserves(s, e.spike);
    } else if Step(s, e).departed != s.departed {
      OneMoreVia(s.departed, Departure(s.pending[0].dut, if e.InternalNmi? then NmiDropped else PmpDropped, s.charged));
    }
  }

  /** On every run, with or without errors, each transaction and each access is accounted for once, in order. */
  lemma {:induction false} RunConserves(s: Cosim, events: seq<Event>, s': Cosim)
    requires Runs(s, events, s')
    ensures s'.arrived == s.arrived + Notified(events)
    ensures Vias(s'.departed) + s'.charged == Vias(s.departed) + s.charged + Spikes(events)
    decreases |events|
  {
    if events != [] {
      var e, mid := events[0], Step(s, events[0]);
      StepConserves(s, e);
      RunConserves(mid, events[1..], s');
      Regroup(s.arrived, if e.Notify? then [e.dut] else [], Notified(events[1..]));
      Regroup(Vias(s.departed) + s.charged, if e.Access? then [e.spike] else [], Spikes(events[1..]));
    }
  }

  /** The accesses charged to one departure are a stretch of all those charged. */
  lemma {:induction false} ViaIsStretch(ds: seq<Departure>, k: nat)
    requires k < |ds|
    ensures var at := |Vias(ds[..k])|;
            at + |ds[k].via| <= |Vias(ds)| && Vias(ds)[at..at + |ds[k].via|] == ds[k].via
    decreases |ds|
  {
    var n := |ds| - 1;
    var at, via := |Vias(ds[..k])|, ds[k].via;
    assert Vias(ds) == Vias(ds[..n]) + ds[n].via;
    if k < n {
      ViaIsStretch(ds[..n], k);
      assert ds[..n][..k] == ds[..k];
      assert Vias(ds)[at..at + |via|] == Vias(ds[..n])[at..at + |via|];
    } else {
      assert Vias(ds)[at..at + |via|] == via;
    }
  }

  /** The accesses charged to departure `k` are those of the run after those charged to the ones before it. */
  ghost predicate ChargedInRun(events: seq<Event>, ds: seq<Departure>, k: nat) {
    && k < |ds|
    && var at, n := |Vias(ds[..k])|, |ds[k].via|;
       at + n <= |Spikes(events)| && ds[k].via == Spikes(events)[at..at + n]
  }

  lemma StretchOfRun(events: seq<Event>, s: Cosim, k: nat)
    requires Runs(Start, events, s) && k < |s.departed|
    ensures ChargedInRun(events, s.departed, k)
  {
    RunConserves(Start, events, s);
    ViaIsStretch(s.departed, k);
    var all, at, n := Vias(s.departed), |Vias(s.departed[..k])|, |s.departed[k].via|;
    assert Vias(Start.departed) + Start.charged + Spikes(events) == Spikes(events);
    assert (all + s.charged)[at..at + n] == all[at..at + n];
  }

  /**
   Transactions leave in the order they were notified, and only the front is ever part-matched.
   Every access of the simulator is charged to exactly one transaction: those charged to the
   departed ones, in order, and then to the front are exactly the accesses it made.
   */
  lemma QueueDiscipline(events: seq<Event>, s: Cosim)
    requires Runs(Start, events, s) && s.errors == []
    ensures Notified(events) == s.arrived == Left(s.departed) + Accesses(s.pending)
    ensures Spikes(events) == Vias(s.departed) + s.charged
    ensures forall k :: 0 < k < |s.pending| ==> s.pending[k].beSpike == {}
    ensures if s.pending == [] then s.charged == [] else s.pending[0].beSpike == Lanes(s.charged)
  {
    RunIsConsistent(Start, events, s);
    RunConserves(Start, events, s);
  }

  /**
   Every transaction that left as matched had no bus error, and each of its enabled lanes was
   touched by exactly one simulator access of the same word and kind, carrying the device's
   byte; no access charged to it touched another lane; and those charged to it are a stretch of
   the accesses of the run, from where the transactions before it end.
   */
  lemma MatchedExactly(events: seq<Event>, s: Cosim, k: nat, j: nat)
    requires Runs(Start, events, s) && s.errors == []
    requires k < |s.departed| && s.departed[k].reason == Matched
    ensures var x := s.departed[k];
            && !x.dut.error
            && (j in x.dut.be <==> exists i :: 0 <= i < |x.via| && j in ByteEnable(x.via[i]))
            && (forall i, i' :: 0 <= i < i' < |x.via| ==> ByteEnable(x.via[i]) !! ByteEnable(x.via[i']))
            && (forall i :: 0 <= i < |x.via| ==>
                  && Aligned(x.via[i].addr) == x.dut.addr && x.via[i].store == x.dut.store
                  && Agrees(x.dut.data, x.via[i]))
    ensures ChargedInRun(events, s.departed, k)
  {
    RunIsConsistent(Start, events, s);
    StretchOfRun(events, s, k);
    var x := s.departed[k];
    assert Accounted(x);
    if j in x.dut.be { var i := LaneHasAccess(x.via, j); }
  }

  /** A transaction whose bus error was passed on really had one, and left on its first access, checked if a store. */
  lemma ErroredHonestly(events: seq<Event>, s: Cosim, k: nat)
    requires Runs(Start, events, s) && s.errors == []
    requires k < |s.departed| && s.departed[k].reason == Errored
    ensures var x := s.departed[k];
            && x.dut.error && |x.via| == 1
            && WithinWord(x.via[0]) && ByteEnable(x.via[0]) <= x.dut.be
            && Aligned(x.via[0].addr) == x.dut.addr && x.via[0].store == x.dut.store
            && (x.dut.store ==> Agrees(x.dut.data, x.via[0]))
    ensures ChargedInRun(events, s.departed, k)
  {
    RunIsConsistent(Start, events, s);
    StretchOfRun(events, s, k);
    assert Accounted(s.departed[k]);
  }

  // ---------------------------------------------------------------- no false alarms

  /** The lanes of the access are the next to be seen: new ones of a misaligned transaction, all of an aligned one. */
  predicate NextLanes(top: Pending, a: SpikeAccess) {
    if top.dut.misalignedFirst || top.dut.misalignedSecond then ByteEnable(a) !! top.beSpike
    else ByteEnable(a) == top.dut.be
  }

  /** A faulting first half that reaches the top byte. */
  predicate FaultsAcross(d: DutAccess) {
    d.error && d.misalignedFirst && 3 in d.be
  }

  /** A faulting first half that reaches the top byte is followed by its second half. */
  predicate HasSecondHalf(q: seq<Pending>)
    requires q != []
  {
    FaultsAcross(q[0].dut) ==>
      |q| >= 2 && q[1].dut.misalignedSecond && q[1].dut.addr == (q[0].dut.addr + 4) % 0x1_0000_0000
  }

  /** What a passed check leaves: the front marked, or gone, with its second half if that faulted too. */
  function Remaining(q: seq<Pending>, a: SpikeAccess): seq<Pending>
    requires q != [] && HasSecondHalf(q)
  {
    var d, be := q[0].dut, q[0].beSpike + ByteEnable(a);
    if FaultsAcross(d) then q[2..]
    else if d.error || !(d.misalignedFirst || d.misalignedSecond) || be == d.be then q[1..]
    else q[0 := q[0].(beSpike := be)]
  }

  lemma EnablePassesIff(top: Pending, a: SpikeAccess)
    ensures EnableError(top, ByteEnable(a)) == [] <==> ByteEnable(a) <= top.dut.be && NextLanes(top, a)
  {
    NothingOutside(ByteEnable(a), top.dut.be);
    NothingShared(ByteEnable(a), top.beSpike);
  }

  lemma NothingOutside(x: set<nat>, y: set<nat>)
    ensures x - y == {} <==> x <= y
  {
    forall j | j in x && j !in y ensures x - y != {} { assert j in x - y; }
  }

  lemma NothingShared(x: set<nat>, y: set<nat>)
    ensures x * y == {} <==> x !! y
  {
    forall j | j in x && j in y ensures x * y != {} { assert j in x * y; }
  }

  /**
   The check, whatever the transaction: it passes exactly when the access is of the front
   transaction, brings the lanes that are next, and a faulting first half has its second half.
   */
  lemma CheckPassesIff(q: seq<Pending>, a: SpikeAccess)
    requires WithinWord(a)
    ensures Check(q, a).errors == []
            <==> q != [] && Belongs(q[0].dut, a) && NextLanes(q[0], a) && HasSecondHalf(q)
    ensures Check(q, a).errors == [] ==>
              Check(q, a) == Verdict(Remaining(q, a), if q[0].dut.error then BusError else Passed, [])
  {
    if q != [] {
      MaskedDataIsBytewise(q[0].dut.data, a);
      EnablePassesIff(q[0], a);
    }
  }

  /** The access is of the word and kind of the front, and brings the lanes that are next. */
  ghost predicate LanesAccepted(q: seq<Pending>, a: SpikeAccess) {
    && q != [] && a.addr - a.addr % 4 == q[0].dut.addr && a.store == q[0].dut.store
    && ByteEnable(a) <= q[0].dut.be && NextLanes(q[0], a)
  }

  ghost predicate DataAccepted(q: seq<Pending>, a: SpikeAccess) {
    LanesAccepted(q, a) && (q[0].dut.store || !q[0].dut.error ==> Agrees(q[0].dut.data, a))
  }

  /** Which complaint is made, over the queue and the access. */
  ghost predicate Complains(q: seq<Pending>, a: SpikeAccess, e: CheckError) {
    if q == [] then e == NothingPending else
    var d, be := q[0].dut, ByteEnable(a);
    var word, mis := a.addr - a.addr % 4 == d.addr, d.misalignedFirst || d.misalignedSecond;
    var front := word && a.store == d.store;
    match e
    case NothingPending => false
    case AddressMismatch => !word
    case KindMismatch => word && a.store != d.store
    case ByteSeenTwice => front && mis && !(be !! q[0].beSpike)
    case ByteNotEnabled => front && mis && be !! q[0].beSpike && !(be <= d.be)
    case EnableMismatch => front && !mis && be != d.be
    case DataMismatch => LanesAccepted(q, a) && (d.store || !d.error) && !Agrees(d.data, a)
    case SecondHalfMissing =>
      DataAccepted(q, a) && FaultsAcross(d) && (|q| < 2 || !q[1].dut.misalignedSecond)
    case SecondHalfAddress =>
      && DataAccepted(q, a) && FaultsAcross(d) && |q| >= 2 && q[1].dut.misalignedSecond
      && q[1].dut.addr != (d.addr + 4) % 0x1_0000_0000
    case PmpShouldHaveFailed => false
  }

  /**
   The partner of `CheckPassesIff`: a check fails exactly when it records an error, and then records
   one, fixed by the queue and the access.  It never removes a transaction; the lanes are marked
   as seen exactly when a misaligned transaction's lanes were accepted before the complaint.
   */
  lemma CheckFailsWith(q: seq<Pending>, a: SpikeAccess, e: CheckError)
    requires WithinWord(a)
    ensures Check(q, a).result == CheckFailed <==> Check(q, a).errors != []
    ensures |Check(q, a).errors| <= 1 && (Check(q, a).errors == [e] <==> Complains(q, a, e))
    ensures Check(q, a).errors != [] ==>
              Check(q, a).queue == if LanesAccepted(q, a) && (q[0].dut.misalignedFirst || q[0].dut.misalignedSecond)
                                   then q[0 := q[0].(beSpike := q[0].beSpike + ByteEnable(a))] else q
  {
    if q != [] {
      MaskedDataIsBytewise(q[0].dut.data, a);
      EnablePassesIff(q[0], a);
      NothingOutside(ByteEnable(a), q[0].dut.be);
      NothingShared(ByteEnable(a), q[0].beSpike);
    }
  }

  /** The access-fault fixup drops a second half exactly when its first half saw an error and PMP lets it pass. */
  lemma FixupIff(s: Cosim, pmpOk: bool)
    ensures var s' := Step(s, AccessFault(pmpOk));
            if s.pending != [] && s.pending[0].dut.misalignedSecond && s.pending[0].dut.misalignedFirstSawError then
              if pmpOk then s'.pending == s.pending[1..] && s'.errors == s.errors
              else s'.pending == s.pending && s'.errors == s.errors + [PmpShouldHaveFailed]
            else s' == s
  {}

  /** Why transactions leave: by an access only as matched or errored, and otherwise by the event that drops them. */
  lemma LeavesFor(s: Cosim, e: Event)
    requires Enabled(s, e)
    ensures var ds, s' := s.departed, Step(s, e);
            && ds <= s'.departed
            && |s.pending| + (if e.Notify? then 1 else 0) == |s'.pending| + |s'.departed| - |ds|
            && (e.InternalNmi? ==> s'.departed == ds + [Departure(s.pending[0].dut, NmiDropped, s.charged)])
            && (e.AccessFault? ==> s'.departed == ds
                                   || s'.departed == ds + [Departure(s.pending[0].dut, PmpDropped, s.charged)])
            && (e.Access? && |s'.departed| > |ds| ==>
                  s'.departed[|ds|].reason == if s.pending[0].dut.error then Errored else Matched)
            && (e.Access? && |s'.departed| > |ds| + 1 ==> s'.departed[|ds| + 1].reason == AfterError)
  {
    if e.Access? { CheckPassesIff(s.pending, e.spike); CheckFailsWith(s.pending, e.spike, NothingPending); }
  }

  /** The lanes as the source computes them: a run of ones as long as the access, shifted to its offset. */
  lemma ByteEnableIsMask(a: SpikeAccess, j: nat)
    requires WithinWord(a) && j < 4
    ensures j in ByteEnable(a) <==> (Pow2(|a.bytes|) - 1) * Pow2(a.addr % 4) / Pow2(j) % 2 == 1
  {
    assert Pow2(0) == 1 && Pow2(1) == 2 && Pow2(2) == 4 && Pow2(3) == 8 && Pow2(4) == 16;
    MaskBit(a.addr % 4, |a.bytes|, j, Pow2(a.addr % 4), Pow2(|a.bytes|), Pow2(j));
  }

  function Small(k: nat): nat
    requires k <= 4
  {
    if k == 0 then 1 else if k == 1 then 2 else if k == 2 then 4 else if k == 3 then 8 else 16
  }

  lemma MaskBit(off: nat, len: nat, j: nat, o: nat, l: nat, p: nat)
    requires 1 <= len && off + len <= 4 && j < 4
    requires o == Small(off) && l == Small(len) && p == Small(j)
    ensures p > 0 && ((l - 1) * o / p % 2 == 1 <==> off <= j < off + len)
  {
    if off == 0 {
    } else if off == 1 {
    } else if off == 2 {
    } else {
    }
  }

  lemma AlignedIsWord(addr: Word)
    ensures Aligned(addr) % 4 == 0 && Aligned(addr) <= addr < Aligned(addr) + 4
  {}

  /** The checker after a sequence of simulator accesses. */
  function Feed(s: Cosim, xs: seq<SpikeAccess>): Cosim
    requires forall i :: 0 <= i < |xs| ==> WithinWord(xs[i])
    decreases |xs|
  {
    if xs == [] then s else Feed(AfterCheck(s, xs[0]), xs[1..])
  }

  lemma {:induction false} LanesDisjoint(via: seq<SpikeAccess>, a: SpikeAccess)
    requires forall i :: 0 <= i < |via| ==> ByteEnable(via[i]) !! ByteEnable(a)
    ensures Lanes(via) !! ByteEnable(a)
    decreases |via|
  {
    if via != [] { LanesDisjoint(via[..|via| - 1], a); }
  }

  lemma CoverDisjoint(done: seq<SpikeAccess>, a: SpikeAccess, rest: seq<SpikeAccess>, d: DutAccess)
    requires Charges(d, done + [a] + rest)
    ensures Belongs(d, a) && ByteEnable(a) !! Lanes(done)
  {
    var all := done + [a] + rest;
    assert all[|done|] == a;
    forall i | 0 <= i < |done| ensures ByteEnable(done[i]) !! ByteEnable(a) {
      assert all[i] == done[i];
    }
    LanesDisjoint(done, a);
  }

  /** A cover is complete only with its last access. */
  lemma CoverCompletes(done: seq<SpikeAccess>, rest: seq<SpikeAccess>, d: DutAccess)
    requires Charges(d, done + rest)
    ensures Lanes(done) == Lanes(done + rest) <==> rest == []
  {
    if rest == [] {
      assert done + rest == done;
    } else {
      var b := rest[0];
      assert done + rest == done + [b] + rest[1..];
      CoverDisjoint(done, b, rest[1..], d);
      LanesCover(done + rest, |done|);
      assert b.addr % 4 in ByteEnable(b) by { assert Touches(b, b.addr % 4); }
    }
  }

  /** One access of an exact cover is accepted; the last one, and only the last, retires the transaction. */
  lemma CoverStep(q: seq<Pending>, done: seq<SpikeAccess>, a: SpikeAccess, rest: seq<SpikeAccess>)
    requires q != [] && !q[0].dut.error && q[0].beSpike == Lanes(done)
    requires q[0].dut.Misaligned() || (done == [] && rest == [])
    requires Charges(q[0].dut, done + [a] + rest) && Lanes(done + [a] + rest) == q[0].dut.be
    ensures WithinWord(a)
    ensures Check(q, a)
         == Verdict(if rest == [] then q[1..] else q[0 := q[0].(beSpike := Lanes(done + [a]))], Passed, [])
  {
    CoverDisjoint(done, a, rest, q[0].dut);
    CoverCompletes(done + [a], rest, q[0].dut);
    assert Lanes(done + [a]) == Lanes(done) + ByteEnable(a) by { assert (done + [a])[..|done|] == done; }
    CheckPassesIff(q, a);
  }

  lemma CoverIsWithin(done: seq<SpikeAccess>, rest: seq<SpikeAccess>, d: DutAccess)
    requires Charges(d, done + rest)
    ensures forall i :: 0 <= i < |rest| ==> WithinWord(rest[i])
  {
    forall i | 0 <= i < |rest| ensures WithinWord(rest[i]) { assert (done + rest)[|done| + i] == rest[i]; }
  }

  lemma CoverStepState(s: Cosim, done: seq<SpikeAccess>, a: SpikeAccess, rest: seq<SpikeAccess>)
    requires s.pending != [] && !s.pending[0].dut.error && s.pending[0].beSpike == Lanes(done)
    requires s.pending[0].dut.Misaligned() || (done == [] && rest == [])
    requires Charges(s.pending[0].dut, done + [a] + rest) && Lanes(done + [a] + rest) == s.pending[0].dut.be
    ensures WithinWord(a)
    ensures var s' := AfterCheck(s, a);
            && s'.errors == s.errors
            && (if rest == [] then s'.pending == s.pending[1..]
                else s'.pending != [] && s'.pending[1..] == s.pending[1..] && s'.pending[0].dut == s.pending[0].dut
                     && s'.pending[0].beSpike == Lanes(done + [a]))
  {
    CoverStep(s.pending, done, a, rest);
  }

  /**
   The partner of `MatchedExactly`: however the simulator splits a misaligned word into
   accesses, if they cover its lanes once each with the right bytes then every one of them
   passes, no error is recorded, and exactly that transaction is retired.  An aligned word is
   covered by one access.
   */
  lemma {:induction false} ExactCoverPasses(s: Cosim, done: seq<SpikeAccess>, rest: seq<SpikeAccess>)
    requires s.pending != [] && rest != []
    requires var d := s.pending[0].dut;
             && !d.error && Charges(d, done + rest) && Lanes(done + rest) == d.be
             && (d.Misaligned() || (done == [] && |rest| == 1))
    requires s.pending[0].beSpike == Lanes(done)
    ensures forall i :: 0 <= i < |rest| ==> WithinWord(rest[i])
    ensures Feed(s, rest).pending == s.pending[1..] && Feed(s, rest).errors == s.errors
    decreases |rest|
  {
    var a, tail := rest[0], rest[1..];
    assert done + rest == done + [a] + tail;
    CoverIsWithin(done, rest, s.pending[0].dut);
    CoverStepState(s, done, a, tail);
    if tail != [] {
      ExactCoverPasses(AfterCheck(s, a), done + [a], tail);
    }
  }

  // ---------------------------------------------------------------- the object itself

  /** The checker's fields, updated in place; `log` is the same checker with its history. */
  class Checker {
    var pending: seq<Pending>
    var errors: seq<CheckError>
    ghost var log: Cosim

    ghost predicate Valid()
      reads this
    {
      log.pending == pending && log.errors == errors
    }

    constructor ()
      ensures Valid() && log == Start
    {
      pending, errors, log := [], [], Start;
    }

    method NotifyDsideAccess(dut: DutAccess)
      requires Valid() && dut.addr % 4 == 0
      modifies this
      ensures Valid() && log == Step(old(log), Notify(dut))
    {
      pending := pending + [Pending(dut, {})];
      log := Step(log, Notify(dut));
    }

    /** The loop that gathers the simulator's bytes into one word. */
    method CombineBytes(bytes: seq<Byte>) returns (data: nat)
      requires |bytes| <= 4
      ensures data == Combined(bytes)
    {
      data := 0;
      var i := 0;
      while i < |bytes|
        invariant 0 <= i <= |bytes|
        invariant data + Pow256(i) * Combined(bytes[i..]) == Combined(bytes)
      {
        ghost var rest := Combined(bytes[i + 1..]);
        assert bytes[i..][1..] == bytes[i + 1..];
        assert Pow256(i + 1) == 256 * Pow256(i);
        assert Pow256(i) * (bytes[i] + 256 * rest) == Pow256(i) * bytes[i] + Pow256(i + 1) * rest;
        data := data + Pow256(i) * bytes[i];
        i := i + 1;
      }
    }

    method RecordError(e: CheckError)
      modifies this`errors
      ensures errors == old(errors) + [e]
    {
      errors := errors + [e];
    }

    method CheckMemAccess(a: SpikeAccess) returns (result: CheckResult)
      requires Valid() && WithinWord(a)
      modifies this
      ensures Valid() && log == Step(old(log), Access(a))
      ensures result == Check(old(pending), a).result
    {
      result := MatchFront(a);
      log := Step(log, Access(a));
    }

    /** The body of the check, branch by branch. */
    method MatchFront(a: SpikeAccess) returns (result: CheckResult)
      requires WithinWord(a)
      modifies this`pending, this`errors
      ensures pending == Check(old(pending), a).queue && result == Check(old(pending), a).result
      ensures errors == old(errors) + Check(old(pending), a).errors
    {
      result := CheckFailed;
      if |pending| == 0 { RecordError(NothingPending); return; }
      var top := pending[0].dut;
      if Aligned(a.addr) != top.addr { RecordError(AddressMismatch); return; }
      if a.store != top.store { RecordError(KindMismatch); return; }

      var be := ByteEnable(a);
      var done := false;
      var misaligned := top.misalignedFirst || top.misalignedSecond;
      if misaligned {
        if be * pending[0].beSpike != {} { RecordError(ByteSeenTwice); return; }
        if be - top.be != {} { RecordError(ByteNotEnabled); return; }
        pending := pending[0 := pending[0].(beSpike := pending[0].beSpike + be)];
        done := pending[0].beSpike == top.be;
      } else {
        if be != top.be { RecordError(EnableMismatch); return; }
        done := true;
      }

      if a.store || !top.error {
        var expected := CombineBytes(a.bytes);
        if expected * Pow256(a.addr % 4) != MaskedData(top.data, a) { RecordError(DataMismatch); return; }
      }

      if top.error && misaligned {
        if top.misalignedFirst && 3 in top.be {
          if |pending| < 2 || !pending[1].dut.misalignedSecond { RecordError(SecondHalfMissing); return; }
          if pending[1].dut.addr != (top.addr + 4) % 0x1_0000_0000 { RecordError(SecondHalfAddress); return; }
          pending := pending[1..];
        }
        done := true;
      }
      if done { pending := pending[1..]; }
      result := if top.error then BusError else Passed;
    }

    method MisalignedPmpFixup(pmpOk: bool)
      requires Valid()
      modifies this
      ensures Valid() && log == Step(old(log), AccessFault(pmpOk))
    {
      log := Step(log, AccessFault(pmpOk));
      if |pending| != 0 {
        var top := pending[0].dut;
        if top.misalignedSecond && top.misalignedFirstSawError {
          if !pmpOk { RecordError(PmpShouldHaveFailed); }
          else { pending := pending[1..]; }
        }
      }
    }

    /** The transaction that accompanies an internal interrupt is discarded. */
    method DropInternalNmi()
      requires Valid() && pending != []
      modifies this
      ensures Valid() && log == Step(old(log), InternalNmi)
    {
      log := Step(log, InternalNmi);
      pending := pending[1..];
    }
  }
}
