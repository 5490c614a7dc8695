/**
 Trap bookkeeping of the co-simulator: the double-fault flags of CPUCTRLSTS and the
 register stack that makes non-maskable interrupts recoverable.  The saved fields are
 MPP and MPIE of mstatus (section 3.1.6 of the RISC-V Privileged Architecture), mepc
 and mcause.
 */
module CosimTraps {

  /** The register values saved on interrupt entry. */
  datatype Saved = Saved(mpp: bv32, mpie: bool, epc: bv32, cause: bv32)

  datatype Hart = Hart(
    cpuctrlsts: bv32,
    mstatus: bv32,
    mepc: bv32,
    mcause: bv32,
    nmiMode: bool,
    mstack: Saved)

  datatype Event =
    | SyncTrap(debugMode: bool)
    | Mret
    | Nmi(debugMode: bool, haltRequested: bool)              // external or internal
    | Simulated(mstatus: bv32, mepc: bv32, mcause: bv32)     // whatever the simulator does to the others

  // ---------------------------------------------------------------- register fields

  function Mpp(mstatus: bv32): bv32 {
    (mstatus & 0x1800) >> 11
  }

  function Mpie(mstatus: bv32): bool {
    mstatus & 0x80 != 0
  }

  function WithMpp(mstatus: bv32, mpp: bv32): bv32 {
    (mstatus & 0xffff_e7ff) | ((mpp << 11) & 0x1800)
  }

  function WithMpie(mstatus: bv32, mpie: bool): bv32 {
    (mstatus & 0xffff_ff7f) | (if mpie then 0x80 else 0)
  }

  predicate SyncExcSeen(cpuctrlsts: bv32) {
    cpuctrlsts & 0x40 != 0
  }

  predicate DoubleFaultSeen(cpuctrlsts: bv32) {
    cpuctrlsts & 0x80 != 0
  }

  function WithSyncExcSeen(cpuctrlsts: bv32, flag: bool): bv32 {
    (cpuctrlsts & 0x1bf) | (if flag then 0x40 else 0)
  }

  function WithDoubleFaultSeen(cpuctrlsts: bv32): bv32 {
    (cpuctrlsts & 0x17f) | 0x80
  }

  /** Writing one flag sets its bit and leaves the other, and the seven other control bits, alone. */
  lemma FlagLenses(c: bv32, flag: bool)
    ensures WithSyncExcSeen(c, flag) & 0x40 == (if flag then 0x40 else 0)
    ensures WithSyncExcSeen(c, flag) & 0xffff_ffbf == c & 0x1bf
    ensures WithDoubleFaultSeen(c) & 0x80 == 0x80
    ensures WithDoubleFaultSeen(c) & 0xffff_ff7f == c & 0x17f
    ensures SyncExcSeen(WithSyncExcSeen(c, flag)) == flag
    ensures DoubleFaultSeen(WithSyncExcSeen(c, flag)) == DoubleFaultSeen(c)
    ensures DoubleFaultSeen(WithDoubleFaultSeen(c))
    ensures SyncExcSeen(WithDoubleFaultSeen(c)) == SyncExcSeen(c)
  {}

  /** Restoring both mstatus fields sets exactly those two: bits 12 and 11, and bit 7. */
  lemma StatusLenses(m: bv32, n: bv32, mpie: bool)
    ensures WithMpie(WithMpp(m, Mpp(n)), Mpie(n)) == (m & 0xffff_e77f) | (n & 0x1880)
    ensures Mpp(WithMpie(WithMpp(m, Mpp(n)), mpie)) == Mpp(n)
    ensures Mpie(WithMpie(WithMpp(m, Mpp(n)), mpie)) == mpie
    ensures WithMpie(WithMpp(m, Mpp(n)), mpie) & 0xffff_e77f == m & 0xffff_e77f
  {}

  // ---------------------------------------------------------------- one event

  function Save(h: Hart): Saved {
    Saved(Mpp(h.mstatus), Mpie(h.mstatus), h.mepc, h.mcause)
  }

  /** Whether an interrupt event is taken. */
  predicate Accepts(h: Hart, e: Event) {
    e.Nmi? && !h.nmiMode && !e.debugMode && !e.haltRequested
  }

  function Step(h: Hart, e: Event): Hart {
    match e
    case SyncTrap(debugMode) =>
      if debugMode then h else
      var seen := SyncExcSeen(h.cpuctrlsts);
      var c := WithSyncExcSeen(h.cpuctrlsts, true);
      h.(cpuctrlsts := if seen then WithDoubleFaultSeen(c) else c)
    case Mret =>
      var h' := h.(cpuctrlsts := WithSyncExcSeen(h.cpuctrlsts, false));
      if !h.nmiMode then h' else
      h'.(nmiMode := false,
          mstatus := WithMpie(WithMpp(h.mstatus, h.mstack.mpp), h.mstack.mpie),
          mepc := h.mstack.epc, mcause := h.mstack.cause)
    case Nmi(_, _) =>
      if Accepts(h, e) then h.(nmiMode := true, mstack := Save(h)) else h
    case Simulated(mstatus, mepc, mcause) => h.(mstatus := mstatus, mepc := mepc, mcause := mcause)
  }

  function After(h: Hart, events: seq<Event>): Hart
    decreases |events|
  {
    if events == [] then h
    else Step(After(h, events[..|events| - 1]), events[|events| - 1])
  }

  lemma AfterPrefix(h: Hart, events: seq<Event>, e: Event)
    ensures After(h, events + [e]) == Step(After(h, events), e)
  {
    assert (events + [e])[..|events|] == events;
  }

  // ---------------------------------------------------------------- flags

  predicate Faults(e: Event) {
    e == SyncTrap(false)
  }

  /** Trap `i` has no later return within `events`. */
  ghost predicate Open(events: seq<Event>, i: nat) {
    i < |events| && Faults(events[i]) && forall k :: i < k < |events| ==> events[k] != Mret
  }

  /** Two traps with no return between them. */
  ghost predicate Nested(events: seq<Event>, i: nat, j: nat) {
    && i < j < |events| && Faults(events[i]) && Faults(events[j])
    && forall k :: i < k < j ==> events[k] != Mret
  }

  /** The two flags as booleans: a trap still open, and a trap inside an open one. */
  datatype Flags = Flags(open: bool, nested: bool)

  function NextFlags(f: Flags, e: Event): Flags {
    if Faults(e) then Flags(true, f.nested || f.open)
    else if e.Mret? then f.(open := false)
    else f
  }

  function FlagsOf(h: Hart): Flags {
    Flags(SyncExcSeen(h.cpuctrlsts), DoubleFaultSeen(h.cpuctrlsts))
  }

  function FlagsAfter(f: Flags, events: seq<Event>): Flags
    decreases |events|
  {
    if events == [] then f
    else NextFlags(FlagsAfter(f, events[..|events| - 1]), events[|events| - 1])
  }

  /** The bit operations on CPUCTRLSTS are the boolean transitions. */
  lemma StepMovesFlags(h: Hart, e: Event)
    ensures FlagsOf(Step(h, e)) == NextFlags(FlagsOf(h), e)
  {
    var c := h.cpuctrlsts;
    FlagLenses(c, true);
    FlagLenses(c, false);
    FlagLenses(WithSyncExcSeen(c, true), true);
  }

  lemma {:induction false} RunMovesFlags(h: Hart, events: seq<Event>)
    ensures FlagsOf(After(h, events)) == FlagsAfter(FlagsOf(h), events)
    decreases |events|
  {
    if events != [] {
      var n := |events| - 1;
      RunMovesFlags(h, events[..n]);
      StepMovesFlags(After(h, events[..n]), events[n]);
    }
  }

  const Clear := Flags(false, false)

  lemma {:induction false} OpenFlag(events: seq<Event>)
    ensures FlagsAfter(Clear, events).open <==> exists i: nat :: Open(events, i)
    decreases |events|
  {
    if events != [] {
      var n := |events| - 1;
      var before := events[..n];
      OpenFlag(before);
      if Faults(events[n]) { assert Open(events, n); }
      forall i: nat | Open(before, i) && events[n] != Mret ensures Open(events, i) {}
      forall i: nat | i < n && Open(events, i) ensures Open(before, i) {}
    }
  }

  lemma {:induction false} NestedFlag(events: seq<Event>)
    ensures FlagsAfter(Clear, events).nested <==> exists i: nat, j: nat :: Nested(events, i, j)
    decreases |events|
  {
    if events != [] {
      var n := |events| - 1;
      var before := events[..n];
      NestedFlag(before);
      OpenFlag(before);
      forall i: nat, j: nat | Nested(before, i, j) ensures Nested(events, i, j) {}
      forall i: nat, j: nat | j < n && Nested(events, i, j) ensures Nested(before, i, j) {}
      forall i: nat | Nested(events, i, n) ensures Open(before, i) {}
      forall i: nat | Open(before, i) && Faults(events[n]) ensures Nested(events, i, n) {}
    }
  }

  lemma FlagBits(c: bv32)
    ensures SyncExcSeen(c) <==> c & 0x40 == 0x40
    ensures DoubleFaultSeen(c) <==> c & 0x80 == 0x80
  {}

  lemma ClearBits(c: bv32)
    requires c & 0xc0 == 0
    ensures !SyncExcSeen(c) && !DoubleFaultSeen(c)
  {}

  /** Over every history the other control bits stay, and the unused ones stay clear. */
  lemma {:induction false} ControlBitsStay(h: Hart, events: seq<Event>)
    ensures After(h, events).cpuctrlsts & 0x13f == h.cpuctrlsts & 0x13f
    ensures h.cpuctrlsts & 0xffff_fe00 == 0 ==> After(h, events).cpuctrlsts & 0xffff_fe00 == 0
    decreases |events|
  {
    if events != [] {
      var n := |events| - 1;
      ControlBitsStay(h, events[..n]);
      StepKeepsControl(After(h, events[..n]), events[n]);
    }
  }

  lemma StepKeepsControl(h: Hart, e: Event)
    ensures Step(h, e).cpuctrlsts & 0x13f == h.cpuctrlsts & 0x13f
    ensures h.cpuctrlsts & 0xffff_fe00 == 0 ==> Step(h, e).cpuctrlsts & 0xffff_fe00 == 0
  {
    var c, d := h.cpuctrlsts, Step(h, e).cpuctrlsts;
    ControlAfter(h, e);
    if d != c { KeepControl(c, !e.Mret?); }
  }

  lemma ControlAfter(h: Hart, e: Event)
    ensures var c, d := h.cpuctrlsts, Step(h, e).cpuctrlsts;
            || d == c || d == WithSyncExcSeen(c, !e.Mret?)
            || d == WithDoubleFaultSeen(WithSyncExcSeen(c, !e.Mret?))
  {}

  lemma KeepControl(c: bv32, flag: bool)
    ensures var s := WithSyncExcSeen(c, flag); s & 0x13f == c & 0x13f && s & 0xffff_fe00 == 0
    ensures var s := WithDoubleFaultSeen(WithSyncExcSeen(c, flag)); s & 0x13f == c & 0x13f && s & 0xffff_fe00 == 0
  {}

  /** The sync-exception flag is set exactly when the latest trap has no later return. */
  lemma SyncFlagIsOpenTrap(h: Hart, events: seq<Event>)
    requires h.cpuctrlsts & 0xc0 == 0
    ensures After(h, events).cpuctrlsts & 0x40 == 0x40 <==> exists i: nat :: Open(events, i)
  {
    ClearBits(h.cpuctrlsts);
    RunMovesFlags(h, events);
    OpenFlag(events);
    FlagBits(After(h, events).cpuctrlsts);
  }

  /** The double-fault flag is set exactly when two traps occurred with no return between. */
  lemma DoubleFaultFlagIsNesting(h: Hart, events: seq<Event>)
    requires h.cpuctrlsts & 0xc0 == 0
    ensures After(h, events).cpuctrlsts & 0x80 == 0x80 <==> exists i: nat, j: nat :: Nested(events, i, j)
  {
    ClearBits(h.cpuctrlsts);
    RunMovesFlags(h, events);
    NestedFlag(events);
    FlagBits(After(h, events).cpuctrlsts);
  }

  /** Once seen, a double fault stays seen. */
  lemma {:induction false} DoubleFaultIsSticky(h: Hart, events: seq<Event>)
    requires DoubleFaultSeen(h.cpuctrlsts)
    ensures DoubleFaultSeen(After(h, events).cpuctrlsts)
    decreases |events|
  {
    if events != [] {
      var n := |events| - 1;
      DoubleFaultIsSticky(h, events[..n]);
      StepMovesFlags(After(h, events[..n]), events[n]);
    }
  }

  // ---------------------------------------------------------------- recoverable interrupts

  /** An interrupt is taken outside interrupt and debug mode and with no halt requested, and otherwise ignored. */
  lemma InterruptTaken(h: Hart, debugMode: bool, haltRequested: bool)
    ensures var h' := Step(h, Nmi(debugMode, haltRequested));
            if h.nmiMode || debugMode || haltRequested then h' == h
            else h'.nmiMode && h'.mstack.epc == h.mepc && h'.mstack.cause == h.mcause
                 && h' == h.(nmiMode := true, mstack := h'.mstack)
  {}

  /** Interrupt `i` is not masked and no return follows it. */
  ghost predicate Pending(events: seq<Event>, i: nat) {
    i < |events| && events[i] == Nmi(false, false) && forall k :: i < k < |events| ==> events[k] != Mret
  }

  /** Over every history the hart is in interrupt mode exactly when some unmasked interrupt has no later return. */
  lemma {:induction false} InterruptModeIff(h: Hart, events: seq<Event>)
    requires !h.nmiMode
    ensures After(h, events).nmiMode <==> exists i: nat :: Pending(events, i)
    decreases |events|
  {
    if events != [] {
      var n := |events| - 1;
      var before := events[..n];
      InterruptModeIff(h, before);
      forall i: nat | Pending(before, i) && events[n] != Mret ensures Pending(events, i) {}
      forall i: nat | i < n && Pending(events, i) ensures Pending(before, i) {}
      if events[n] == Nmi(false, false) { assert Pending(events, n); }
    }
  }

  /** Event `i` is the latest interrupt entry and nothing has left interrupt mode since. */
  ghost predicate EnteredAt(h: Hart, events: seq<Event>, i: nat) {
    && i < |events| && Accepts(After(h, events[..i]), events[i])
    && forall k :: i < k <= |events| ==> After(h, events[..k]).nmiMode
  }

  /** In interrupt mode the saved registers are those at the latest entry. */
  lemma {:induction false} SavedAtEntry(h: Hart, events: seq<Event>) returns (i: nat)
    requires !h.nmiMode && After(h, events).nmiMode
    ensures EnteredAt(h, events, i)
    ensures After(h, events).mstack == Save(After(h, events[..i]))
    decreases |events|
  {
    var n := |events| - 1;
    var before := events[..n];
    if Accepts(After(h, before), events[n]) {
      i := n;
      assert events[..|events|] == events;
    } else {
      i := SavedAtEntry(h, before);
      assert before[..i] == events[..i];
      forall k | i < k <= |events| ensures After(h, events[..k]).nmiMode {
        if k <= n { assert before[..k] == events[..k]; } else { assert events[..k] == events; }
      }
    }
  }

  /** `left` has left interrupt mode with the saved registers of `entry` and the rest of mstatus as `now`. */
  predicate Restored(now: Hart, left: Hart, entry: Hart) {
    && !left.nmiMode
    && left.mstatus == (now.mstatus & 0xffff_e77f) | (entry.mstatus & 0x1880)
    && Mpp(left.mstatus) == Mpp(entry.mstatus) && Mpie(left.mstatus) == Mpie(entry.mstatus)
    && left.mepc == entry.mepc && left.mcause == entry.mcause
    && left.mstatus & 0xffff_e77f == now.mstatus & 0xffff_e77f
  }

  lemma MretRestores(now: Hart, entry: Hart)
    requires now.nmiMode && now.mstack == Save(entry)
    ensures Restored(now, Step(now, Mret), entry)
  {
    StatusLenses(now.mstatus, entry.mstatus, Mpie(entry.mstatus));
  }

  /**
   Returning from a non-maskable interrupt puts back MPP, MPIE, mepc and mcause as they were
   just before the latest entry, whatever happened in between, and touches no other mstatus bit.
   */
  lemma ReturnRestoresEntry(h: Hart, events: seq<Event>) returns (i: nat)
    requires !h.nmiMode && After(h, events).nmiMode
    ensures EnteredAt(h, events, i)
    ensures Restored(After(h, events), After(h, events + [Mret]), After(h, events[..i]))
  {
    i := SavedAtEntry(h, events);
    AfterPrefix(h, events, Mret);
    MretRestores(After(h, events), After(h, events[..i]));
  }

  // ---------------------------------------------------------------- the object itself

  /** The co-simulator's view of the hart, updated in place. */
  class TrapState {
    var cpuctrlsts: bv32
    var mstatus: bv32
    var mepc: bv32
    var mcause: bv32
    var nmiMode: bool
    var mstack: Saved

    ghost function View(): Hart
      reads this
    {
      Hart(cpuctrlsts, mstatus, mepc, mcause, nmiMode, mstack)
    }

    method ChangeSyncExcSeen(flag: bool) returns (wasSeen: bool)
      modifies this`cpuctrlsts
      ensures wasSeen == SyncExcSeen(old(cpuctrlsts))
      ensures cpuctrlsts == WithSyncExcSeen(old(cpuctrlsts), flag)
    {
      wasSeen := cpuctrlsts & 0x40 != 0;
      cpuctrlsts := (cpuctrlsts & 0x1bf) | (if flag then 0x40 else 0);
    }

    method HandleExceptionEntry(debugMode: bool)
      modifies this`cpuctrlsts
      ensures View() == Step(old(View()), SyncTrap(debugMode))
    {
      if !debugMode {
        var seen := ChangeSyncExcSeen(true);
        if seen { cpuctrlsts := (cpuctrlsts & 0x17f) | 0x80; }
      }
    }

    method SetNmi(nmi: bool, debugMode: bool, haltRequested: bool)
      modifies this
      ensures View() == if nmi then Step(old(View()), Nmi(debugMode, haltRequested)) else old(View())
    {
      if nmi && !nmiMode && !debugMode && !haltRequested {
        nmiMode := true;
        mstack := Saved((mstatus & 0x1800) >> 11, mstatus & 0x80 != 0, mepc, mcause);
      }
    }

    method LeaveNmiMode()
      modifies this
      ensures View() == old(View()).(nmiMode := false, mepc := old(mstack.epc), mcause := old(mstack.cause),
                                     mstatus := WithMpie(WithMpp(old(mstatus), old(mstack.mpp)), old(mstack.mpie)))
    {
      nmiMode := false;
      mstatus := WithMpie(WithMpp(mstatus, mstack.mpp), mstack.mpie);
      mepc, mcause := mstack.epc, mstack.cause;
    }

    method RetireMret()
      modifies this
      ensures View() == Step(old(View()), Mret)
    {
      var _ := ChangeSyncExcSeen(false);
      if nmiMode { LeaveNmiMode(); }
    }
  }
}
