/**
 * The software revoker and the epoch test by which the allocator learns that freed memory
 * has left circulation.
 *
 * The revoker sweeps a region of capability-sized slots.  Reading a slot passes through the
 * load barrier, which drops a capability whose object is marked as freed.  The epoch is a
 * 32-bit count of sweeps started plus sweeps finished.  A history says what the sweeper and
 * the rest of the system did, in order and without any wrap.
 */
module Revoker {

  datatype Cap = Null | To(obj: nat)

  datatype Event =
    | Start
    | Scan(slot: nat)
    | Finish
    | Mark(obj: nat)
    | Unmark(obj: nat)
    | Put(slot: nat, cap: Cap)

  /** `changes` counts the sweeps started and finished; `next` is the slot to scan next. */
  datatype View = View(sweeping: bool, next: nat, changes: nat, marked: set<nat>, memory: seq<Cap>)

  /** The events so far, and the state before the first and after each. */
  datatype History = History(log: seq<Event>, views: seq<View>)

  function Barrier(c: Cap, marked: set<nat>): Cap {
    if c.To? && c.obj in marked then Null else c
  }

  /** What a thread stores came through the barrier, so it is not a marked object. */
  predicate Enabled(v: View, e: Event) {
    match e
    case Start => !v.sweeping
    case Scan(k) => v.sweeping && k == v.next && k < |v.memory|
    case Finish => v.sweeping && v.next == |v.memory|
    case Mark(_) => true
    case Unmark(_) => true
    case Put(k, c) => k < |v.memory| && Barrier(c, v.marked) == c
  }

  function Apply(v: View, e: Event): View
    requires Enabled(v, e)
  {
    match e
    case Start => v.(sweeping := true, next := 0, changes := v.changes + 1)
    case Scan(k) => v.(next := k + 1, memory := v.memory[k := Barrier(v.memory[k], v.marked)])
    case Finish => v.(sweeping := false, next := 0, changes := v.changes + 1)
    case Mark(o) => v.(marked := v.marked + {o})
    case Unmark(o) => v.(marked := v.marked - {o})
    case Put(k, c) => v.(memory := v.memory[k := c])
  }

  ghost predicate StepAt(h: History, q: nat) {
    && q < |h.log| && q + 1 < |h.views|
    && Enabled(h.views[q], h.log[q])
    && h.views[q + 1] == Apply(h.views[q], h.log[q])
  }

  /** The system boots idle, with nothing marked and the epoch at zero. */
  ghost predicate Legal(h: History) {
    && |h.views| == |h.log| + 1
    && h.views[0] == View(false, 0, 0, {}, h.views[0].memory)
    && (forall q :: 0 <= q < |h.log| ==> StepAt(h, q))
  }

  ghost function Now(h: History): View
    requires |h.views| > 0
  {
    h.views[|h.views| - 1]
  }

  ghost function Slots(h: History): nat
    requires |h.views| > 0
  {
    |h.views[0].memory|
  }

  ghost function Then(h: History, e: Event): History
    requires |h.views| > 0 && Enabled(Now(h), e)
  {
    History(h.log + [e], h.views + [Apply(Now(h), e)])
  }

  lemma ThenIsLegal(h: History, e: Event)
    requires Legal(h) && Enabled(Now(h), e)
    ensures Legal(Then(h, e))
  {
    var g := Then(h, e);
    forall q | 0 <= q < |g.log|
      ensures StepAt(g, q)
    {
      if q < |h.log| { assert StepAt(h, q); }
    }
  }

  lemma {:induction false} SameSlots(h: History, q: nat)
    requires Legal(h) && q < |h.views|
    ensures |h.views[q].memory| == Slots(h)
  {
    if q > 0 {
      SameSlots(h, q - 1);
      assert StepAt(h, q - 1);
    }
  }

  /** The revoker is sweeping exactly when the number of starts and finishes is odd. */
  lemma {:induction false} OddIsSweeping(h: History, q: nat)
    requires Legal(h) && q < |h.views|
    ensures h.views[q].sweeping == (h.views[q].changes % 2 == 1)
  {
    if q > 0 {
      OddIsSweeping(h, q - 1);
      assert StepAt(h, q - 1);
    }
  }

  lemma {:induction false} ChangesGrow(h: History, p: nat, q: nat)
    requires Legal(h) && p <= q < |h.views|
    ensures h.views[p].changes <= h.views[q].changes
    decreases q - p
  {
    if p < q {
      ChangesGrow(h, p, q - 1);
      assert StepAt(h, q - 1);
    }
  }

  /** The count moves by one at a time, so some event takes it from `c` to `c + 1`. */
  lemma {:induction false} Crossing(h: History, p: nat, q: nat, c: nat) returns (s: nat)
    requires Legal(h) && p <= q < |h.views|
    requires h.views[p].changes <= c < h.views[q].changes
    ensures p <= s < q
    ensures h.views[s].changes == c && h.views[s + 1].changes == c + 1
    decreases q - p
  {
    assert StepAt(h, q - 1);
    if h.views[q - 1].changes <= c {
      s := q - 1;
    } else {
      s := Crossing(h, p, q - 1, c);
    }
  }

  ghost predicate Scanned(log: seq<Event>, k: nat, from: nat, to: nat)
    requires to <= |log|
  {
    exists t :: from <= t < to && log[t] == Scan(k)
  }

  /** One whole sweep: a start, later its own finish, and every slot scanned between the two. */
  ghost predicate Sweep(log: seq<Event>, n: nat, s: nat, f: nat) {
    && s < f < |log|
    && log[s] == Start && log[f] == Finish
    && (forall t :: s < t < f ==> log[t] != Start && log[t] != Finish)
    && (forall k :: 0 <= k < n ==> Scanned(log, k, s, f))
  }

  /** A whole sweep both started and finished since the log had `p` events. */
  ghost predicate WholeSweep(log: seq<Event>, n: nat, p: nat) {
    exists s, f :: p <= s && Sweep(log, n, s, f)
  }

  ghost predicate ScannedBelow(h: History, s: nat, q: nat)
    requires q < |h.views| && q <= |h.log|
  {
    forall k :: 0 <= k < h.views[q].next ==> Scanned(h.log, k, s, q)
  }

  lemma ScannedOneMore(h: History, s: nat, q: nat)
    requires Legal(h) && s < q <= |h.log| && StepAt(h, q - 1)
    requires h.log[q - 1] != Start
    requires ScannedBelow(h, s, q - 1)
    ensures ScannedBelow(h, s, q)
  {
    forall k | 0 <= k < h.views[q].next
      ensures Scanned(h.log, k, s, q)
    {
      if k < h.views[q - 1].next {
        assert Scanned(h.log, k, s, q - 1);
      } else {
        assert h.log[q - 1] == Scan(k);
      }
    }
  }

  /** While a sweep runs, every slot below the next one has been scanned since it started. */
  lemma {:induction false} Progress(h: History, s: nat, q: nat)
    requires Legal(h) && s < q <= |h.log| && h.log[s] == Start
    requires h.views[q].changes == h.views[s].changes + 1
    ensures ScannedBelow(h, s, q)
    decreases q
  {
    assert StepAt(h, s);
    if q > s + 1 {
      ChangesGrow(h, s + 1, q - 1);
      assert StepAt(h, q - 1);
      Progress(h, s, q - 1);
      ScannedOneMore(h, s, q);
    }
  }

  lemma Quiet(h: History, s: nat, f: nat)
    requires Legal(h) && s < f <= |h.log|
    requires h.views[s + 1].changes == h.views[f].changes
    ensures forall t :: s < t < f ==> h.log[t] != Start && h.log[t] != Finish
  {
    forall t | s < t < f
      ensures h.log[t] != Start && h.log[t] != Finish
    {
      ChangesGrow(h, s + 1, t);
      ChangesGrow(h, t + 1, f);
      assert StepAt(h, t);
    }
  }

  /** From an idle revoker two changes make a whole sweep; from a running one, three. */
  function Needed(stored: nat): nat {
    2 + stored % 2
  }

  lemma EnoughChanges(h: History, p: nat)
    requires Legal(h) && p <= |h.log|
    requires Now(h).changes >= h.views[p].changes + Needed(h.views[p].changes)
    ensures WholeSweep(h.log, Slots(h), p)
  {
    var c := h.views[p].changes;
    var even := c + c % 2;
    var s := Crossing(h, p, |h.log|, even);
    OddIsSweeping(h, s);
    assert StepAt(h, s);
    var f := Crossing(h, s + 1, |h.log|, even + 1);
    OddIsSweeping(h, f);
    assert StepAt(h, f);
    SameSlots(h, f);
    Progress(h, s, f);
    Quiet(h, s, f);
    assert Sweep(h.log, Slots(h), s, f);
  }

  lemma SweepChanges(h: History, p: nat)
    requires Legal(h) && p <= |h.log|
    requires WholeSweep(h.log, Slots(h), p)
    ensures Now(h).changes >= h.views[p].changes + Needed(h.views[p].changes)
  {
    var s: nat, f: nat :| p <= s && Sweep(h.log, Slots(h), s, f);
    assert StepAt(h, s);
    assert StepAt(h, f);
    OddIsSweeping(h, s);
    ChangesGrow(h, p, s);
    ChangesGrow(h, s + 1, f);
    ChangesGrow(h, f + 1, |h.log|);
  }

  // The 32-bit epoch.

  function Signed(d: nat): int {
    if d < 0x8000_0000 then d else d - 0x1_0000_0000
  }

  /** The current epoch less the stored one, as unsigned words read back signed. */
  function Distance(current: nat, previous: nat): int {
    Signed((current - previous) % 0x1_0000_0000)
  }

  predicate FullAnswer(current: nat, previous: nat) {
    Distance(current, previous) > 1 + previous % 2
  }

  predicate PartialAnswer(current: nat, previous: nat) {
    Distance(current, previous) >= 0
  }

  function EpochOf(changes: nat): (w: nat)
    ensures w < 0x1_0000_0000 && w % 2 == changes % 2
  {
    changes % 0x1_0000_0000
  }

  lemma AnswerAfter(p: nat, q: nat)
    requires p <= q
    ensures FullAnswer(EpochOf(q), EpochOf(p)) <==> Needed(p) <= (q - p) % 0x1_0000_0000 < 0x8000_0000
    ensures PartialAnswer(EpochOf(q), EpochOf(p)) <==> (q - p) % 0x1_0000_0000 < 0x8000_0000
  {
    assert (EpochOf(q) - EpochOf(p)) % 0x1_0000_0000 == (q - p) % 0x1_0000_0000;
  }

  /** However often the counter wrapped, a yes is never given before a whole sweep. */
  lemma FullAnswerIsSound(h: History, p: nat)
    requires Legal(h) && p <= |h.log|
    requires FullAnswer(EpochOf(Now(h).changes), EpochOf(h.views[p].changes))
    ensures WholeSweep(h.log, Slots(h), p)
  {
    ChangesGrow(h, p, |h.log|);
    AnswerAfter(h.views[p].changes, Now(h).changes);
    EnoughChanges(h, p);
  }

  /**
   * The answer is right exactly when the number of changes since the epoch was stored is too
   * small for a sweep, or lies, modulo the word, in the lower half and past the minimum.
   */
  lemma FullAnswerIsExact(h: History, p: nat)
    requires Legal(h) && p <= |h.log|
    ensures
      var stored := h.views[p].changes;
      var since := Now(h).changes - stored;
      var right := FullAnswer(EpochOf(Now(h).changes), EpochOf(stored)) <==> WholeSweep(h.log, Slots(h), p);
      && since >= 0
      && (right <==> since < Needed(stored) || Needed(stored) <= since % 0x1_0000_0000 < 0x8000_0000)
      && (since < 0x8000_0000 ==> right)
  {
    var stored, current := h.views[p].changes, Now(h).changes;
    ChangesGrow(h, p, |h.log|);
    AnswerAfter(stored, current);
    SweptIffEnough(h, p);
    RemainderBelow(current - stored);
  }

  lemma SweptIffEnough(h: History, p: nat)
    requires Legal(h) && p <= |h.log|
    ensures WholeSweep(h.log, Slots(h), p) <==> Now(h).changes - h.views[p].changes >= Needed(h.views[p].changes)
  {
    if WholeSweep(h.log, Slots(h), p) { SweepChanges(h, p); }
    if Now(h).changes - h.views[p].changes >= Needed(h.views[p].changes) { EnoughChanges(h, p); }
  }

  lemma RemainderBelow(n: nat)
    ensures n % 0x1_0000_0000 <= n && (n < 0x8000_0000 ==> n % 0x1_0000_0000 == n)
  {}

  /** A sweep that has reached slot `next` goes on to the last. */
  lemma {:induction false} ScanOn(h: History) returns (g: History)
    requires Legal(h) && Now(h).sweeping && Now(h).next <= |Now(h).memory|
    ensures Legal(g) && g.views[0] == h.views[0]
    ensures Now(g).sweeping && Now(g).next == |Now(g).memory| && Now(g).changes == Now(h).changes
    decreases |Now(h).memory| - Now(h).next
  {
    if Now(h).next == |Now(h).memory| {
      g := h;
    } else {
      var e := Scan(Now(h).next);
      ThenIsLegal(h, e);
      g := ScanOn(Then(h, e));
    }
  }

  /** Any number of whole sweeps of any memory, one after the other. */
  lemma {:induction false} Sweeps(memory: seq<Cap>, count: nat) returns (h: History)
    ensures Legal(h) && h.views[0].memory == memory
    ensures !Now(h).sweeping && Now(h).changes == 2 * count
  {
    if count == 0 {
      h := History([], [View(false, 0, 0, {}, memory)]);
    } else {
      h := Sweeps(memory, count - 1);
      ThenIsLegal(h, Start);
      h := ScanOn(Then(h, Start));
      ThenIsLegal(h, Finish);
      h := Then(h, Finish);
    }
  }

  /** After 2^30 sweeps, which is 2^31 changes of the epoch, the answer is no although a sweep was made. */
  lemma LongSilenceAnswersNo(memory: seq<Cap>) returns (h: History)
    ensures Legal(h) && h.views[0].memory == memory && WholeSweep(h.log, |memory|, 0)
    ensures !FullAnswer(EpochOf(Now(h).changes), EpochOf(h.views[0].changes))
  {
    h := Sweeps(memory, 0x4000_0000);
    EnoughChanges(h, 0);
    AnswerAfter(0, 0x8000_0000);
  }

  // What the answer is for: a freed object is out of circulation.

  ghost predicate MarkedSince(h: History, obj: nat, p: nat) {
    forall q :: p <= q < |h.views| ==> obj in h.views[q].marked
  }

  lemma {:induction false} StaysOut(h: History, obj: nat, p: nat, k: nat, t: nat, q: nat)
    requires Legal(h) && MarkedSince(h, obj, p)
    requires p <= t < q <= |h.log| && k < Slots(h) && h.log[t] == Scan(k)
    requires |h.views[q].memory| == Slots(h)
    ensures h.views[q].memory[k] != To(obj)
    decreases q
  {
    SameSlots(h, q - 1);
    assert StepAt(h, q - 1);
    assert obj in h.views[q - 1].marked;
    if q > t + 1 { StaysOut(h, obj, p, k, t, q - 1); }
  }

  /**
   * If an object was marked no later than the epoch was stored and stayed marked, then once the
   * query answers yes no slot holds a capability to it.
   */
  lemma FreedObjectIsGone(h: History, obj: nat, p: nat)
    requires Legal(h) && p <= |h.log| && MarkedSince(h, obj, p)
    requires FullAnswer(EpochOf(Now(h).changes), EpochOf(h.views[p].changes))
    ensures To(obj) !in Now(h).memory
  {
    FullAnswerIsSound(h, p);
    SameSlots(h, |h.log|);
    var s: nat, f: nat :| p <= s && Sweep(h.log, Slots(h), s, f);
    forall k | 0 <= k < Slots(h)
      ensures Now(h).memory[k] != To(obj)
    {
      assert Scanned(h.log, k, s, f);
      var t :| s <= t < f && h.log[t] == Scan(k);
      StaysOut(h, obj, p, k, t, |h.log|);
    }
  }

  /** No slot refers to an object that has stayed marked since some moment at which the epoch was `previous`. */
  ghost predicate NoneLeft(h: History, previous: nat)
    requires |h.views| > 0
  {
    forall p: nat, obj: nat :: p < |h.views| && EpochOf(h.views[p].changes) == previous && MarkedSince(h, obj, p)
      ==> To(obj) !in Now(h).memory
  }

  lemma NothingLeft(h: History, previous: nat)
    requires Legal(h) && FullAnswer(EpochOf(Now(h).changes), previous)
    ensures NoneLeft(h, previous)
  {
    forall p: nat, obj: nat | p < |h.views| && EpochOf(h.views[p].changes) == previous && MarkedSince(h, obj, p)
      ensures To(obj) !in Now(h).memory
    {
      FreedObjectIsGone(h, obj, p);
    }
  }

  // What a sweep keeps.

  /** Slot `k` was scanned, from `p` up to `q`, at a moment when the object of `c` was marked. */
  ghost predicate Revoked(h: History, k: nat, c: Cap, p: nat, q: nat)
    requires q < |h.views| && q <= |h.log|
  {
    exists t :: p <= t < q && h.log[t] == Scan(k) && c.To? && c.obj in h.views[t].marked
  }

  ghost predicate NoStore(log: seq<Event>, k: nat, p: nat, q: nat)
    requires q <= |log|
  {
    forall t :: p <= t < q ==> !log[t].Put? || log[t].slot != k
  }

  /** Until a thread stores into it, a slot keeps its capability, unless it is scanned while the object is marked. */
  lemma {:induction false} SlotIs(h: History, k: nat, c: Cap, p: nat, q: nat)
    requires Legal(h) && p <= q <= |h.log| && k < Slots(h)
    requires |h.views[p].memory| == |h.views[q].memory| == Slots(h)
    requires h.views[p].memory[k] == c && NoStore(h.log, k, p, q)
    ensures h.views[q].memory[k] == if Revoked(h, k, c, p, q) then Null else c
    decreases q - p
  {
    if p < q {
      SameSlots(h, q - 1);
      assert StepAt(h, q - 1);
      SlotIs(h, k, c, p, q - 1);
      assert Revoked(h, k, c, p, q - 1) ==> Revoked(h, k, c, p, q);
    }
  }

  /** A store is what the slot then holds. */
  lemma StoredIs(h: History, t: nat)
    requires Legal(h) && t < |h.log| && h.log[t].Put?
    ensures h.log[t].slot < |h.views[t + 1].memory| && h.views[t + 1].memory[h.log[t].slot] == h.log[t].cap
  {
    assert StepAt(h, t);
  }

  /** An object is marked exactly when its latest mark has not been cleared. */
  lemma {:induction false} MarkedIff(h: History, obj: nat, q: nat)
    requires Legal(h) && q <= |h.log|
    ensures obj in h.views[q].marked <==> exists m: nat :: MarkHolds(h.log, obj, m, q)
  {
    if q > 0 {
      assert StepAt(h, q - 1);
      MarkedIff(h, obj, q - 1);
      if obj in h.views[q].marked {
        if obj in h.views[q - 1].marked {
          var m: nat :| MarkHolds(h.log, obj, m, q - 1);
          assert MarkHolds(h.log, obj, m, q);
        } else {
          assert MarkHolds(h.log, obj, q - 1, q);
        }
      } else if m: nat :| MarkHolds(h.log, obj, m, q) {
        assert m < q - 1;
        assert MarkHolds(h.log, obj, m, q - 1);
      }
    }
  }

  ghost predicate MarkHolds(log: seq<Event>, obj: nat, m: nat, q: nat) {
    m < q <= |log| && log[m] == Mark(obj) && forall t :: m < t < q ==> log[t] != Unmark(obj)
  }

  /** Nothing live is lost: a slot not stored into since `p` keeps what it held, unless that was marked since. */
  ghost predicate LiveKept(h: History, p: nat)
    requires p < |h.views|
  {
    forall k: nat :: k < |h.views[p].memory| && k < |Now(h).memory| && p <= |h.log| && NoStore(h.log, k, p, |h.log|)
      ==> || Now(h).memory[k] == h.views[p].memory[k]
          || (h.views[p].memory[k].To? && MarkedSome(h, h.views[p].memory[k].obj, p))
  }

  ghost predicate MarkedSome(h: History, obj: nat, p: nat) {
    exists t :: p <= t < |h.views| && obj in h.views[t].marked
  }

  lemma NothingLost(h: History, p: nat)
    requires Legal(h) && p <= |h.log|
    ensures LiveKept(h, p)
  {
    SameSlots(h, p);
    SameSlots(h, |h.log|);
    forall k: nat | k < Slots(h) && NoStore(h.log, k, p, |h.log|)
      ensures || Now(h).memory[k] == h.views[p].memory[k]
              || (h.views[p].memory[k].To? && MarkedSome(h, h.views[p].memory[k].obj, p))
    {
      SlotIs(h, k, h.views[p].memory[k], p, |h.log|);
    }
  }

  // The sweeper and the allocator's side of it.

  /** The capabilities to marked objects are gone from the stretch, and everything else is as it was. */
  ghost predicate Filtered(was: seq<Cap>, now: seq<Cap>, marked: set<nat>, from: nat, to: nat) {
    && |now| == |was|
    && forall k :: 0 <= k < |was| ==>
         now[k] == if from <= k < to && was[k].To? && was[k].obj in marked then Null else was[k]
  }

  datatype Phase = NotRunning | Scanning

  const TICK_SIZE := 4096

  ghost predicate AfterSweep(h: History, previous: nat) {
    forall p :: 0 <= p <= |h.log| < |h.views| && EpochOf(h.views[p].changes) == previous
                ==> WholeSweep(h.log, Slots(h), p)
  }

  /** How many changes of the epoch are left until it is the one a full query waits for. */
  function Ahead(epoch: nat, previous: nat): nat
    requires epoch < 0x1_0000_0000 && previous < 0x1_0000_0000
  {
    var d := previous + Needed(previous) - epoch;
    if d < 0 then d + 0x1_0000_0000 else if d < 0x1_0000_0000 then d else d - 0x1_0000_0000
  }

  lemma NextEpoch(c: nat)
    ensures EpochOf(c + 1) == (EpochOf(c) + 1) % 0x1_0000_0000
  {}

  /** The events of one tick: start if idle, scan a bounded stretch, finish at the end. */
  function TickEvents(sweeping: bool, next: nat, n: nat): seq<Event>
    requires next <= n
  {
    var end := TickEnd(next, n);
    (if sweeping then [] else [Start]) + Scans(next, end) + (if end == n then [Finish] else [])
  }

  function TickEnd(next: nat, n: nat): (end: nat)
    requires next <= n
    ensures next <= end <= n && (next < n ==> next < end)
    ensures end - next <= 4096 && (end < n ==> end - next == 4096)
  {
    next + if n - next < TICK_SIZE then n - next else TICK_SIZE
  }

  function Scans(from: nat, to: nat): (events: seq<Event>)
    requires from <= to
  {
    seq(to - from, j requires j >= 0 => Scan(from + j))
  }

  lemma OneMoreScan(from: nat, to: nat)
    requires from <= to
    ensures Scans(from, to + 1) == Scans(from, to) + [Scan(to)]
  {}

  lemma AnswerCovers(h: History, previous: nat)
    requires Legal(h) && FullAnswer(EpochOf(Now(h).changes), previous)
    ensures AfterSweep(h, previous)
  {
    forall p | 0 <= p <= |h.log| && EpochOf(h.views[p].changes) == previous
      ensures WholeSweep(h.log, Slots(h), p)
    {
      FullAnswerIsSound(h, p);
    }
  }

  lemma Reduced(d: int)
    requires 0 - 0x1_0000_0000 <= d < 0x2_0000_0000
    ensures d % 0x1_0000_0000 == if d < 0 then d + 0x1_0000_0000 else if d < 0x1_0000_0000 then d else d - 0x1_0000_0000
  {}

  lemma AwaitedIsYes(epoch: nat, previous: nat)
    requires previous < 0x1_0000_0000 && epoch < 0x1_0000_0000 && Ahead(epoch, previous) == 0
    ensures FullAnswer(epoch, previous)
  {
    Reduced(epoch - previous);
  }

  lemma EvenAhead(epoch: nat, previous: nat)
    requires previous < 0x1_0000_0000 && epoch < 0x1_0000_0000 && epoch % 2 == 0
    ensures Ahead(epoch, previous) % 2 == 0
  {
    assert (previous + Needed(previous)) % 2 == 0;
  }

  /** An even epoch for which the answer is no, moved on by one or two, is nearer to the awaited one. */
  lemma KickGetsCloser(previous: nat, before: nat, asked: nat, after: nat)
    requires previous < 0x1_0000_0000 && before < 0x1_0000_0000
    requires asked % 2 == 0 && asked < 0x1_0000_0000 && !FullAnswer(asked, previous)
    requires asked == before || (before % 2 == 1 && asked == (before + 1) % 0x1_0000_0000)
    requires after == (asked + 1) % 0x1_0000_0000 || after == (asked + 2) % 0x1_0000_0000
    ensures Ahead(after, previous) < Ahead(before, previous)
  {
    if Ahead(asked, previous) == 0 { AwaitedIsYes(asked, previous); }
    EvenAhead(asked, previous);
    Reduced(before + 1);
    Reduced(asked + 1);
    Reduced(asked + 2);
    Closer(previous, before, asked, after);
  }

  lemma Closer(previous: nat, before: nat, asked: nat, after: nat)
    requires previous < 0x1_0000_0000 && before < 0x1_0000_0000 && after < 0x1_0000_0000
    requires asked < 0xFFFF_FFFF && 2 <= Ahead(asked, previous) < 0xFFFF_FFFF
    requires asked == before || asked == before + 1 || (before == 0xFFFF_FFFF && asked == 0)
    requires after == asked + 1 || after == asked + 2 || (asked == 0xFFFF_FFFE && after == 0)
    ensures Ahead(after, previous) < Ahead(before, previous)
  {}

  /** Only marks, unmarks and stores: the sweep is left alone. */
  predicate Passive(events: seq<Event>) {
    forall i :: 0 <= i < |events| ==> events[i].Mark? || events[i].Unmark? || events[i].Put?
  }

  class SoftwareRevoker {
    var currentRange: int
    var offset: nat
    var length: nat
    var epoch: nat
    var state: Phase
    var marked: set<nat>
    const memory: array<Cap>
    ghost var history: History

    /** The fields are those the history leads to, with `next` the slot to scan next. */
    ghost predicate Agrees(next: nat)
      reads this, memory
    {
      && Legal(history)
      && Now(history) == View(state.Scanning?, next, Now(history).changes, marked, memory[..])
      && epoch == EpochOf(Now(history).changes)
      && currentRange == (if state.Scanning? then 0 else -1)
      && (if state.Scanning? then length == memory.Length && next <= length else next == 0)
      && (epoch % 2 == 1 <==> state.Scanning?)
    }

    ghost predicate Valid()
      reads this, memory
    {
      Agrees(offset)
    }

    constructor (slots: array<Cap>)
      ensures Valid() && memory == slots
      ensures history == History([], [View(false, 0, 0, {}, slots[..])])
    {
      memory := slots;
      currentRange, offset, length, epoch, state, marked := -1, 0, 0, 0, NotRunning, {};
      history := History([], [View(false, 0, 0, {}, slots[..])]);
    }

    /** Enter the next state; the epoch moves on the way out of idling and on the way back. */
    method Advance()
      requires Valid() && (state.Scanning? ==> offset == length)
      modifies this
      ensures Valid() && offset == 0 && marked == old(marked)
      ensures history == old(Then(history, if state.Scanning? then Finish else Start))
      ensures state == if old(state).Scanning? then NotRunning else Scanning
      ensures epoch == (old(epoch) + 1) % 0x1_0000_0000
    {
      ghost var e := if state.Scanning? then Finish else Start;
      ThenIsLegal(history, e);
      NextEpoch(Now(history).changes);
      if state == NotRunning {
        epoch := (epoch + 1) % 0x1_0000_0000;
        assert epoch % 2 == 1;
      }
      var nextRange, nextState := if state.Scanning? then -1 else 0, if state.Scanning? then NotRunning else Scanning;
      currentRange := nextRange;
      offset := 0;
      if nextRange != -1 {
        length := memory.Length;
      }
      state := nextState;
      if state == NotRunning {
        epoch := (epoch + 1) % 0x1_0000_0000;
        assert epoch % 2 == 0;
      }
      history := Then(history, e);
    }

    /** Loading and storing back passes the slot through the barrier. */
    method ScanSlot(i: nat)
      requires Agrees(i) && state.Scanning? && i < length
      modifies this`history, memory
      ensures Agrees(i + 1)
      ensures history == old(Then(history, Scan(i)))
      ensures Filtered(old(memory[..]), memory[..], marked, i, i + 1)
    {
      ThenIsLegal(history, Scan(i));
      history := Then(history, Scan(i));
      memory[i] := Barrier(memory[i], marked);
      assert memory[..] == Now(history).memory;
    }

    method ScanRange()
      requires Valid() && state.Scanning?
      modifies this, memory
      ensures Valid() && marked == old(marked)
      ensures history.log == old(history.log + TickEvents(true, offset, length))
      ensures old(history.views) <= history.views
      ensures Filtered(old(memory[..]), memory[..], marked, old(offset), old(TickEnd(offset, length)))
      ensures
        if old(TickEnd(offset, length) == length) then
          state.NotRunning? && epoch == (old(epoch) + 1) % 0x1_0000_0000
        else
          state.Scanning? && epoch == old(epoch) && offset > old(offset)
    {
      var end := offset + if length - offset < TICK_SIZE then length - offset else TICK_SIZE;
      ghost var log, views := history.log, history.views;
      for i := offset to end
        modifies this`history, memory
        invariant Agrees(i)
        invariant history.log == log + Scans(offset, i)
        invariant views <= history.views
        invariant Filtered(old(memory[..]), memory[..], marked, offset, i)
      {
        ScanSlot(i);
        OneMoreScan(offset, i);
      }
      offset := end;
      if offset == length {
        Advance();
      }
    }

    method Tick()
      requires Valid()
      modifies this, memory
      ensures Valid() && marked == old(marked)
      ensures history.log == old(history.log + TickEvents(state.Scanning?, offset, memory.Length))
      ensures old(history.views) <= history.views
      ensures Filtered(old(memory[..]), memory[..], marked, old(offset), old(TickEnd(offset, memory.Length)))
      ensures old(state).Scanning? ==>
        || (state.NotRunning? && epoch == (old(epoch) + 1) % 0x1_0000_0000)
        || (state.Scanning? && epoch == old(epoch) && offset > old(offset))
      ensures old(state).NotRunning? ==>
        || (state.NotRunning? && epoch == (old(epoch) + 2) % 0x1_0000_0000)
        || (state.Scanning? && epoch == (old(epoch) + 1) % 0x1_0000_0000)
    {
      if state == NotRunning {
        Advance();
      }
      ScanRange();
    }

    /** Has the epoch stored earlier as `previous` been followed by a whole sweep? */
    method HasRevocationFinished(previous: nat, allowPartial: bool) returns (finished: bool)
      requires Valid()
      modifies this, memory
      ensures Valid() && marked == old(marked)
      ensures history.log == old(history.log + if epoch % 2 == 1 then TickEvents(true, offset, memory.Length) else [])
      ensures old(history.views) <= history.views
      ensures old(state).NotRunning? ==> history == old(history) && epoch == old(epoch) && state.NotRunning?
      ensures Filtered(old(memory[..]), memory[..], marked, old(offset),
                       if old(state).Scanning? then old(TickEnd(offset, memory.Length)) else 0)
      ensures old(state).Scanning? ==>
        || (state.NotRunning? && epoch == (old(epoch) + 1) % 0x1_0000_0000)
        || (state.Scanning? && epoch == old(epoch) && offset > old(offset))
      ensures finished == if allowPartial then PartialAnswer(epoch, previous) else FullAnswer(epoch, previous)
      ensures finished && !allowPartial ==> AfterSweep(history, previous)
    {
      if epoch % 2 == 1 {
        Tick();
      }
      var distance := Distance(epoch, previous);
      if allowPartial {
        return distance >= 0;
      }
      finished := distance > 1 + previous % 2;
      if finished {
        AnswerCovers(history, previous);
      }
    }

    method Kick()
      requires Valid()
      modifies this, memory
      ensures Valid() && marked == old(marked)
      ensures history.log == old(history.log + TickEvents(state.Scanning?, offset, memory.Length))
      ensures old(history.views) <= history.views
      ensures Filtered(old(memory[..]), memory[..], marked, old(offset), old(TickEnd(offset, memory.Length)))
      ensures old(state).NotRunning? ==>
        || (state.NotRunning? && epoch == (old(epoch) + 2) % 0x1_0000_0000)
        || (state.Scanning? && epoch == (old(epoch) + 1) % 0x1_0000_0000)
    {
      Tick();
    }

    /** The allocator marks a freed object. */
    method MarkFreed(obj: nat)
      requires Valid()
      modifies this`marked, this`history
      ensures Valid() && history == old(Then(history, Mark(obj))) && marked == old(marked) + {obj}
    {
      ThenIsLegal(history, Mark(obj));
      history := Then(history, Mark(obj));
      marked := marked + {obj};
    }

    /** The allocator clears the mark of an object it hands out again. */
    method ClearMark(obj: nat)
      requires Valid()
      modifies this`marked, this`history
      ensures Valid() && history == old(Then(history, Unmark(obj))) && marked == old(marked) - {obj}
    {
      ThenIsLegal(history, Unmark(obj));
      history := Then(history, Unmark(obj));
      marked := marked - {obj};
    }

    /** A thread stores a capability, which the load barrier has let through. */
    method Store(k: nat, c: Cap)
      requires Valid() && k < memory.Length && Barrier(c, marked) == c
      modifies this`history, memory
      ensures Valid() && history == old(Then(history, Put(k, c))) && memory[..] == old(memory[..][k := c])
    {
      ThenIsLegal(history, Put(k, c));
      history := Then(history, Put(k, c));
      memory[k] := c;
      assert memory[..] == Now(history).memory;
    }

    /** What other threads do while this one yields; their allocations may tick the sweep too. */
    method LetOthersRun(events: seq<Event>)
      requires Valid()
      modifies this, memory
      ensures Valid() && old(history.views) <= history.views && old(history.log) <= history.log
      ensures Passive(events) ==> epoch == old(epoch) && offset == old(offset)
    {
      for i := 0 to |events|
        invariant Valid() && old(history.views) <= history.views && old(history.log) <= history.log
        invariant Passive(events) ==> epoch == old(epoch) && offset == old(offset)
      {
        match events[i]
        case Mark(obj) => MarkFreed(obj);
        case Unmark(obj) => ClearMark(obj);
        case Put(k, c) => if k < memory.Length && Barrier(c, marked) == c { Store(k, c); }
        case _ => Tick();
      }
    }

    /** Ask once and, if the answer is no between sweeps, start another. */
    method AskAndKick(previous: nat) returns (finished: bool)
      requires Valid() && previous < 0x1_0000_0000
      modifies this, memory
      ensures Valid() && old(history.views) <= history.views && old(history.log) <= history.log
      ensures finished ==> FullAnswer(epoch, previous) && AfterSweep(history, previous)
      ensures old(state).NotRunning? ==> (finished <==> FullAnswer(old(epoch), previous))
      ensures !finished ==>
        || Ahead(epoch, previous) < Ahead(old(epoch), previous)
        || (epoch == old(epoch) && state.Scanning? && old(state).Scanning? && offset > old(offset))
    {
      finished := HasRevocationFinished(previous, false);
      if !finished && epoch % 2 == 0 {
        ghost var asked := epoch;
        Kick();
        KickGetsCloser(previous, old(epoch), asked, epoch);
      }
    }

    /**
     * Poll until a whole sweep has followed the stored epoch, or the `i`th attempt to yield
     * is refused; `others` says what happens during the `i`th yield.  From some attempt on the
     * yields run out or the others leave the sweep alone; then the loop ends, even when every
     * attempt is granted.
     */
    method WaitForRevoker(previous: nat, granted: nat -> bool, others: nat -> seq<Event>, ghost calm: nat)
        returns (done: bool)
      requires Valid() && previous < 0x1_0000_0000
      requires forall i :: i >= calm ==> !granted(i) || Passive(others(i))
      modifies this, memory
      ensures Valid() && old(history.views) <= history.views && old(history.log) <= history.log
      ensures done ==> FullAnswer(epoch, previous) && AfterSweep(history, previous) && NoneLeft(history, previous)
      ensures LiveKept(history, old(|history.log|))
      ensures (forall i :: granted(i)) ==> done
      // Between sweeps an answer that is yes already is given without a yield.
      ensures old(state).NotRunning? && FullAnswer(old(epoch), previous) ==> done
    {
      var i := 0;
      while true
        invariant Valid() && old(history.views) <= history.views && old(history.log) <= history.log
        invariant if i == 0 then state == old(state) && epoch == old(epoch)
                  else old(state).NotRunning? ==> !FullAnswer(old(epoch), previous)
        decreases if i < calm then calm - i else 0, Ahead(epoch, previous), memory.Length - offset
      {
        var finished := AskAndKick(previous);
        NothingLost(history, |old(history.log)|);
        if finished {
          NothingLeft(history, previous);
          return true;
        }
        if !granted(i) {
          return false;
        }
        LetOthersRun(others(i));
        i := i + 1;
      }
    }
  }
}
