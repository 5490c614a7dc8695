/**
 The memory-aware process scheduler of the proof conductor.  Process exits, resident
 sizes, elapsed times and the free memory of the machine are inputs.
 */
module ProcessRunner {

  import opened Basics

  datatype KillRequest = NoKill | Kill | Restart

  datatype Reason = Finished(code: int) | TimedOut | Uninterested

  /** The future a caller waits on. */
  datatype Future = Waiting | Cancelled | Resolved(reason: Reason)

  /** What the operating system says when a process is polled. */
  datatype Observation = Observation(rss: real, dt: real, code: Option<int>)

  const MEMORY_BUFFER := 5.0
  const ASSUMED_MEMORY := 3.0

  function Max(x: real, y: real): (m: real)
    ensures m >= x && m >= y && (m == x || m == y)
  {
    if x < y then y else x
  }

  function Min(x: real, y: real): (m: real)
    ensures m <= x && m <= y && (m == x || m == y)
  {
    if x < y then x else y
  }

  // ---------------------------------------------------------------- sequences of processes

  function Reverse<T>(s: seq<T>): (r: seq<T>)
    ensures |r| == |s|
    ensures forall i :: 0 <= i < |s| ==> r[i] == s[|s| - 1 - i]
  {
    seq(|s|, i requires 0 <= i < |s| => s[|s| - 1 - i])
  }

  lemma ReverseMembers<T>(s: seq<T>)
    ensures forall x :: x in s ==> x in Reverse(s)
  {
    forall i | 0 <= i < |s| ensures s[i] in Reverse(s) { assert Reverse(s)[|s| - 1 - i] == s[i]; }
  }

  /** `s` without the elements of `gone`, in order. */
  ghost function Without<T>(s: seq<T>, gone: set<T>): (r: seq<T>)
    ensures forall x :: x in r ==> x in s && x !in gone
    ensures forall x :: x in s && x !in gone ==> x in r
  {
    if s == [] then [] else (if s[0] in gone then [] else [s[0]]) + Without(s[1..], gone)
  }

  lemma {:induction false} WithoutAppend<T>(s: seq<T>, t: seq<T>, gone: set<T>)
    ensures Without(s + t, gone) == Without(s, gone) + Without(t, gone)
  {
    if s == [] {
      assert s + t == t;
    } else {
      assert (s + t)[1..] == s[1..] + t;
      WithoutAppend(s[1..], t, gone);
    }
  }

  lemma {:induction false} WithoutNothing<T>(s: seq<T>, gone: set<T>)
    requires forall x :: x in s ==> x !in gone
    ensures Without(s, gone) == s
  {
    if s != [] { WithoutNothing(s[1..], gone); }
  }

  lemma {:induction false} WithoutTwice<T>(s: seq<T>, gone: set<T>, more: set<T>)
    ensures Without(s, gone + more) == Without(Without(s, gone), more)
  {
    if s != [] {
      var head := if s[0] in gone then [] else [s[0]];
      WithoutAppend(head, Without(s[1..], gone), more);
      WithoutTwice(s[1..], gone, more);
      assert Without([s[0]], more) == if s[0] in more then [] else [s[0]];
    }
  }

  lemma WithoutMiddle<T>(a: seq<T>, x: T, b: seq<T>)
    requires x !in a && x !in b
    ensures Without(a + ([x] + b), {x}) == a + b
  {
    var tail := [x] + b;
    WithoutAppend(a, tail, {x});
    WithoutNothing(a, {x});
    WithoutNothing(b, {x});
    assert Without(tail, {x}) == b by { assert tail[0] == x && tail[1..] == b; }
  }

  /** One more element gone is that element cut out. */
  lemma WithoutOne<T>(s: seq<T>, gone: set<T>, a: seq<T>, x: T, b: seq<T>)
    requires Without(s, gone) == a + ([x] + b) && x !in a && x !in b
    ensures Without(s, gone + {x}) == a + b
  {
    WithoutTwice(s, gone, {x});
    WithoutMiddle(a, x, b);
  }

  lemma {:induction false} WithoutDistinct<T>(s: seq<T>, gone: set<T>)
    requires Distinct(s)
    ensures Distinct(Without(s, gone))
  {
    if s != [] { WithoutDistinct(s[1..], gone); }
  }

  lemma DistinctSplit<T>(a: seq<T>, x: T, b: seq<T>)
    requires Distinct(a + ([x] + b))
    ensures x !in a && x !in b
  {
    var s := a + ([x] + b);
    assert s[|a|] == x;
    forall i | 0 <= i < |a| ensures a[i] != x { assert s[i] == a[i]; }
    forall i | 0 <= i < |b| ensures b[i] != x { assert s[|a| + 1 + i] == b[i]; }
  }

  /** An element of distinct ones is either among the first `k`, or among the others. */
  lemma PlaceInSplit<T>(all: seq<T>, k: nat, p: T) returns (i: nat)
    requires Distinct(all) && k <= |all| && p in all
    ensures i < |all| && all[i] == p && (p in all[k..] <==> i >= k) && (p in all[..k] <==> i < k)
  {
    i :| 0 <= i < |all| && all[i] == p;
    if i >= k { assert all[k..][i - k] == p; } else { assert all[..k][i] == p; }
  }

  lemma SplitAgain<T>(a: seq<T>, b: seq<T>, n: nat)
    requires n <= |b|
    ensures a + b[..n] + b[n..] == a + b
  {
    assert b[..n] + b[n..] == b;
  }

  lemma SplitApart<T>(all: seq<T>, a: seq<T>, b: seq<T>)
    requires Distinct(all) && all == a + b
    ensures forall x :: x in b ==> x in all && x !in a
  {
    forall x | x in b
      ensures x in all && x !in a
    {
      var j :| 0 <= j < |b| && b[j] == x;
      assert all[|a| + j] == x;
      forall i | 0 <= i < |a| ensures a[i] != x { assert all[i] == a[i]; }
    }
  }

  /** What is left to visit after visiting entry `k`, whether it is kept or cut out. */
  lemma NextSlice<T>(running: seq<T>, all: seq<T>, i: nat, k: nat)
    requires k < |running| && i <= |all| && running[k..] == all[i..]
    ensures i < |all| && running[k] == all[i] && running[k + 1..] == all[i + 1..]
    ensures (running[..k] + running[k + 1..])[k..] == all[i + 1..]
    ensures all[..i + 1] == all[..i] + [all[i]]
  {
    assert running[k..][0] == all[i..][0];
    assert running[k..][1..] == all[i..][1..];
  }

  /** Moving the next waiting process to the end of the running ones keeps the order. */
  lemma OrderMoves<T>(running: seq<T>, pending: seq<T>)
    requires pending != []
    ensures pending[|pending| - 1] in running + Reverse(pending)
    ensures running + Reverse(pending) == running + [pending[|pending| - 1]] + Reverse(pending[..|pending| - 1])
  {
    var n := |pending| - 1;
    assert Reverse(pending) == [pending[n]] + Reverse(pending[..n]);
    assert (running + Reverse(pending))[|running|] == pending[n];
  }

  lemma ReverseJoin<T>(p: T, pending: seq<T>)
    ensures Reverse([p] + pending) == Reverse(pending) + [p]
  {}

  /** A newcomer inserted before every waiting process comes last in the order. */
  lemma JoinBack<T>(arrived: seq<T>, gone: set<T>, running: seq<T>, pending: seq<T>, p: T)
    requires running + Reverse(pending) == Without(arrived, gone) && p !in gone
    ensures running + Reverse([p] + pending) == Without(arrived + [p], gone)
    ensures running + Reverse([p] + pending) == running + Reverse(pending) + [p]
  {
    WithoutAppend(arrived, [p], gone);
    WithoutNothing([p], gone);
    ReverseJoin(p, pending);
    assert running + (Reverse(pending) + [p]) == running + Reverse(pending) + [p];
  }

  // ---------------------------------------------------------------- one process

  /** Whether a polled process is to be taken off the running list. */
  predicate Over(kill: KillRequest, timeout: Option<real>, o: Observation) {
    kill != NoKill || o.code.Some? || (timeout.Some? && o.dt > timeout.value)
  }

  /** What is known of a process: its request, its future, its largest size seen and its expected size. */
  datatype Facts = Facts(kill: KillRequest, future: Future, size: real, demand: real)

  /** What the caller is told of a process that is over. */
  function Told(kill: KillRequest, timeout: Option<real>, o: Observation): Reason {
    if kill == NoKill && o.code.Some? then Finished(o.code.value)
    else if timeout.Some? && o.dt > timeout.value then TimedOut
    else Uninterested
  }

  /** A process after a poll that is not for a restart. */
  function Polled(f: Facts, timeout: Option<real>, o: Observation): Facts {
    f.(size := Max(o.rss, f.size),
       future := if f.future == Waiting && Over(f.kill, timeout, o) then Resolved(Told(f.kill, timeout, o))
                 else f.future)
  }

  /** A process after the poll that kills it for memory. */
  function Restarted(f: Facts, o: Observation): Facts {
    Facts(NoKill, f.future, Max(o.rss, f.size), Max(f.demand, Max(o.rss, f.size)))
  }

  class Process {
    var expectedMemory: real
    var expectedTime: real
    var maxMemory: real
    var kill: KillRequest
    var future: Future
    const timeout: Option<real>

    constructor (expectedMemory: real, timeout: Option<real>)
      requires expectedMemory >= 0.0
      ensures this.expectedMemory == expectedMemory && this.timeout == timeout
      ensures kill == NoKill && future == Waiting && maxMemory == 0.0 && expectedTime == 0.0
    {
      this.expectedMemory, this.timeout := expectedMemory, timeout;
      expectedTime, maxMemory, kill, future := 0.0, 0.0, NoKill, Waiting;
    }

    ghost function Now(): Facts
      reads this
    {
      Facts(kill, future, maxMemory, expectedMemory)
    }

    /** What holds between rounds: only a process that is over has answered, and no restart is outstanding. */
    ghost predicate Sound(over: bool)
      reads this
    {
      && expectedMemory >= 0.0 && maxMemory >= 0.0
      && (if over then future != Waiting else !future.Resolved? && kill != Restart)
    }

    /** A caller loses interest: the future is cancelled and the process asked to die. */
    method Cancel()
      modifies this`kill, this`future
      ensures kill == Kill
      ensures future == if old(future) == Waiting then Cancelled else old(future)
    {
      kill := Kill;
      if future == Waiting { future := Cancelled; }
    }

    method Start()
      modifies this`maxMemory
      ensures maxMemory == 0.0
    {
      maxMemory := 0.0;
    }

    method Resolve(reason: Reason)
      requires !future.Resolved?
      modifies this`future
      ensures future == if old(future) == Cancelled then Cancelled else Resolved(reason)
    {
      if future != Cancelled { future := Resolved(reason); }
    }

    /** Look at the process once; `gone` means it no longer runs. */
    method Poll(o: Observation) returns (gone: bool)
      requires !future.Resolved?
      modifies this
      ensures maxMemory == Max(o.rss, old(maxMemory))
      ensures gone <==> Over(old(kill), timeout, o)
      ensures gone <==> old(kill) != NoKill || o.code.Some? || (timeout.Some? && o.dt > timeout.value)
      ensures gone && old(kill) != Restart && old(future) == Waiting ==>
                future == Resolved(if old(kill) == NoKill && o.code.Some? then Finished(o.code.value)
                                   else if timeout.Some? && o.dt > timeout.value then TimedOut
                                   else Uninterested)
      ensures Now() == if old(kill) == Restart then Restarted(old(Now()), o) else Polled(old(Now()), timeout, o)
      ensures expectedTime == if old(kill) == Restart then Max(old(expectedTime), o.dt) else old(expectedTime)
      ensures old(kill) == Restart ==>
                kill == NoKill && future == old(future) && expectedMemory == Max(old(expectedMemory), maxMemory)
      ensures old(kill) != Restart ==>
                kill == old(kill) && expectedMemory == old(expectedMemory)
                && (gone ==> future != Waiting) && (!gone ==> future == old(future))
      ensures old(future) == Cancelled ==> future == Cancelled
    {
      maxMemory := Max(o.rss, maxMemory);
      if o.code.Some? && kill == NoKill {
        Resolve(Finished(o.code.value));
        return true;
      } else if kill == Restart {
        kill := NoKill;
        expectedMemory := Max(expectedMemory, maxMemory);
        expectedTime := Max(expectedTime, o.dt);
        return true;
      } else if timeout.Some? && o.dt > timeout.value {
        Resolve(TimedOut);
        return true;
      } else if kill == Kill {
        Resolve(Uninterested);
        return true;
      }
      return false;
    }
  }

  // ---------------------------------------------------------------- the scheduler

  /**
   The guard of the kill loop, over the sizes before the round: process `i` is reached, and what is
   free once every younger one is gone is still below the buffer.  The oldest is never reached.
   */
  ghost predicate Pressed(noKill: bool, available: real, sizes: seq<real>, i: nat) {
    !noKill && 0 < i < |sizes| && available + Reckoned(sizes[i + 1..]) < MEMORY_BUFFER
  }

  /** All but the first `kept` are killed, and these are exactly the processes under pressure. */
  ghost predicate KilledUnderPressure(noKill: bool, available: real, sizes: seq<real>, kept: nat) {
    kept <= |sizes| && forall i :: 0 <= i < |sizes| ==> (kept <= i <==> Pressed(noKill, available, sizes, i))
  }

  /** The memory side of killing all but the first `kept` processes, of these sizes, which polls each other one. */
  ghost predicate Killed(noKill: bool, available: real, sizes: seq<real>, kept: nat, polls: nat, free: real) {
    && KilledUnderPressure(noKill, available, sizes, kept)
    && kept + polls == |sizes| && (noKill ==> polls == 0)
    && free == available + Reckoned(sizes[kept..])
    && (!noKill && free < MEMORY_BUFFER ==> kept <= 1)
  }

  /** The largest size ever seen of the oldest killed process: what was recorded, and its last poll. */
  ghost function Peak(sizes: seq<real>, kept: nat, obs: nat -> Observation): real
    requires kept < |sizes|
  {
    Max(obs(|sizes| - kept - 1).rss, sizes[kept])
  }

  /**
   After killing all but the first `kept`, of these sizes and demands, something may start exactly
   when what is then reckoned free exceeds the raised demand of the oldest killed process, and
   never when that one has peaked at three gigabytes.
   */
  ghost predicate Rationed(free: real, sizes: seq<real>, demands: seq<real>, kept: nat, obs: nat -> Observation,
                           starts: bool)
  {
    && kept <= |sizes| == |demands|
    && (kept < |sizes| ==>
          && (starts <==> free > Max(demands[kept], Peak(sizes, kept, obs)) + MEMORY_BUFFER)
          && (Peak(sizes, kept, obs) >= ASSUMED_MEMORY ==> !starts))
  }

  ghost function Sizes(ps: seq<Process>): (r: seq<real>)
    reads ps
    ensures |r| == |ps| && forall i :: 0 <= i < |ps| ==> r[i] == ps[i].maxMemory
  {
    seq(|ps|, i requires 0 <= i < |ps| reads ps => ps[i].maxMemory)
  }

  ghost function FactsOf(ps: seq<Process>): (r: seq<Facts>)
    reads ps
    ensures |r| == |ps| && forall i :: 0 <= i < |ps| ==> r[i] == ps[i].Now()
  {
    seq(|ps|, i requires 0 <= i < |ps| reads ps => ps[i].Now())
  }

  ghost function Demands(ps: seq<Process>): (r: seq<real>)
    reads ps
    ensures |r| == |ps| && forall i :: 0 <= i < |ps| ==> r[i] == ps[i].expectedMemory
  {
    seq(|ps|, i requires 0 <= i < |ps| reads ps => ps[i].expectedMemory)
  }

  /** What the runner reckons to gain or spend on processes of these sizes: at least three gigabytes each. */
  ghost function Reckoned(sizes: seq<real>): real {
    if sizes == [] then 0.0 else Reckoned(sizes[..|sizes| - 1]) + Max(sizes[|sizes| - 1], ASSUMED_MEMORY)
  }

  lemma {:induction false} ReckonedFront(sizes: seq<real>)
    requires sizes != []
    ensures Reckoned(sizes) == Max(sizes[0], ASSUMED_MEMORY) + Reckoned(sizes[1..])
  {
    var n := |sizes| - 1;
    if n > 0 {
      ReckonedFront(sizes[..n]);
      assert sizes[..n][1..] == sizes[1..][..n - 1];
    }
  }

  lemma {:induction false} ReckonedShrinks(sizes: seq<real>, i: nat, j: nat)
    requires i <= j <= |sizes|
    ensures Reckoned(sizes[j..]) <= Reckoned(sizes[i..])
    decreases j - i
  {
    if i < j {
      ReckonedShrinks(sizes, i + 1, j);
      ReckonedFront(sizes[i..]);
      assert sizes[i..][1..] == sizes[i + 1..];
    }
  }

  /** Where the kill loop stops fixes whom it has killed. */
  lemma StopsUnderPressure(noKill: bool, available: real, sizes: seq<real>, free: real, kept: nat)
    requires kept <= |sizes| && (sizes != [] ==> kept > 0) && free == available + Reckoned(sizes[kept..])
    requires noKill ==> kept == |sizes|
    requires kept < |sizes| ==> free < MEMORY_BUFFER + Max(sizes[kept], ASSUMED_MEMORY)
    requires !noKill && free < MEMORY_BUFFER ==> kept <= 1
    ensures KilledUnderPressure(noKill, available, sizes, kept)
  {
    forall i | 0 <= i < |sizes|
      ensures kept <= i <==> Pressed(noKill, available, sizes, i)
    {
      if kept <= i {
        ReckonedFront(sizes[kept..]);
        assert sizes[kept..][1..] == sizes[kept + 1..];
        ReckonedShrinks(sizes, kept + 1, i + 1);
      } else {
        ReckonedShrinks(sizes, i + 1, kept);
      }
    }
  }

  class Runner {
    const maxRunning: int
    var pending: seq<Process>
    var running: seq<Process>
    /** Every process ever submitted, and those that are over. */
    ghost var arrived: seq<Process>
    ghost var finished: set<Process>

    /** The order in which the runner serves: what runs, then what waits, next first. */
    ghost function Order(): seq<Process>
      reads this
    {
      running + Reverse(pending)
    }

    /** The lists hold exactly the unfinished submissions, oldest first, within the cap. */
    ghost predicate Structured()
      reads this
    {
      && Distinct(arrived)
      && (forall p :: p in finished ==> p in arrived)
      && Order() == Without(arrived, finished)
      && |running| <= (if maxRunning < 0 then 0 else maxRunning)
    }

    ghost predicate Valid()
      reads this, arrived
    {
      Structured() && forall p :: p in arrived ==> p.Sound(p in finished)
    }

    constructor (maxRunning: int)
      ensures Valid() && arrived == [] && finished == {} && this.maxRunning == maxRunning
    {
      this.maxRunning := maxRunning;
      pending, running, arrived, finished := [], [], [], {};
    }

    /** A submission joins the back of the order. */
    method Append(p: Process)
      requires Valid() && p !in arrived && p.Sound(false)
      modifies this
      ensures Valid() && arrived == old(arrived) + [p] && finished == old(finished)
      ensures Order() == old(Order()) + [p] && running == old(running)
    {
      JoinBack(arrived, finished, running, pending, p);
      pending := [p] + pending;
      arrived := arrived + [p];
    }

    /** A caller cancels a process it submitted. */
    method CancelProcess(p: Process)
      requires Valid() && p in arrived
      modifies p`kill, p`future
      ensures Valid() && Order() == old(Order())
      ensures p.kill == Kill && p.future == if old(p.future) == Waiting then Cancelled else old(p.future)
    {
      p.Cancel();
    }

    /** The youngest running process goes back to the front of the waiting ones. */
    method RestartLast(o: Observation) returns (gain: real)
      requires running != [] && running[|running| - 1].Sound(false)
      modifies this`pending, this`running, running[|running| - 1]
      ensures Order() == old(Order())
      ensures running == old(running)[..|old(running)| - 1]
      ensures pending == old(pending) + [old(running)[|old(running)| - 1]]
      ensures var last := old(running)[|old(running)| - 1];
              && last.Sound(false) && last.Now() == Restarted(old(last.Now()), o)
              && gain == Max(old(last.maxMemory), ASSUMED_MEMORY)
              && Outgrown(last, old(last.maxMemory), old(last.expectedMemory), o)
    {
      var last := running[|running| - 1];
      DropLast();
      last.kill := Restart;
      gain := Max(last.maxMemory, ASSUMED_MEMORY);
      var _ := last.Poll(o);
    }

    method DropLast()
      requires running != []
      modifies this`pending, this`running
      ensures Order() == old(Order())
      ensures running == old(running)[..|old(running)| - 1]
      ensures pending == old(pending) + [old(running)[|old(running)| - 1]]
    {
      var last := running[|running| - 1];
      running := running[..|running| - 1];
      pending := pending + [last];
      OrderMoves(running, pending);
      assert old(running) == running + [last];
      assert pending[..|pending| - 1] == old(pending);
    }

    /** A killed process has its demand raised to the largest size seen of it, its last poll included. */
    ghost predicate Outgrown(p: Process, wasSize: real, wasDemand: real, o: Observation)
      reads p
    {
      p.maxMemory == Max(o.rss, wasSize) && p.expectedMemory == Max(wasDemand, p.maxMemory)
    }

    /**
     The state of the kill loop: `all` were running, of the given sizes and demands; the first
     `kept` of them still do, and the others were polled in turn.
     */
    ghost predicate Killing(order: seq<Process>, all: seq<Process>, sizes: seq<real>, demands: seq<real>,
                            obs: nat -> Observation, available: real, free: real, kept: nat)
      reads this, all
    {
      && Order() == order
      && (forall p :: p in all ==> p.Sound(false))
      && kept <= |all| == |sizes| == |demands| && running == all[..kept] && (all != [] ==> kept > 0)
      && (forall i :: 0 <= i < kept ==> all[i].maxMemory == sizes[i] && all[i].expectedMemory == demands[i])
      && free == available + Reckoned(sizes[kept..])
      && (kept < |all| ==>
            && free < MEMORY_BUFFER + Max(sizes[kept], ASSUMED_MEMORY)
            && pending != [] && pending[|pending| - 1] == all[kept]
            && Outgrown(all[kept], sizes[kept], demands[kept], obs(|all| - kept - 1)))
    }

    /** The processes after killing all but the first `kept`, which polls them in turn, youngest first. */
    ghost predicate States(all: seq<Process>, facts: seq<Facts>, obs: nat -> Observation, kept: nat)
      reads all
    {
      && |all| == |facts|
      && (forall i :: 0 <= i < |all| ==>
            all[i].Now() == if i < kept then facts[i] else Restarted(facts[i], obs(|all| - 1 - i)))
    }

    method KillRound(ghost order: seq<Process>, ghost all: seq<Process>, ghost sizes: seq<real>,
                     ghost demands: seq<real>, ghost facts: seq<Facts>, obs: nat -> Observation,
                     ghost available: real, free: real, polls: nat)
        returns (more: real)
      requires Killing(order, all, sizes, demands, obs, available, free, |running|) && Distinct(all)
      requires polls == |all| - |running|
      requires States(all, facts, obs, |running|)
      requires free < MEMORY_BUFFER && |running| > 1
      modifies this`pending, this`running, all
      ensures Killing(order, all, sizes, demands, obs, available, more, |running|)
      ensures States(all, facts, obs, |running|)
      ensures |running| == |old(running)| - 1
    {
      ghost var k := |running| - 1;
      assert forall i :: 0 <= i < k ==> all[i] != all[k];
      var gain := RestartLast(obs(polls));
      more := free + gain;
      assert sizes[k..][1..] == sizes[k + 1..];
      ReckonedFront(sizes[k..]);
    }

    /** Kill the youngest running processes, to be restarted, until memory suffices or one is left. */
    method KillForMemory(ghost order: seq<Process>, ghost all: seq<Process>, ghost sizes: seq<real>,
                         ghost demands: seq<real>, ghost facts: seq<Facts>, available: real, noKill: bool,
                         obs: nat -> Observation)
        returns (free: real, polls: nat)
      requires Killing(order, all, sizes, demands, obs, available, available, |all|) && Distinct(all)
      requires States(all, facts, obs, |all|)
      modifies this`pending, this`running, all
      ensures Killing(order, all, sizes, demands, obs, available, free, |running|)
      ensures polls == |all| - |running|
      ensures States(all, facts, obs, |running|)
      ensures noKill ==> |running| == |all|
      ensures !noKill && free < MEMORY_BUFFER ==> |running| <= 1
    {
      free, polls := available, 0;
      while !noKill && free < MEMORY_BUFFER && |running| > 1
        invariant Killing(order, all, sizes, demands, obs, available, free, |running|)
        invariant polls == |all| - |running|
        invariant States(all, facts, obs, |running|)
        invariant noKill ==> |running| == |all|
        decreases |running|
      {
        free := KillRound(order, all, sizes, demands, facts, obs, available, free, polls);
        polls := polls + 1;
      }
    }

    /** Before the first round nothing has been killed. */
    lemma NoneKilled(obs: nat -> Observation, available: real)
      requires forall p :: p in running ==> p.Sound(false)
      ensures Killing(Order(), running, Sizes(running), Demands(running), obs, available, available, |running|)
      ensures States(running, FactsOf(running), obs, |running|)
    {
      assert Sizes(running)[|running|..] == [];
    }

    /** The running processes are distinct and were all submitted. */
    lemma RunningDiffer()
      requires Valid()
      ensures Distinct(running)
      ensures forall p :: p in running ==> p in arrived && p !in finished
    {
      WithoutDistinct(arrived, finished);
      forall i, j | 0 <= i < j < |running| ensures running[i] != running[j] {
        assert Order()[i] == running[i] && Order()[j] == running[j];
      }
      forall p | p in running ensures p in arrived && p !in finished { assert p in Order(); }
    }

    /** The test for starting the next waiting process. */
    predicate MayStart(free: real)
      reads this, pending
    {
      |running| < maxRunning && |pending| > 0 && free > pending[|pending| - 1].expectedMemory + MEMORY_BUFFER
    }

    /** Start the next waiting process. */
    method StartOne() returns (cost: real)
      requires pending != [] && pending[|pending| - 1].Sound(false)
      modifies this`pending, this`running, {pending[|pending| - 1]}`maxMemory
      ensures Order() == old(Order())
      ensures pending == old(pending)[..|old(pending)| - 1]
      ensures running == old(running) + [old(pending)[|old(pending)| - 1]]
      ensures cost == Max(old(pending)[|old(pending)| - 1].expectedMemory, ASSUMED_MEMORY)
      ensures old(pending)[|old(pending)| - 1].Sound(false) && old(pending)[|old(pending)| - 1].maxMemory == 0.0
    {
      var last := pending[|pending| - 1];
      cost := Max(last.expectedMemory, ASSUMED_MEMORY);
      last.Start();
      TakeNext();
    }

    method TakeNext()
      requires pending != []
      modifies this`pending, this`running
      ensures Order() == old(Order())
      ensures pending == old(pending)[..|old(pending)| - 1]
      ensures running == old(running) + [old(pending)[|old(pending)| - 1]]
    {
      OrderMoves(running, pending);
      running := running + [pending[|pending| - 1]];
      pending := pending[..|pending| - 1];
    }

    /** The waiting processes were submitted and are not over. */
    lemma NextWasSubmitted()
      requires Structured()
      ensures forall p :: p in pending ==> p in arrived && p !in finished
    {
      forall i | 0 <= i < |pending| ensures pending[i] in arrived && pending[i] !in finished {
        assert Order()[|running| + |pending| - 1 - i] == pending[i];
        assert pending[i] in Order();
      }
    }

    /** The state of the start loop: `queue` were waiting, next first; the first `n` of them now run after `before`. */
    ghost predicate Starting(before: seq<Process>, queue: seq<Process>, demands: seq<real>, sizes: seq<real>,
                             available: real, free: real, n: nat)
      reads this, queue
    {
      && n <= |queue| == |demands| == |sizes| && running == before + queue[..n] && Reverse(pending) == queue[n..]
      && (forall p :: p in queue ==> p.Sound(false))
      && (forall i :: 0 <= i < |queue| ==>
            queue[i].expectedMemory == demands[i] && queue[i].maxMemory == if i < n then 0.0 else sizes[i])
      && free == available - Reckoned(demands[..n])
      && (n > 0 ==> free > MEMORY_BUFFER - ASSUMED_MEMORY)
    }

    lemma StartedDemands(before: seq<Process>, queue: seq<Process>, demands: seq<real>, sizes: seq<real>,
                         available: real, free: real, n: nat)
      requires Starting(before, queue, demands, sizes, available, free, n)
      ensures running[..|before|] == before && free == available - Reckoned(Demands(running[|before|..]))
    {
      assert running[|before|..] == queue[..n];
      assert Demands(queue[..n]) == demands[..n];
    }

    method StartRound(ghost before: seq<Process>, ghost queue: seq<Process>, ghost demands: seq<real>,
                      ghost sizes: seq<real>, ghost available: real, free: real, ghost n: nat) returns (less: real)
      requires Starting(before, queue, demands, sizes, available, free, n) && MayStart(free) && Distinct(queue)
      modifies this`pending, this`running, queue`maxMemory
      ensures Starting(before, queue, demands, sizes, available, less, n + 1)
      ensures |pending| == |old(pending)| - 1
    {
      ghost var last := pending[|pending| - 1];
      assert Reverse(pending)[0] == last;
      assert queue[n] == last;
      var cost := StartOne();
      less := free - cost;
      assert demands[..n + 1][..n] == demands[..n];
      assert Reverse(pending) == queue[n + 1..];
      assert running == before + queue[..n + 1];
    }

    /** Start waiting processes, oldest first, while slots and memory last; `n` of them. */
    method StartPending(available: real, ghost before: seq<Process>, ghost queue: seq<Process>,
                        ghost demands: seq<real>, ghost sizes: seq<real>) returns (free: real, n: nat)
      requires Starting(before, queue, demands, sizes, available, available, 0) && Distinct(queue)
      requires |running| <= (if maxRunning < 0 then 0 else maxRunning)
      modifies this`pending, this`running, queue`maxMemory
      ensures Starting(before, queue, demands, sizes, available, free, n)
      ensures |running| <= (if maxRunning < 0 then 0 else maxRunning)
      ensures n > 0 <==> old(MayStart(available))
      ensures !MayStart(free)
    {
      free, n := available, 0;
      ghost var may := MayStart(available);
      while |running| < maxRunning && |pending| > 0 && free > pending[|pending| - 1].expectedMemory + MEMORY_BUFFER
        invariant Starting(before, queue, demands, sizes, available, free, n)
        invariant |running| <= (if maxRunning < 0 then 0 else maxRunning)
        invariant if n == 0 then free == available && MayStart(free) == may else may
        decreases |pending|
      {
        free := StartRound(before, queue, demands, sizes, available, free, n);
        n := n + 1;
      }
    }

    /** Before the first round nothing has been started. */
    lemma NoneStarted(available: real)
      requires forall p :: p in pending ==> p.Sound(false)
      ensures var queue := Reverse(pending);
              Starting(running, queue, Demands(queue), Sizes(queue), available, available, 0)
    {
      var queue := Reverse(pending);
      ReverseMembers(pending);
      assert running + queue[..0] == running && queue[0..] == queue && Demands(queue)[..0] == [];
    }

    /** Poll running process `k`; drop it if it is over. */
    method PollOne(k: nat, o: Observation) returns (gone: bool)
      requires Valid() && k < |running|
      modifies this`running, this`finished, running[k]
      ensures Valid()
      ensures gone <==> Over(old(running[k].kill), old(running)[k].timeout, o)
      ensures gone ==>
                && running == old(running)[..k] + old(running)[k + 1..]
                && finished == old(finished) + {old(running)[k]}
      ensures !gone ==> running == old(running) && finished == old(finished)
      ensures old(running)[k].Now() == Polled(old(running[k].Now()), old(running)[k].timeout, o)
    {
      var p := running[k];
      CutOut(k);
      gone := p.Poll(o);
      if gone {
        running := running[..k] + running[k + 1..];
        finished := finished + {p};
      }
    }

    /** The state of the drop loop: the first `i` of `all` have been polled, `k` of them still run. */
    ghost predicate Dropping(all: seq<Process>, facts: seq<Facts>, before: set<Process>,
                             obs: nat -> Observation, first: nat, i: nat, k: nat)
      reads this, all
    {
      && i <= |all| == |facts| && k <= |running| && running[k..] == all[i..]
      && (forall p :: p in finished ==> p in before || p in all[..i])
      && before <= finished
      && (forall j :: 0 <= j < i ==> (all[j] in finished <==> Over(facts[j].kill, all[j].timeout, obs(first + j))))
      && (forall j :: i <= j < |all| ==> all[j] !in finished)
      && (forall j :: 0 <= j < |all| ==>
            all[j].Now() == if j < i then Polled(facts[j], all[j].timeout, obs(first + j)) else facts[j])
    }

    method DropRound(ghost all: seq<Process>, ghost facts: seq<Facts>, ghost before: set<Process>,
                     obs: nat -> Observation, first: nat, i: nat, k: nat) returns (next: nat)
      requires Valid() && Distinct(all) && k < |running| && Dropping(all, facts, before, obs, first, i, k)
      modifies this`running, this`finished, running[k]
      ensures Valid() && arrived == old(arrived) && Dropping(all, facts, before, obs, first, i + 1, next)
    {
      NextSlice(running, all, i, k);
      ghost var p := running[k];
      assert p == all[i] && (forall j :: 0 <= j < |all| && j != i ==> all[j] != p);
      var gone := PollOne(k, obs(first + i));
      next := if gone then k else k + 1;
    }

    /** Poll each running process once and drop exactly those that are over. */
    method DropFinished(obs: nat -> Observation, first: nat)
      requires Valid()
      modifies this`running, this`finished, running
      ensures Valid() && old(finished) <= finished
      ensures forall p :: p in finished ==> p in old(finished) || p in old(running)
      ensures forall j :: 0 <= j < |old(running)| ==>
                (old(running)[j] in finished <==> Over(old(running[j].kill), old(running)[j].timeout, obs(first + j)))
      ensures forall j :: 0 <= j < |old(running)| ==>
                old(running)[j].Now() == Polled(old(running[j].Now()), old(running)[j].timeout, obs(first + j))
      ensures forall p :: p in arrived ==> p.kill == old(p.kill)
    {
      RunningDiffer();
      var k: nat, i: nat := 0, 0;
      ghost var all, facts := running, FactsOf(running);
      while k < |running|
        invariant Valid() && Dropping(all, facts, old(finished), obs, first, i, k)
        decreases |running| - k, |all| - i
      {
        k := DropRound(all, facts, old(finished), obs, first, i, k);
        i := i + 1;
      }
    }

    /** Finishing a running process takes exactly it out of the order. */
    lemma CutOut(k: nat)
      requires Valid() && k < |running|
      ensures running[k] in arrived && running[k] !in finished
      ensures Without(arrived, finished + {running[k]}) == running[..k] + running[k + 1..] + Reverse(pending)
    {
      var p := running[k];
      var before, after := running[..k], running[k + 1..] + Reverse(pending);
      assert Order() == before + ([p] + after);
      assert p in Order();
      WithoutDistinct(arrived, finished);
      DistinctSplit(before, p, after);
      WithoutOne(arrived, finished, before, p, after);
      assert before + after == running[..k] + running[k + 1..] + Reverse(pending);
    }

    function UsedMemory(ps: seq<Process>): real
      reads ps
    {
      if ps == [] then 0.0 else ps[0].maxMemory + UsedMemory(ps[1..])
    }

    /** The memory used by a process is its largest size seen, and by several the sum. */
    lemma {:induction false} UsedMemoryAdds(a: seq<Process>, b: seq<Process>)
      ensures UsedMemory(a + b) == UsedMemory(a) + UsedMemory(b)
      ensures forall p: Process :: UsedMemory([p]) == p.maxMemory
    {
      forall p: Process ensures UsedMemory([p]) == p.maxMemory { assert [p][1..] == []; }
      if a == [] {
        assert a + b == b;
      } else {
        assert (a + b)[1..] == a[1..] + b;
        UsedMemoryAdds(a[1..], b);
      }
    }

    /** Free memory as the runner sees it; a limit of zero is no limit. */
    function MemoryAvailable(globalFree: real, limit: real): real
      reads this, running
    {
      if limit == 0.0 then globalFree else Min(globalFree, Max(limit - UsedMemory(running), 0.0))
    }

    /** Under a limit it is the smaller of what the machine has free and what is left of the limit. */
    lemma MemoryAvailableIsSmaller(globalFree: real, limit: real)
      ensures var r := MemoryAvailable(globalFree, limit);
              var left := if limit > UsedMemory(running) then limit - UsedMemory(running) else 0.0;
              if limit == 0.0 then r == globalFree
              else r <= globalFree && r <= left && (r == globalFree || r == left)
    {}

    /** The requests now, from what `was` known earlier: a process killed for memory has lost the one it had. */
    ghost predicate Asked(was: map<Process, Facts>, killed: seq<Process>)
      reads this`arrived, arrived`kill
    {
      forall p :: p in arrived ==> p in was && p.kill == if p in killed then NoKill else was[p].kill
    }

    /** Everything known of the submitted processes. */
    ghost predicate Known(was: map<Process, Facts>)
      reads this`arrived, arrived
    {
      forall p :: p in arrived ==> p in was && p.Now() == was[p]
    }

    ghost function Snapshot(): (r: map<Process, Facts>)
      reads this`arrived, arrived
      ensures Known(r) && forall p :: p in r ==> p in arrived
    {
      map p: Process | p in arrived :: p.Now()
    }

    /** As much for the processes other than these. */
    ghost predicate OthersKnown(was: map<Process, Facts>, all: seq<Process>)
      reads this`arrived, arrived
    {
      forall p :: p in arrived && p !in all ==> p in was && p.Now() == was[p]
    }

    /** The kill loop within the scheduler's invariant. */
    method KillPhase(ghost order: seq<Process>, ghost all: seq<Process>, ghost sizes: seq<real>,
                     ghost demands: seq<real>, ghost facts: seq<Facts>, available: real, noKill: bool,
                     obs: nat -> Observation)
        returns (free: real, polls: nat)
      requires Valid() && order == Order() && all == running && sizes == Sizes(running)
      requires demands == Demands(running) && facts == FactsOf(running)
      modifies this`pending, this`running, all
      ensures Valid()
      ensures Killing(order, all, sizes, demands, obs, available, free, |running|)
      ensures States(all, facts, obs, |running|)
      ensures polls == |all| - |running|
      ensures noKill ==> |running| == |all|
      ensures !noKill && free < MEMORY_BUFFER ==> |running| <= 1
    {
      RunningDiffer();
      assert forall p :: p in running ==> p.Sound(false);
      NoneKilled(obs, available);
      free, polls := KillForMemory(order, all, sizes, demands, facts, available, noKill, obs);
      assert Structured();
    }

    lemma KilledAre(was: map<Process, Facts>, all: seq<Process>, facts: seq<Facts>, obs: nat -> Observation, kept: nat,
                    mid: map<Process, Facts>)
      requires kept <= |all| && States(all, facts, obs, kept)
      requires forall i :: 0 <= i < |all| ==> all[i] in arrived && all[i] in was && was[all[i]] == facts[i]
      requires OthersKnown(was, all)
      requires Known(mid) && forall p :: p in mid ==> p in arrived
      ensures KilledFacts(was, mid, all, kept, obs)
    {}

    /** Starting does not change the requests: only those killed for memory have lost theirs. */
    lemma StillAsked(was: map<Process, Facts>, mid: map<Process, Facts>, all: seq<Process>, kept: nat,
                     started: seq<Process>, obs: nat -> Observation)
      requires Distinct(all) && kept <= |all| && KilledFacts(was, mid, all, kept, obs) && Ready(mid, started)
      ensures Asked(was, all[kept..])
    {
      forall p | p in arrived
        ensures p in was && p.kill == if p in all[kept..] then NoKill else was[p].kill
      {
        assert p.kill == p.Now().kill == mid[p].kill;
        if p in all { var i := PlaceInSplit(all, kept, p); }
      }
    }

    /** The start loop within the scheduler's invariant. */
    method StartPhase(available: real) returns (free: real, n: nat)
      requires Valid()
      modifies this`pending, this`running, pending`maxMemory
      ensures Valid()
      ensures Starting(old(running), Reverse(old(pending)), old(Demands(Reverse(pending))),
                       old(Sizes(Reverse(pending))), available, free, n)
      ensures n > 0 <==> old(MayStart(available))
      ensures !MayStart(free)
    {
      NextWasSubmitted();
      assert forall p :: p in pending ==> p.Sound(false);
      ReverseMembers(pending);
      WaitingDiffer();
      NoneStarted(available);
      ghost var before, queue := running, Reverse(pending);
      free, n := StartPending(available, before, queue, Demands(queue), Sizes(queue));
      SplitAgain(before, queue, n);
      assert Structured();
    }

    lemma WaitingDiffer()
      requires Valid()
      ensures Distinct(Reverse(pending))
    {
      WithoutDistinct(arrived, finished);
      var queue := Reverse(pending);
      forall i, j | 0 <= i < j < |queue| ensures queue[i] != queue[j] {
        assert Order()[|running| + i] == queue[i] && Order()[|running| + j] == queue[j];
      }
    }

    /**
     Killing for memory, of processes of these sizes and demands.  Those that ran before are `kept` or
     `killed`; the oldest killed one waits next, with its demand raised to the largest size seen of it.
     `was` is what is known of the processes before, and `mid` after.
     */
    method KillStep(available: real, noKill: bool, obs: nat -> Observation, ghost was: map<Process, Facts>,
                    ghost sizes: seq<real>, ghost demands: seq<real>)
        returns (ghost kept: seq<Process>, ghost killed: seq<Process>, ghost mid: map<Process, Facts>,
                 polls: nat, free: real)
      requires Valid() && Known(was) && sizes == Sizes(running) && demands == Demands(running)
      modifies this`pending, this`running, running
      ensures Valid() && running == kept
      ensures old(running) == kept + killed && (old(running) != [] ==> kept != [])
      ensures Known(mid) && KilledFacts(was, mid, old(running), |kept|, obs)
      ensures Killed(noKill, available, sizes, |kept|, polls, free)
      ensures Rationed(free, sizes, demands, |kept|, obs, MayStart(free))
    {
      RunningDiffer();
      ghost var all, facts := running, FactsOf(running);
      assert forall i :: 0 <= i < |all| ==> all[i] in arrived && was[all[i]] == facts[i];
      kept, killed, polls, free := KillMeasured(available, noKill, obs, sizes, demands, was, all, facts);
      mid := Snapshot();
      KilledAre(was, all, facts, obs, |kept|, mid);
    }

    /** Killing for memory, with what it does to the memory reckoned free. */
    method KillMeasured(available: real, noKill: bool, obs: nat -> Observation, ghost sizes: seq<real>,
                        ghost demands: seq<real>, ghost was: map<Process, Facts>, ghost all: seq<Process>,
                        ghost facts: seq<Facts>)
        returns (ghost kept: seq<Process>, ghost killed: seq<Process>, polls: nat, free: real)
      requires Valid() && sizes == Sizes(running) && demands == Demands(running)
      requires Known(was) && all == running && facts == FactsOf(running)
      modifies this`pending, this`running, running
      ensures Valid() && running == kept
      ensures all == kept + killed && (all != [] ==> kept != [])
      ensures States(all, facts, obs, |kept|) && OthersKnown(was, all)
      ensures Killed(noKill, available, sizes, |kept|, polls, free)
      ensures Rationed(free, sizes, demands, |kept|, obs, MayStart(free))
    {
      ghost var order := Order();
      free, polls := KillPhase(order, all, sizes, demands, facts, available, noKill, obs);
      kept, killed := running, all[|running|..];
      AfterKill(order, all, sizes, demands, obs, available, noKill, polls, free);
    }

    /** After killing, the test for starting is on the oldest killed process and its raised demand. */
    lemma AfterKill(order: seq<Process>, all: seq<Process>, sizes: seq<real>, demands: seq<real>,
                    obs: nat -> Observation, available: real, noKill: bool, polls: nat, free: real)
      requires Killing(order, all, sizes, demands, obs, available, free, |running|)
      requires all == [] || |all| <= maxRunning
      requires polls == |all| - |running| && (noKill ==> |running| == |all|)
      requires !noKill && free < MEMORY_BUFFER ==> |running| <= 1
      ensures Killed(noKill, available, sizes, |running|, polls, free)
      ensures Rationed(free, sizes, demands, |running|, obs, MayStart(free))
    {
      StopsUnderPressure(noKill, available, sizes, free, |running|);
    }

    /** What is known after starting: a started process has its size forgotten, and nobody else changes. */
    ghost predicate Ready(mid: map<Process, Facts>, started: seq<Process>)
      reads this`arrived, arrived
    {
      forall p :: p in arrived ==> p in mid && p.Now() == if p in started then mid[p].(size := 0.0) else mid[p]
    }

    /** Starting what fits in the memory reckoned available. */
    method StartStep(available: real, ghost mid: map<Process, Facts>) returns (ghost started: seq<Process>, free: real)
      requires Valid() && Known(mid)
      modifies this`pending, this`running, pending`maxMemory
      ensures Valid() && running == old(running) + started && Ready(mid, started)
      ensures started != [] <==> old(MayStart(available))
      ensures free == available - Reckoned(Demands(started))
      ensures started != [] ==> free > MEMORY_BUFFER - ASSUMED_MEMORY
      ensures !MayStart(free)
    {
      ghost var before, queue := running, Reverse(pending);
      ghost var demands, sizes := Demands(queue), Sizes(queue);
      WaitingDiffer();
      ReverseMembers(pending);
      var n;
      free, n := StartPhase(available);
      StartedDemands(before, queue, demands, sizes, available, free, n);
      started := running[|before|..];
      assert started == queue[..n];
      forall p | p in arrived
        ensures p in mid && p.Now() == if p in started then mid[p].(size := 0.0) else mid[p]
      {
        if p in queue { var i := PlaceInSplit(queue, n, p); }
      }
    }

    /** Killing for memory, then starting what fits; `started` are the processes that join. */
    method Reschedule(available: real, noKill: bool, obs: nat -> Observation, ghost was: map<Process, Facts>,
                      ghost sizes: seq<real>, ghost demands: seq<real>)
        returns (ghost kept: seq<Process>, ghost killed: seq<Process>, ghost started: seq<Process>,
                 ghost mid: map<Process, Facts>, polls: nat, ghost freed: real, free: real)
      requires Valid() && Known(was) && sizes == Sizes(running) && demands == Demands(running)
      modifies this`pending, this`running, arrived
      ensures Valid() && running == kept + started && Asked(was, killed)
      ensures old(running) == kept + killed && (old(running) != [] ==> kept != [])
      ensures KilledFacts(was, mid, old(running), |kept|, obs) && Ready(mid, started)
      ensures Killed(noKill, available, sizes, |kept|, polls, freed)
      ensures Rationed(freed, sizes, demands, |kept|, obs, started != [])
      // What starting leaves of the memory then reckoned free.
      ensures free == freed - Reckoned(Demands(started))
      ensures started != [] ==> free > MEMORY_BUFFER - ASSUMED_MEMORY
      ensures !MayStart(free)
    {
      var more: real;
      RunningDiffer();
      assert forall i :: 0 <= i < |running| ==> running[i] in arrived;
      kept, killed, mid, polls, more := KillStep(available, noKill, obs, was, sizes, demands);
      freed := more;
      assert forall i :: 0 <= i < |pending| ==> pending[i] in arrived by { NextWasSubmitted(); }
      started, free := StartStep(more, mid);
      StillAsked(was, mid, old(running), |kept|, started, obs);
      assert old(running)[|kept|..] == killed;
    }

    /** What is known after the round: each process that ran was polled once, and nobody else changes. */
    ghost predicate Settled(mid: map<Process, Facts>, started: seq<Process>, ran: seq<Process>,
                            obs: nat -> Observation, polls: nat)
      reads this`arrived, arrived, ran
    {
      && (forall j :: 0 <= j < |ran| ==>
            && ran[j] in mid
            && ran[j].Now() == Polled(if ran[j] in started then mid[ran[j]].(size := 0.0) else mid[ran[j]],
                                      ran[j].timeout, obs(polls + j)))
      && (forall p :: p in arrived && p !in ran ==> p in mid && p.Now() == mid[p])
    }

    /**
     One scheduling round: reschedule, then drop what is over.  `was` is what is known of the processes
     before it; `ran` are the processes that ran through it.
     */
    method Poll(globalFree: real, limit: real, noKill: bool, obs: nat -> Observation,
                ghost was: map<Process, Facts>)
        returns (ghost kept: seq<Process>, ghost killed: seq<Process>, ghost started: seq<Process>,
                 ghost ran: seq<Process>, ghost mid: map<Process, Facts>, polls: nat, free: real)
      requires Valid() && Known(was)
      modifies this, arrived
      ensures Valid() && arrived == old(arrived) && old(finished) <= finished
      ensures old(running) == kept + killed && (old(running) != [] ==> kept != []) && (noKill ==> killed == [])
      // What becomes of the request, future, size and demand of every process.
      ensures KilledFacts(was, mid, old(running), |kept|, obs) && Settled(mid, started, ran, obs, polls)
      // Only a process that ran through the round can be over, and it is exactly by its own exit or
      // timeout or a request it still had: one killed for memory has lost its request.
      ensures ran == kept + started && Asked(was, killed)
      ensures forall p :: p in finished ==> p in old(finished) || p in ran
      ensures Ended(was, killed, ran, obs, polls, finished)
      // The processes killed for memory are exactly those under pressure before the round.
      ensures KilledUnderPressure(noKill, old(MemoryAvailable(globalFree, limit)), old(Sizes(running)), |kept|)
      ensures polls == |killed|
      // So a process cancelled while running is over unless it was under pressure; then, if not
      // started again at once, it is not over.
      ensures CancelledFate(noKill, old(MemoryAvailable(globalFree, limit)), old(Sizes(running)),
                            old(running), started, was, finished)
      ensures Rationed(old(MemoryAvailable(globalFree, limit)) + Reckoned(old(Sizes(running))[|kept|..]),
                       old(Sizes(running)), old(Demands(running)), |kept|, obs, started != [])
      ensures started != [] ==> free > MEMORY_BUFFER - ASSUMED_MEMORY
      ensures started == [] ==>
                free == old(MemoryAvailable(globalFree, limit)) + Reckoned(old(Sizes(running))[|kept|..])
      ensures !noKill && free < MEMORY_BUFFER && started == [] ==> |kept| <= 1
      ensures |ran| <= (if maxRunning < 0 then 0 else maxRunning)
    {
      RunningDiffer();
      var available := MemoryAvailable(globalFree, limit);
      ghost var sizes, demands, freed := Sizes(running), Demands(running), 0.0;
      kept, killed, started, mid, polls, freed, free := Reschedule(available, noKill, obs, was, sizes, demands);
      ran := running;
      DropAndSettle(obs, polls, was, killed, mid, started);
      Fates(noKill, available, sizes, old(running), kept, killed, started, was, old(finished), finished);
    }

    /** The drop loop, with what is known of the processes afterwards. */
    method DropAndSettle(obs: nat -> Observation, polls: nat, ghost was: map<Process, Facts>,
                         ghost killed: seq<Process>, ghost mid: map<Process, Facts>, ghost started: seq<Process>)
      requires Valid() && Asked(was, killed) && Ready(mid, started) && (forall p :: p in started ==> p in running)
      modifies this`running, this`finished, arrived
      ensures Valid() && old(finished) <= finished && Asked(was, killed)
      ensures forall p :: p in finished ==> p in old(finished) || p in old(running)
      ensures Ended(was, killed, old(running), obs, polls, finished)
      ensures Settled(mid, started, old(running), obs, polls)
    {
      RunningDiffer();
      assert forall i :: 0 <= i < |running| ==> running[i] in arrived;
      DropFinished(obs, polls);
    }
  }

  /** Which processes that ran are over: by their own exit or timeout, or a request they still had. */
  ghost predicate Ended(was: map<Process, Facts>, killed: seq<Process>, ran: seq<Process>, obs: nat -> Observation,
                        polls: nat, finished: set<Process>)
  {
    forall j :: 0 <= j < |ran| ==>
      && ran[j] in was
      && (ran[j] in finished
          <==> Over(if ran[j] in killed then NoKill else was[ran[j]].kill, ran[j].timeout, obs(polls + j)))
  }

  /** What killing for memory makes of what was known: the killed are restarted, youngest first, nobody else changes. */
  ghost predicate KilledFacts(was: map<Process, Facts>, mid: map<Process, Facts>, all: seq<Process>, kept: nat,
                              obs: nat -> Observation)
  {
    && (forall i :: 0 <= i < |all| ==>
          && all[i] in was && all[i] in mid
          && mid[all[i]] == if i < kept then was[all[i]] else Restarted(was[all[i]], obs(|all| - 1 - i)))
    && (forall p :: p in mid && p !in all ==> p in was && mid[p] == was[p])
  }

  /**
   What becomes of the processes that were running: one whose kill was requested is over, unless
   memory pressed it; one that memory pressed is not over, unless it was started again at once.
   */
  ghost predicate CancelledFate(noKill: bool, available: real, sizes: seq<real>, all: seq<Process>,
                                started: seq<Process>, was: map<Process, Facts>, after: set<Process>)
  {
    forall j :: 0 <= j < |all| ==>
      && all[j] in was
      && (was[all[j]].kill == Kill && !Pressed(noKill, available, sizes, j) ==> all[j] in after)
      && (Pressed(noKill, available, sizes, j) && all[j] !in started ==> all[j] !in after)
  }

  lemma Fates(noKill: bool, available: real, sizes: seq<real>, all: seq<Process>, kept: seq<Process>,
              killed: seq<Process>, started: seq<Process>, was: map<Process, Facts>,
              before: set<Process>, after: set<Process>)
    requires KilledUnderPressure(noKill, available, sizes, |kept|) && |sizes| == |all|
    requires Distinct(all) && all == kept + killed && (forall p :: p in all ==> p !in before && p in was)
    requires forall p :: p in after ==> p in before || p in kept + started
    requires forall j :: 0 <= j < |kept + started| ==>
               var p := (kept + started)[j]; p in was && (p !in killed && was[p].kill == Kill ==> p in after)
    ensures CancelledFate(noKill, available, sizes, all, started, was, after)
  {
    SplitApart(all, kept, killed);
    forall j | 0 <= j < |all|
      ensures was[all[j]].kill == Kill && !Pressed(noKill, available, sizes, j) ==> all[j] in after
      ensures Pressed(noKill, available, sizes, j) && all[j] !in started ==> all[j] !in after
    {
      if j < |kept| {
        assert (kept + started)[j] == kept[j] == all[j];
      } else {
        assert killed[j - |kept|] == all[j];
      }
    }
  }

  /** A cancelled process killed for memory in the next round is not over and will be restarted. */
  method CancelledYetAlive(first: Process, p: Process, r: Runner)
    requires r.Valid() && r.running == [first, p] && r.maxRunning == 2
    modifies r, r.arrived
    ensures r.Valid() && p in r.arrived && p !in r.finished && p.kill == NoKill
  {
    r.RunningDiffer();
    assert p in r.running && r.running[0] != r.running[1];
    r.CancelProcess(p);
    ghost var was: map<Process, Facts> := map q: Process | q in r.arrived :: q.Now();
    StarvedRound(first, p, r, was);
  }

  method StarvedRound(first: Process, p: Process, r: Runner, ghost was: map<Process, Facts>)
    requires r.Valid() && r.running == [first, p] && r.maxRunning == 2
    requires p in r.arrived && p !in r.finished && first != p && r.Known(was)
    modifies r, r.arrived
    ensures r.Valid() && p in r.arrived && p !in r.finished && p.kill == NoKill
  {
    var quiet := (i: nat) => Observation(0.0, 0.0, None);
    ghost var sizes, demands := Sizes(r.running), Demands(r.running);
    var kept, killed, started, ran, mid, polls, free := r.Poll(0.0, 0.0, false, quiet, was);
    Starved(sizes, demands, |kept|, quiet, started != []);
    assert kept + killed == [first, p];
    assert killed == [p];
  }

  /** With nothing free the second of two processes is killed and nothing starts. */
  lemma Starved(sizes: seq<real>, demands: seq<real>, kept: nat, obs: nat -> Observation, starts: bool)
    requires |sizes| == 2 && KilledUnderPressure(false, 0.0, sizes, kept)
    requires Rationed(Reckoned(sizes[kept..]), sizes, demands, kept, obs, starts) && obs(0).rss >= 0.0
    ensures kept == 1 && !starts && Pressed(false, 0.0, sizes, 1)
  {
    assert sizes[2..] == [];
    assert Pressed(false, 0.0, sizes, 1) && !Pressed(false, 0.0, sizes, 0);
    assert sizes[1..][1..] == [];
    ReckonedFront(sizes[1..]);
  }
}
