/**
 Scoped error handling on `setjmp` and `longjmp`.

 A program of sequencing, branching, throwing and nested DURING/HANDLER blocks is run in
 two ways: directly, as structured try/catch, and on a machine with a stack, an on-stack
 linked list of cleanup entries and a list head, where throwing follows the head.
 */
module Unwind {

  import opened Basics

  datatype Stmt<!S> =
    | Skip
    | Act(f: S -> S)
    | Seq(first: Stmt<S>, second: Stmt<S>)
    | If(c: S -> bool, thn: Stmt<S>, els: Stmt<S>)
    | Throw
    | During(body: Stmt<S>, handler: Stmt<S>)

  // ---------------------------------------------------------------- structured semantics

  datatype Outcome<+S> = Normal(s: S) | Thrown(s: S)

  /** Try/catch: a throw abandons everything up to the innermost enclosing body. */
  function Exec<S>(p: Stmt<S>, s: S): Outcome<S> {
    match p
    case Skip => Normal(s)
    case Act(f) => Normal(f(s))
    case Seq(a, b) =>
      var r := Exec(a, s);
      if r.Normal? then Exec(b, r.s) else r
    case If(c, a, b) => if c(s) then Exec(a, s) else Exec(b, s)
    case Throw => Thrown(s)
    case During(body, handler) =>
      var r := Exec(body, s);
      if r.Normal? then r else Exec(handler, r.s)
  }

  // ---------------------------------------------------------------- the machine

  /**
   A stack slot.  A block's automatic variable is its cleanup entry: the previous list
   head and the jump buffer, which holds the stack height to return to and, by its place in
   the code, the handler to resume in.  The other slots are return points.
   */
  datatype Frame<!S> =
    | Block(next: Option<nat>, env: nat, handler: Stmt<S>)
    | Then(p: Stmt<S>)
    | AfterBody
    | AfterHandler

  datatype Control<!S> =
    | Running(p: Stmt<S>)
    | Returning
    | Landing              // `setjmp` has returned a second time
    | Faulted              // dereferenced a null list head
    | Stuck                // used a cleanup entry that is not there

  datatype Machine<!S> = Machine(control: Control<S>, frames: seq<Frame<S>>, head: Option<nat>, s: S)

  /** Unlink the top cleanup entry and jump to its buffer. */
  function CleanupUnwind<S>(m: Machine<S>): Machine<S> {
    if m.head.None? then m.(control := Faulted) else
    var top := m.head.value;
    if top >= |m.frames| || !m.frames[top].Block? || m.frames[top].env > |m.frames| then m.(control := Stuck) else
    var entry := m.frames[top];
    Machine(Landing, m.frames[..entry.env], entry.next, m.s)
  }

  /** Leave a block whose return point is on top; a normal end of the body also unlinks its entry. */
  function LeaveBlock<S>(m: Machine<S>, unlink: bool): Machine<S> {
    var n := |m.frames|;
    if n < 2 || !m.frames[n - 2].Block? then m.(control := Stuck)
    else Machine(Returning, m.frames[..n - 2], if unlink then m.frames[n - 2].next else m.head, m.s)
  }

  function Step<S>(m: Machine<S>): Machine<S> {
    var n := |m.frames|;
    match m.control
    case Running(Skip) => m.(control := Returning)
    case Running(Act(f)) => m.(control := Returning, s := f(m.s))
    case Running(Seq(a, b)) => m.(control := Running(a), frames := m.frames + [Then(b)])
    case Running(If(c, a, b)) => m.(control := Running(if c(m.s) then a else b))
    case Running(Throw) => CleanupUnwind(m)
    case Running(During(body, handler)) =>
      Machine(Running(body), m.frames + [Block(m.head, n + 1, handler), AfterBody], Some(n), m.s)
    case Landing =>
      if n == 0 || !m.frames[n - 1].Block? then m.(control := Stuck)
      else Machine(Running(m.frames[n - 1].handler), m.frames + [AfterHandler], m.frames[n - 1].next, m.s)
    case Returning =>
      if n == 0 then m else (
        match m.frames[n - 1]
        case Then(p) => m.(control := Running(p), frames := m.frames[..n - 1])
        case AfterBody => LeaveBlock(m, true)
        case AfterHandler => LeaveBlock(m, false)
        case Block(_, _, _) => m.(control := Stuck))
    case Faulted => m
    case Stuck => m
  }

  function Steps<S>(m: Machine<S>, n: nat): Machine<S>
    decreases n
  {
    if n == 0 then m else Steps(Step(m), n - 1)
  }

  lemma {:induction false} StepsAdd<S>(m: Machine<S>, i: nat, j: nat)
    ensures Steps(m, i + j) == Steps(Steps(m, i), j)
    decreases i
  {
    if i > 0 { StepsAdd(Step(m), i - 1, j); }
  }

  // ---------------------------------------------------------------- refinement

  /** The head is null or names a block on the stack whose buffer returns just above it. */
  ghost predicate HeadOk<S>(frames: seq<Frame<S>>, head: Option<nat>) {
    head.Some? ==>
      && head.value < |frames| && frames[head.value].Block?
      && frames[head.value].env == head.value + 1
  }

  /** Where the machine must be for an outcome of a program started at `frames` and `head`. */
  ghost predicate Meets<S>(m: Machine<S>, frames: seq<Frame<S>>, head: Option<nat>, r: Outcome<S>)
    requires HeadOk(frames, head)
  {
    match r
    case Normal(s) => m == Machine(Returning, frames, head, s)
    case Thrown(s) =>
      if head.None? then m.control == Faulted && m.head == None && m.s == s
      else m == Machine(Landing, frames[..head.value + 1], frames[head.value].next, s)
  }

  /** What a throw sees is unchanged by frames pushed above. */
  lemma DeeperThrow<S>(m: Machine<S>, frames: seq<Frame<S>>, more: seq<Frame<S>>, head: Option<nat>, r: Outcome<S>)
    requires HeadOk(frames, head) && r.Thrown?
    ensures HeadOk(frames + more, head)
    ensures Meets(m, frames + more, head, r) <==> Meets(m, frames, head, r)
  {
    if head.Some? {
      assert (frames + more)[..head.value + 1] == frames[..head.value + 1];
    }
  }

  lemma SeqRefines<S>(a: Stmt<S>, b: Stmt<S>, frames: seq<Frame<S>>, head: Option<nat>, s: S) returns (n: nat)
    requires HeadOk(frames, head)
    ensures Meets(Steps(Machine(Running(Seq(a, b)), frames, head, s), n), frames, head, Exec(Seq(a, b), s))
    decreases Seq(a, b), 0
  {
    var m0 := Machine(Running(Seq(a, b)), frames, head, s);
    var pushed := frames + [Then(b)];
    var r := Exec(a, s);
    var i := Refines(a, pushed, head, s);
    StepsAdd(m0, 1, i);
    var m1 := Steps(m0, 1 + i);
    if r.Thrown? {
      DeeperThrow(m1, frames, [Then(b)], head, r);
      n := 1 + i;
    } else {
      assert Step(m1) == Machine(Running(b), frames, head, r.s) by { assert pushed[..|frames|] == frames; }
      var j := Refines(b, frames, head, r.s);
      StepsAdd(m0, 1 + i, 1 + j);
      n := 1 + i + (1 + j);
    }
  }

  lemma DuringRefines<S>(body: Stmt<S>, handler: Stmt<S>, frames: seq<Frame<S>>, head: Option<nat>, s: S)
      returns (n: nat)
    requires HeadOk(frames, head)
    ensures Meets(Steps(Machine(Running(During(body, handler)), frames, head, s), n), frames, head,
                  Exec(During(body, handler), s))
    decreases During(body, handler), 0
  {
    var m0 := Machine(Running(During(body, handler)), frames, head, s);
    var at := |frames|;
    var entry := Block(head, at + 1, handler);
    var inBody := frames + [entry, AfterBody];
    var r := Exec(body, s);
    var i := Refines(body, inBody, Some(at), s);
    StepsAdd(m0, 1, i);
    var m1 := Steps(m0, 1 + i);
    if r.Normal? {
      assert Step(m1) == Machine(Returning, frames, head, r.s) by { assert inBody[..at] == frames; }
      StepsAdd(m0, 1 + i, 1);
      n := 1 + i + 1;
    } else {
      assert inBody[..at + 1] == frames + [entry];
      var inHandler := frames + [entry, AfterHandler];
      assert Step(m1) == Machine(Running(handler), inHandler, head, r.s) by {
        assert frames + [entry] + [AfterHandler] == inHandler;
      }
      var j := HandlerRefines(handler, entry, frames, head, r.s);
      StepsAdd(m0, 1 + i, 1 + j);
      n := 1 + i + (1 + j);
    }
  }

  /** A handler runs with its own entry already unlinked, so its throws go outward. */
  lemma HandlerRefines<S>(handler: Stmt<S>, entry: Frame<S>, frames: seq<Frame<S>>, head: Option<nat>, s: S)
      returns (n: nat)
    requires HeadOk(frames, head) && entry.Block?
    ensures Meets(Steps(Machine(Running(handler), frames + [entry, AfterHandler], head, s), n), frames, head,
                  Exec(handler, s))
    decreases handler, 2
  {
    var inHandler := frames + [entry, AfterHandler];
    var m0 := Machine(Running(handler), inHandler, head, s);
    var r := Exec(handler, s);
    var j := Refines(handler, inHandler, head, s);
    var m1 := Steps(m0, j);
    if r.Thrown? {
      DeeperThrow(m1, frames, [entry, AfterHandler], head, r);
      n := j;
    } else {
      assert Step(m1) == Machine(Returning, frames, head, r.s) by { assert inHandler[..|frames|] == frames; }
      StepsAdd(m0, j, 1);
      n := j + 1;
    }
  }

  /**
   The cleanup list refines try/catch.  Started on any stack with any well-formed list, a
   program that ends normally leaves stack and head as they were; one that throws lands in
   the innermost live handler's buffer with that entry unlinked, or faults if there is none.
   */
  lemma Refines<S>(p: Stmt<S>, frames: seq<Frame<S>>, head: Option<nat>, s: S) returns (n: nat)
    requires HeadOk(frames, head)
    ensures Meets(Steps(Machine(Running(p), frames, head, s), n), frames, head, Exec(p, s))
    decreases p, 1
  {
    var m0 := Machine(Running(p), frames, head, s);
    match p
    case Skip => n := 1; assert Steps(m0, 1) == Step(m0);
    case Act(f) => n := 1; assert Steps(m0, 1) == Step(m0);
    case Throw => n := 1; assert Steps(m0, 1) == Step(m0);
    case Seq(a, b) => n := SeqRefines(a, b, frames, head, s);
    case If(c, a, b) =>
      var i := Refines(if c(s) then a else b, frames, head, s);
      n := 1 + i;
    case During(body, handler) => n := DuringRefines(body, handler, frames, head, s);
  }

  lemma {:induction false} FinalStays<S>(m: Machine<S>, n: nat)
    requires m.control == Faulted || (m.control == Returning && m.frames == [])
    ensures Steps(m, n) == m
    decreases n
  {
    if n > 0 { FinalStays(Step(m), n - 1); }
  }

  /**
   Whole programs, from an empty stack and a null head: every sufficiently long run of the
   machine has stopped with the structured result, the head null again, and is never stuck.
   */
  lemma RunsLikeTryCatch<S>(p: Stmt<S>, s: S) returns (n: nat)
    ensures forall k: nat {:trigger Steps(Machine(Running(p), [], None, s), k)} :: k >= n ==>
              var m := Steps(Machine(Running(p), [], None, s), k);
              match Exec(p, s)
              case Normal(s') => m == Machine(Returning, [], None, s')
              case Thrown(s') => m.control == Faulted && m.head == None && m.s == s'
  {
    n := Refines(p, [], None, s);
    var m0 := Machine(Running(p), [], None, s);
    forall k: nat | k >= n ensures Steps(m0, k) == Steps(m0, n) {
      StepsAdd(m0, n, k - n);
      FinalStays(Steps(m0, n), k - n);
    }
  }

  // ---------------------------------------------------------------- the object itself

  /** One compartment invocation: its stack and list head, rewritten in place by the macros. */
  class Invocation<!S> {
    var control: Control<S>
    var frames: seq<Frame<S>>
    var head: Option<nat>
    var s: S

    ghost function View(): Machine<S>
      reads this
    {
      Machine(control, frames, head, s)
    }

    constructor (p: Stmt<S>, start: S)
      ensures View() == Machine(Running(p), [], None, start)
    {
      control, frames, head, s := Running(p), [], None, start;
    }

    /** `CHERIOT_DURING`: link an entry for this block and save the jump buffer. */
    method EnterBlock(body: Stmt<S>, handler: Stmt<S>)
      requires control == Running(During(body, handler))
      modifies this
      ensures View() == Step(old(View()))
    {
      var at := |frames|;
      frames := frames + [Block(head, at + 1, handler), AfterBody];
      head := Some(at);
      control := Running(body);
    }

    /** `CHERIOT_HANDLER` reached from the body, or the end of the handler. */
    method ExitBlock(unlink: bool)
      modifies this
      ensures View() == LeaveBlock(old(View()), unlink)
    {
      var n := |frames|;
      if n < 2 || !frames[n - 2].Block? {
        control := Stuck;
      } else {
        if unlink { head := frames[n - 2].next; }
        frames := frames[..n - 2];
        control := Returning;
      }
    }

    /** Unlink the innermost entry and jump to it. */
    method Unwind()
      modifies this
      ensures View() == CleanupUnwind(old(View()))
    {
      if head.None? {
        control := Faulted;
      } else if head.value >= |frames| || !frames[head.value].Block? || frames[head.value].env > |frames| {
        control := Stuck;
      } else {
        var top := frames[head.value];
        head := top.next;
        frames := frames[..top.env];
        control := Landing;
      }
    }

    /** The second return of `setjmp`: unlink again and enter the handler. */
    method EnterHandler()
      requires control == Landing
      modifies this
      ensures View() == Step(old(View()))
    {
      var n := |frames|;
      if n == 0 || !frames[n - 1].Block? {
        control := Stuck;
      } else {
        head := frames[n - 1].next;
        control := Running(frames[n - 1].handler);
        frames := frames + [AfterHandler];
      }
    }

    method Advance()
      modifies this
      ensures View() == Step(old(View()))
    {
      var n := |frames|;
      match control
      case Running(Skip) => control := Returning;
      case Running(Act(f)) => control, s := Returning, f(s);
      case Running(Seq(a, b)) => control, frames := Running(a), frames + [Then(b)];
      case Running(If(c, a, b)) => control := Running(if c(s) then a else b);
      case Running(Throw) => Unwind();
      case Running(During(body, handler)) => EnterBlock(body, handler);
      case Landing => EnterHandler();
      case Returning =>
        if n > 0 {
          match frames[n - 1]
          case Then(p) => control, frames := Running(p), frames[..n - 1];
          case AfterBody => ExitBlock(true);
          case AfterHandler => ExitBlock(false);
          case Block(_, _, _) => control := Stuck;
        }
      case Faulted =>
      case Stuck =>
    }
  }
}
