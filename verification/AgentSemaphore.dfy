/** The engine-wide slot semaphore: a counter and a queue of waiters. */
module AgentSemaphore {

  datatype Option<+T> = None | Some(value: T)

  type Task = nat

  datatype State = State(inUse: int, queue: seq<Task>)

  /** `withSlot`: a task asks for a slot, and when its body is over, whether it returned or threw, gives the
      slot back. */
  datatype Step = Call(task: Task) | End(task: Task, threw: bool)

  const IDLE := State(0, [])

  function Acquired(total: int, s: State, t: Task): State {
    if s.inUse < total then s.(inUse := s.inUse + 1) else s.(queue := s.queue + [t])
  }

  function Released(s: State): State {
    if s.queue == [] then s.(inUse := s.inUse - 1) else s.(queue := s.queue[1..])
  }

  function Next(total: int, s: State, step: Step): State {
    match step
    case Call(t) => Acquired(total, s, t)
    case End(_, _) => Released(s)
  }

  function After(total: int, steps: seq<Step>): State {
    if steps == [] then IDLE
    else
      Next(total, After(total, steps[..|steps| - 1]), steps[|steps| - 1])
  }

  /** The tasks a step lets run: the caller, or the longest waiter. */
  function Lets(total: int, s: State, step: Step): seq<Task> {
    match step
    case Call(t) => if s.inUse < total then [t] else []
    case End(_, _) => if s.queue == [] then [] else [s.queue[0]]
  }

  function Grants(total: int, steps: seq<Step>): seq<Task> {
    if steps == [] then []
    else
      var front := steps[..|steps| - 1];
      Grants(total, front) + Lets(total, After(total, front), steps[|steps| - 1])
  }

  function Calls(steps: seq<Step>): seq<Task> {
    if steps == [] then []
    else Calls(steps[..|steps| - 1]) + match steps[|steps| - 1] case Call(t) => [t] case End(_, _) => []
  }

  function Ends(steps: seq<Step>): nat {
    if steps == [] then 0 else Ends(steps[..|steps| - 1]) + if steps[|steps| - 1].End? then 1 else 0
  }

  function StillRunning(r: set<Task>, step: Step): set<Task> {
    match step case Call(_) => r case End(t, _) => r - {t}
  }

  function Members(tasks: seq<Task>): set<Task> {
    set t | t in tasks
  }

  /** The tasks whose body is running. */
  function Running(total: int, steps: seq<Step>): set<Task> {
    if steps == [] then {}
    else
      var front, last := steps[..|steps| - 1], steps[|steps| - 1];
      StillRunning(Running(total, front), last) + Members(Lets(total, After(total, front), last))
  }

  /** A task calls once, and ends only what it runs. */
  ghost predicate Possible(total: int, steps: seq<Step>) {
    steps == [] ||
    var front, last := steps[..|steps| - 1], steps[|steps| - 1];
    && Possible(total, front)
    && (last.Call? ==> last.task !in Calls(front))
    && (last.End? ==> last.task in Running(total, front))
  }

  /** Never more slots in use than there are, and nobody waits beside a free slot. */
  lemma {:induction false} NoIdleSlot(total: int, steps: seq<Step>)
    ensures After(total, steps).queue != [] ==> After(total, steps).inUse >= total
    ensures After(total, steps).inUse <= total || After(total, steps).inUse <= 0
  {
    if steps != [] {
      NoIdleSlot(total, steps[..|steps| - 1]);
    }
  }

  /** Slots go out in the order they were asked for: those granted so far, then the queue, are the calls. */
  lemma {:induction false} FirstComeFirstServed(total: int, steps: seq<Step>)
    ensures Grants(total, steps) + After(total, steps).queue == Calls(steps)
  {
    if steps != [] {
      var front, last := steps[..|steps| - 1], steps[|steps| - 1];
      var s := After(total, front);
      FirstComeFirstServed(total, front);
      NoIdleSlot(total, front);
      hide After, Grants, Calls;
      assert s.queue != [] ==> s.queue == [s.queue[0]] + s.queue[1..];
    }
  }

  lemma {:induction false} CallsDiffer(total: int, steps: seq<Step>)
    requires Possible(total, steps)
    ensures forall i, j :: 0 <= i < j < |Calls(steps)| ==> Calls(steps)[i] != Calls(steps)[j]
  {
    if steps != [] {
      CallsDiffer(total, steps[..|steps| - 1]);
    }
  }

  lemma {:induction false} RunningWereGranted(total: int, steps: seq<Step>)
    ensures forall t :: t in Running(total, steps) ==> t in Grants(total, steps)
  {
    if steps != [] {
      RunningWereGranted(total, steps[..|steps| - 1]);
    }
  }

  /** Who waits is not running, and neither is a task that has not called. */
  lemma NextIsNotRunning(total: int, steps: seq<Step>)
    requires Possible(total, steps)
    ensures After(total, steps).queue != [] ==> After(total, steps).queue[0] !in Running(total, steps)
    ensures forall t :: t !in Calls(steps) ==> t !in Running(total, steps)
  {
    RunningWereGranted(total, steps);
    FirstComeFirstServed(total, steps);
    CallsDiffer(total, steps);
    hide After, Grants, Calls, Running, Possible;
    var g, q := Grants(total, steps), After(total, steps).queue;
    assert forall t :: t in g ==> t in Calls(steps);
    if q != [] {
      assert Calls(steps)[|g|] == q[0];
      forall i | 0 <= i < |g|
        ensures g[i] != q[0]
      {
        assert Calls(steps)[i] == g[i];
      }
    }
  }

  lemma SetOf(lets: seq<Task>)
    requires |lets| <= 1
    ensures Members(lets) == if lets == [] then {} else {lets[0]}
  {
  }

  lemma Counted(total: int, s: State, r: set<Task>, step: Step)
    requires s.inUse == |r| && (s.queue != [] ==> s.queue[0] !in r)
    requires step.Call? ==> step.task !in r
    requires step.End? ==> step.task in r
    ensures Next(total, s, step).inUse == |StillRunning(r, step) + Members(Lets(total, s, step))|
  {
    SetOf(Lets(total, s, step));
    hide Members;
    var less, lets := StillRunning(r, step), Lets(total, s, step);
    assert |less| == |r| - if step.End? then 1 else 0;
    if lets == [] {
      assert less + {} == less;
    } else {
      assert lets[0] !in less;
      assert |less + {lets[0]}| == |less| + 1;
    }
  }

  /** One slot in use per running task: a slot is never given back twice, nor kept. */
  lemma {:induction false} SlotPerTask(total: int, steps: seq<Step>)
    requires Possible(total, steps)
    ensures After(total, steps).inUse == |Running(total, steps)|
  {
    if steps != [] {
      var front, last := steps[..|steps| - 1], steps[|steps| - 1];
      SlotPerTask(total, front);
      NextIsNotRunning(total, front);
      hide Calls, Grants;
      Counted(total, After(total, front), Running(total, front), last);
    }
  }

  /** One more step, appended. */
  lemma OneMore(total: int, steps: seq<Step>, later: seq<Step>)
    requires later != []
    ensures var front, last := later[..|later| - 1], later[|later| - 1];
      && After(total, steps + later) == Next(total, After(total, steps + front), last)
      && Grants(total, steps + later) == Grants(total, steps + front) + Lets(total, After(total, steps + front), last)
  {
    assert (steps + later)[..|steps + later| - 1] == steps + later[..|later| - 1];
  }

  /** While some of the tasks in `w.queue` still wait, after `n` of them, a call joins the queue and a release
      lets the next one run. */
  lemma WhileWaiting(total: int, w: State, n: nat, calls: seq<Task>, step: Step)
    requires w.inUse >= total && n <= |w.queue| && (step.End? ==> n < |w.queue|)
    ensures var s, more := State(w.inUse, w.queue[n..] + calls), if step.End? then n + 1 else n;
      && Lets(total, s, step) == w.queue[n..more]
      && Next(total, s, step) == State(w.inUse, w.queue[more..] + (calls + if step.Call? then [step.task] else []))
  {
    if step.End? {
      assert w.queue[n..] == [w.queue[n]] + w.queue[n + 1..];
    }
  }

  /** After `later`, exactly the first of those who waited after `steps` have been let run, one for each release. */
  ghost predicate InTurn(total: int, steps: seq<Step>, later: seq<Step>) {
    var w := After(total, steps);
    && Ends(later) <= |w.queue|
    && Grants(total, steps + later) == Grants(total, steps) + w.queue[..Ends(later)]
    && After(total, steps + later) == State(w.inUse, w.queue[Ends(later)..] + Calls(later))
  }

  lemma LastCounted(later: seq<Step>)
    requires later != []
    ensures var front, last := later[..|later| - 1], later[|later| - 1];
      && Ends(later) == Ends(front) + (if last.End? then 1 else 0)
      && Calls(later) == Calls(front) + if last.Call? then [last.task] else []
  {
  }

  lemma Lengthened(granted: seq<Task>, q: seq<Task>, n: nat, more: nat)
    requires n <= more <= |q|
    ensures granted + q[..n] + q[n..more] == granted + q[..more]
  {
    assert q[..n] + q[n..more] == q[..more];
  }

  lemma InTurnNext(total: int, steps: seq<Step>, later: seq<Step>)
    requires later != [] && After(total, steps).inUse >= total && Ends(later) <= |After(total, steps).queue|
    requires InTurn(total, steps, later[..|later| - 1])
    ensures InTurn(total, steps, later)
  {
    hide After, Grants, Calls, Ends, Next, Lets;
    var front, last, w := later[..|later| - 1], later[|later| - 1], After(total, steps);
    var n, s := Ends(front), After(total, steps + front);
    assert s == State(w.inUse, w.queue[n..] + Calls(front))
      && Grants(total, steps + front) == Grants(total, steps) + w.queue[..n];
    hide InTurn;
    LastCounted(later);
    OneMore(total, steps, later);
    WhileWaiting(total, w, n, Calls(front), last);
    Lengthened(Grants(total, steps), w.queue, n, Ends(later));
  }

  lemma InTurnNow(total: int, steps: seq<Step>)
    ensures InTurn(total, steps, [])
  {
    assert steps + [] == steps;
    hide After, Grants;
  }

  lemma {:induction false} AllInTurn(total: int, steps: seq<Step>, later: seq<Step>)
    requires After(total, steps).inUse >= total && Ends(later) <= |After(total, steps).queue|
    ensures InTurn(total, steps, later)
  {
    assert later != [] ==> Ends(later[..|later| - 1]) <= Ends(later);
    hide After, Ends, InTurn;
    if later == [] {
      InTurnNow(total, steps);
    } else {
      AllInTurn(total, steps, later[..|later| - 1]);
      InTurnNext(total, steps, later);
    }
  }

  /** From a moment when tasks are waiting, the first `n` later releases let exactly the first `n` of them run,
      in order: the k-th waiter runs from the k-th release on, whatever else happens meanwhile. */
  lemma KthWaiterKthRelease(total: int, steps: seq<Step>, later: seq<Step>)
    requires After(total, steps).queue != [] && Ends(later) <= |After(total, steps).queue|
    ensures Grants(total, steps + later) == Grants(total, steps) + After(total, steps).queue[..Ends(later)]
    ensures After(total, steps + later)
      == State(After(total, steps).inUse, After(total, steps).queue[Ends(later)..] + Calls(later))
  {
    hide After, Grants, Ends, Calls;
    NoIdleSlot(total, steps);
    AllInTurn(total, steps, later);
  }

  /** When every task that called has ended, every slot is free again and nobody waits: each acquire was matched
      by one release, whether the bodies returned or threw. */
  lemma AllSlotsReturn(total: int, steps: seq<Step>)
    requires Possible(total, steps) && total > 0 && Running(total, steps) == {}
    ensures After(total, steps) == IDLE && Grants(total, steps) == Calls(steps)
  {
    SlotPerTask(total, steps);
    NoIdleSlot(total, steps);
    FirstComeFirstServed(total, steps);
  }

  lemma {:induction false} OneReleaseEach(total: int, steps: seq<Step>)
    requires Possible(total, steps)
    ensures |Grants(total, steps)| == Ends(steps) + |Running(total, steps)|
  {
    if steps != [] {
      var front, last := steps[..|steps| - 1], steps[|steps| - 1];
      OneReleaseEach(total, front);
      SlotPerTask(total, front);
      SlotPerTask(total, steps);
    }
  }

  class Semaphore {
    const total: int
    var inUse: int
    var queue: seq<Task>

    ghost function View(): State
      reads this
    {
      State(inUse, queue)
    }

    constructor (total: int)
      ensures View() == IDLE && this.total == total
    {
      this.total, inUse, queue := total, 0, [];
    }

    method Acquire(t: Task) returns (now: bool)
      modifies this
      ensures View() == Acquired(total, old(View()), t)
      ensures now <==> old(inUse) < total
    {
      if inUse < total {
        inUse := inUse + 1;
        return true;
      }
      queue := queue + [t];
      return false;
    }

    method Release() returns (next: Option<Task>)
      modifies this
      ensures View() == Released(old(View()))
      ensures next == if old(queue) == [] then None else Some(old(queue)[0])
    {
      inUse := inUse - 1;
      if queue == [] {
        return None;
      }
      next := Some(queue[0]);
      queue := queue[1..];
      inUse := inUse + 1;
    }

    /** Any number of `withSlot` calls, interleaved. */
    method WithSlots(steps: seq<Step>) returns (grants: seq<Task>)
      requires View() == IDLE
      modifies this
      ensures View() == After(total, steps) && grants == Grants(total, steps)
    {
      grants := [];
      for i := 0 to |steps|
        invariant View() == After(total, steps[..i]) && grants == Grants(total, steps[..i])
      {
        assert steps[..i + 1][..i] == steps[..i];
        match steps[i] {
          case Call(t) =>
            var now := Acquire(t);
            if now {
              grants := grants + [t];
            }
          case End(_, _) =>
            var next := Release();
            if next.Some? {
              grants := grants + [next.value];
            }
        }
      }
      assert steps[..|steps|] == steps;
    }
  }
}
