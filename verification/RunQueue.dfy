/** Tasks on any number of CPUs: the run queue, the task locks and the scheduler loop.

    A step has at most one effect that other CPUs can see: a task's lock is taken or released, or
    the queue changes; a task's state is read and written under its lock only.  A task's lock is held
    across the context switch: the task takes it, the scheduler releases it, and the other way round. */
module RunQueue {
  import opened Wrappers

  datatype TaskState = Initialized | Runable | Running | Blocked | Interruptible | Waitting | Zombie

  /** A task and the CPU that holds its lock. */
  datatype Task = Task(state: TaskState, lock: Option<nat>)

  /** Where a CPU stands. */
  datatype Cpu =
    | Idle                 // in the scheduler loop, about to pick
    | Picked(task: nat)    // took a task from the queue, waits for its lock
    | InTask(task: nat)    // runs the task
    | Leaving(task: nat)   // the task has its lock and a new state and goes to the scheduler
    | Back(task: nat)      // the scheduler again, still with the task's lock
    | Releasing(task: nat) // has put a runable task back into the queue, still with its lock

  datatype State = State(cpus: seq<Cpu>, tasks: seq<Task>, queue: seq<nat>)

  /** The three wake functions differ in the states they wake. */
  datatype Wakeup = Any | IfInterruptible | IfWaiting

  datatype Event =
    | Create
    | Lock(c: nat, t: nat) | Unlock(c: nat, t: nat)
    | Wake(c: nat, t: nat, kind: Wakeup)
    | Leave(c: nat, state: TaskState)
    | Switch(c: nat)
    | Pick(c: nat, k: nat)
    | Dispatch(c: nat)
    | Enqueue(c: nat)
    | Release(c: nat)

  /** Which states a wake function turns into `Runable`. */
  predicate Wakes(kind: Wakeup, state: TaskState) {
    match kind
    case Any => state.Blocked? || state.Waitting? || state.Initialized? || state.Interruptible?
    case IfInterruptible => state.Waitting? || state.Interruptible?
    case IfWaiting => state.Waitting?
  }

  predicate Holds(s: State, c: nat, t: nat) { t < |s.tasks| && s.tasks[t].lock == Some(c) }

  predicate HoldsOnly(s: State, c: nat, t: nat) {
    forall u :: 0 <= u < |s.tasks| && u != t ==> s.tasks[u].lock != Some(c)
  }

  /** The CPU has a task of its own in hand. */
  predicate Busy(cpu: Cpu) { !cpu.Idle? && !cpu.Releasing? }

  /** The CPU is on its way through the scheduler with the lock of task `t`. */
  predicate Passing(cpu: Cpu, t: nat) { cpu == Cpu.Leaving(t) || cpu == Back(t) || cpu == Releasing(t) }

  predicate HoldsNone(s: State, c: nat) { forall u :: 0 <= u < |s.tasks| ==> s.tasks[u].lock != Some(c) }

  /** Locks are taken and tasks woken by running tasks and by interrupt handlers; a task on its way
      to the scheduler may still wake and release others, but not itself. */
  predicate Enabled(s: State, e: Event) {
    match e
    case Create => true
    case Lock(c, t) =>
      && c < |s.cpus| && t < |s.tasks| && s.tasks[t].lock.None?
      && !s.cpus[c].Leaving? && !s.cpus[c].Back? && !s.cpus[c].Releasing?
    case Unlock(c, t) =>
      c < |s.cpus| && Holds(s, c, t) && !Passing(s.cpus[c], t)
    case Wake(c, t, _) =>
      c < |s.cpus| && Holds(s, c, t) && !Passing(s.cpus[c], t)
    case Leave(c, state) =>
      c < |s.cpus| && s.cpus[c].InTask? && Holds(s, c, s.cpus[c].task) && !state.Running? && !state.Initialized?
    case Switch(c) => c < |s.cpus| && s.cpus[c].Leaving? && HoldsOnly(s, c, s.cpus[c].task)
    case Pick(c, k) => c < |s.cpus| && s.cpus[c].Idle? && HoldsNone(s, c) && k < |s.queue|
    case Dispatch(c) =>
      && c < |s.cpus| && s.cpus[c].Picked? && HoldsNone(s, c)
      && s.cpus[c].task < |s.tasks| && s.tasks[s.cpus[c].task].lock.None?
    case Enqueue(c) => c < |s.cpus| && s.cpus[c].Back? && s.cpus[c].task < |s.tasks|
    case Release(c) => c < |s.cpus| && s.cpus[c].Releasing? && s.cpus[c].task < |s.tasks|
  }

  function SetTask(s: State, t: nat, x: Task): State
    requires t < |s.tasks|
  {
    s.(tasks := s.tasks[t := x])
  }

  function SetCpu(s: State, c: nat, x: Cpu): State
    requires c < |s.cpus|
  {
    s.(cpus := s.cpus[c := x])
  }

  function Apply(s: State, e: Event): State
    requires Enabled(s, e)
  {
    match e
    case Create => s.(tasks := s.tasks + [Task(Initialized, None)])
    case Lock(c, t) => SetTask(s, t, s.tasks[t].(lock := Some(c)))
    case Unlock(c, t) => SetTask(s, t, s.tasks[t].(lock := None))
    case Wake(c, t, kind) =>
      if Wakes(kind, s.tasks[t].state) then
        SetTask(s, t, s.tasks[t].(state := Runable)).(queue := s.queue + [t])
      else s
    case Leave(c, state) =>
      var t := s.cpus[c].task;
      SetCpu(SetTask(s, t, s.tasks[t].(state := state)), c, Cpu.Leaving(t))
    case Switch(c) => SetCpu(s, c, Back(s.cpus[c].task))
    case Pick(c, k) => SetCpu(s, c, Picked(s.queue[k])).(queue := s.queue[..k] + s.queue[k + 1..])
    case Dispatch(c) =>
      var t := s.cpus[c].task;
      SetCpu(SetTask(s, t, Task(Running, Some(c))), c, InTask(t))
    case Enqueue(c) =>
      var t := s.cpus[c].task;
      SetCpu(s, c, Releasing(t)).(queue := if s.tasks[t].state.Runable? then s.queue + [t] else s.queue)
    case Release(c) =>
      var t := s.cpus[c].task;
      SetCpu(SetTask(s, t, s.tasks[t].(lock := None)), c, Idle)
  }

  function Init(ncpu: nat): State { State(seq(ncpu, _ => Idle), [], []) }

  /** The state after a sequence of events, if each of them is enabled in its turn. */
  function Run(s: State, events: seq<Event>): Option<State> {
    if events == [] then Some(s)
    else
      var x, e := Run(s, events[..|events| - 1]), events[|events| - 1];
      if x.Some? && Enabled(x.value, e) then Some(Apply(x.value, e)) else None
  }

  // ---------------------------------------------------------------- invariants

  /** CPU `c` has task `t` in hand. */
  predicate InHand(s: State, c: nat, t: nat) { c < |s.cpus| && Busy(s.cpus[c]) && s.cpus[c].task == t }

  /** What a CPU's position says about its task. */
  predicate Fits(cpu: Cpu, c: nat, x: Task) {
    match cpu
    case Idle => true
    case Picked(_) => x.state.Runable?
    case InTask(_) => x.state.Running?
    case Releasing(_) => x.lock == Some(c)
    case _ => x.lock == Some(c) && !x.state.Running? && !x.state.Initialized?
  }

  /** A CPU's task is in the state that the CPU's position asks for, and not in the queue while the
      CPU has it in hand. */
  predicate CpuOk(s: State, c: nat)
    requires c < |s.cpus|
  {
    !s.cpus[c].Idle? ==>
      && s.cpus[c].task < |s.tasks| && (Busy(s.cpus[c]) ==> s.cpus[c].task !in s.queue)
      && Fits(s.cpus[c], c, s.tasks[s.cpus[c].task])
  }

  ghost predicate CpusOk(s: State) {
    forall c {:trigger s.cpus[c]} {:trigger CpuOk(s, c)} :: 0 <= c < |s.cpus| ==> CpuOk(s, c)
  }

  ghost predicate OneCpuEach(s: State) {
    forall c, d :: 0 <= c < d < |s.cpus| && Busy(s.cpus[c]) && Busy(s.cpus[d]) ==> s.cpus[c].task != s.cpus[d].task
  }

  ghost predicate QueueOk(s: State) {
    && (forall k :: 0 <= k < |s.queue| ==> s.queue[k] < |s.tasks| && s.tasks[s.queue[k]].state.Runable?)
    && (forall k, l :: 0 <= k < l < |s.queue| ==> s.queue[k] != s.queue[l])
  }

  ghost predicate Somewhere(s: State, t: nat) { t in s.queue || exists c: nat :: InHand(s, c, t) }

  ghost predicate TasksOk(s: State) {
    forall t :: 0 <= t < |s.tasks| && (s.tasks[t].state.Runable? || s.tasks[t].state.Running?) ==> Somewhere(s, t)
  }

  ghost predicate Inv(s: State) { CpusOk(s) && OneCpuEach(s) && QueueOk(s) && TasksOk(s) }

  lemma CpusStep(s: State, e: Event)
    requires CpusOk(s) && OneCpuEach(s) && QueueOk(s) && Enabled(s, e)
    ensures CpusOk(Apply(s, e))
  {
    forall c | 0 <= c < |Apply(s, e).cpus|
      ensures CpuOk(Apply(s, e), c)
    {
      assert |Apply(s, e).cpus| == |s.cpus|;
      CpuStep(s, e, c);
    }
  }

  lemma CpuStep(s: State, e: Event, c: nat)
    requires CpusOk(s) && OneCpuEach(s) && QueueOk(s) && Enabled(s, e) && c < |s.cpus|
    ensures c < |Apply(s, e).cpus| && CpuOk(Apply(s, e), c)
  {
    assert CpuOk(s, c);
    if !e.Create? {
      assert CpuOk(s, e.c);
      assert Busy(s.cpus[c]) && Busy(s.cpus[e.c]) && c != e.c ==> s.cpus[c].task != s.cpus[e.c].task;
    }
    hide HoldsNone, HoldsOnly, CpusOk, OneCpuEach;
  }

  lemma OneCpuEachStep(s: State, e: Event)
    requires CpusOk(s) && OneCpuEach(s) && Enabled(s, e)
    ensures OneCpuEach(Apply(s, e))
  {
  }

  lemma QueueStep(s: State, e: Event)
    requires CpusOk(s) && QueueOk(s) && Enabled(s, e)
    ensures QueueOk(Apply(s, e))
  {
    hide HoldsNone, HoldsOnly;
  }

  lemma TasksStep(s: State, e: Event)
    requires Inv(s) && Enabled(s, e)
    ensures TasksOk(Apply(s, e))
  {
    var s' := Apply(s, e);
    forall t | 0 <= t < |s'.tasks| && (s'.tasks[t].state.Runable? || s'.tasks[t].state.Running?)
      ensures Somewhere(s', t)
    {
      SomewhereStep(s, e, t);
    }
  }

  /** A task does not get lost: it is queued when it is woken, and until then in hand. */
  lemma SomewhereStep(s: State, e: Event, t: nat)
    requires Inv(s) && Enabled(s, e)
    requires var s' := Apply(s, e); t < |s'.tasks| && (s'.tasks[t].state.Runable? || s'.tasks[t].state.Running?)
    ensures Somewhere(Apply(s, e), t)
  {
    var s' := Apply(s, e);
    if t in s.queue {
      if e.Pick? {
        assert t == s.queue[e.k] || t in s'.queue;
        assert t == s.queue[e.k] ==> InHand(s', e.c, t);
      }
    } else if e.Wake? && t == e.t && s' != s {
      assert s'.queue[|s.queue|] == t;
    } else if e.Leave? && s.cpus[e.c].task == t {
      assert InHand(s', e.c, t);
    } else {
      assert s.tasks[t].state.Runable? || s.tasks[t].state.Running?;
      var c: nat :| InHand(s, c, t);
      if e == Enqueue(c) {
        assert s'.queue[|s.queue|] == t;
      } else {
        assert InHand(s', c, t);
      }
    }
  }

  lemma InvStep(s: State, e: Event)
    requires Inv(s) && Enabled(s, e)
    ensures Inv(Apply(s, e))
  {
    CpusStep(s, e);
    OneCpuEachStep(s, e);
    QueueStep(s, e);
    TasksStep(s, e);
    hide CpusOk, OneCpuEach, QueueOk, TasksOk, Apply, Enabled;
  }

  lemma {:induction false} InvInRuns(ncpu: nat, events: seq<Event>)
    requires Run(Init(ncpu), events).Some?
    ensures Inv(Run(Init(ncpu), events).value)
  {
    if events != [] {
      var x, e := Run(Init(ncpu), events[..|events| - 1]).value, events[|events| - 1];
      InvInRuns(ncpu, events[..|events| - 1]);
      InvStep(x, e);
      hide Inv, Apply, Enabled;
    }
  }

  // ---------------------------------------------------------------- what holds in every run

  /** `current_task` of a CPU is this task. */
  predicate Current(s: State, c: nat, t: nat) { InHand(s, c, t) && !s.cpus[c].Picked? }

  /** How often a task is in the queue. */
  function Times(q: seq<nat>, t: nat): nat { if q == [] then 0 else Times(q[1..], t) + if q[0] == t then 1 else 0 }

  lemma {:induction false} TimesDistinct(q: seq<nat>, t: nat)
    requires forall k, l :: 0 <= k < l < |q| ==> q[k] != q[l]
    ensures Times(q, t) == if t in q then 1 else 0
  {
    if q != [] {
      TimesDistinct(q[1..], t);
      assert t in q <==> t == q[0] || t in q[1..];
      assert q[0] !in q[1..];
    }
  }

  /** A task whose lock is free is `Runable` exactly when it is in the queue once, or one CPU has
      just picked it; it is `Running` exactly when it is the current task of one CPU; and it is
      never in two places. */
  lemma FreeTask(ncpu: nat, events: seq<Event>, t: nat)
    requires Run(Init(ncpu), events).Some?
    requires var s := Run(Init(ncpu), events).value; t < |s.tasks| && s.tasks[t].lock.None?
    ensures var s := Run(Init(ncpu), events).value;
            && (s.tasks[t].state.Runable? <==>
                  Times(s.queue, t) == 1 || exists c: nat :: InHand(s, c, t) && s.cpus[c].Picked?)
            && (s.tasks[t].state.Running? <==> exists c: nat :: Current(s, c, t))
            && Times(s.queue, t) <= 1
            && (forall c: nat :: InHand(s, c, t) ==> Times(s.queue, t) == 0)
            && (forall c: nat, d: nat :: InHand(s, c, t) && InHand(s, d, t) ==> c == d)
  {
    InvInRuns(ncpu, events);
    var s := Run(Init(ncpu), events).value;
    TimesDistinct(s.queue, t);
    hide Run, Times;
    InOnePlace(s, t);
  }

  lemma InOnePlace(s: State, t: nat)
    requires Inv(s) && t < |s.tasks| && s.tasks[t].lock.None?
    ensures s.tasks[t].state.Runable? <==> t in s.queue || exists c: nat :: InHand(s, c, t) && s.cpus[c].Picked?
    ensures s.tasks[t].state.Running? <==> exists c: nat :: Current(s, c, t)
    ensures forall c: nat :: InHand(s, c, t) ==> t !in s.queue
    ensures forall c: nat, d: nat :: InHand(s, c, t) && InHand(s, d, t) ==> c == d
  {
    forall c: nat | InHand(s, c, t)
      ensures t !in s.queue && Fits(s.cpus[c], c, s.tasks[t])
    {
      assert CpuOk(s, c);
    }
    if t !in s.queue && (s.tasks[t].state.Runable? || s.tasks[t].state.Running?) {
      assert Somewhere(s, t);
      var c: nat :| InHand(s, c, t);
      assert Fits(s.cpus[c], c, s.tasks[t]);
      assert s.tasks[t].state.Running? ==> Current(s, c, t);
    }
  }

  /** In every state, with the lock free or not, a queued or picked task is `Runable`: the
      assertion of the scheduler never fails. */
  lemma SchedulerAssertion(ncpu: nat, events: seq<Event>, c: nat)
    requires Run(Init(ncpu), events).Some? && Enabled(Run(Init(ncpu), events).value, Dispatch(c))
    ensures var s := Run(Init(ncpu), events).value; s.tasks[s.cpus[c].task].state.Runable?
  {
    InvInRuns(ncpu, events);
    hide Run;
  }

  /** Likewise the assertion of the blocking operations: a task that blocks is `Running`. */
  lemma BlockingAssertion(ncpu: nat, events: seq<Event>, c: nat, state: TaskState)
    requires Run(Init(ncpu), events).Some? && Enabled(Run(Init(ncpu), events).value, Leave(c, state))
    ensures var s := Run(Init(ncpu), events).value; s.tasks[s.cpus[c].task].state.Running?
  {
    InvInRuns(ncpu, events);
    hide Run;
  }

  /** Once a zombie, a task stays one, and it is never queued or picked again. */
  lemma {:induction false} ZombieForGood(ncpu: nat, events: seq<Event>, more: seq<Event>, t: nat)
    requires Run(Init(ncpu), events + more).Some?
    requires Run(Init(ncpu), events).Some?
    requires var s := Run(Init(ncpu), events).value; t < |s.tasks| && s.tasks[t].state.Zombie?
    ensures var s := Run(Init(ncpu), events + more).value;
            && t < |s.tasks| && s.tasks[t].state.Zombie? && t !in s.queue
            && (forall c: nat :: InHand(s, c, t) ==> s.cpus[c].Leaving? || s.cpus[c].Back?)
    decreases |more|
  {
    hide Enabled, Apply, Inv;
    if more == [] {
      assert events + more == events;
    } else {
      var n := |more| - 1;
      assert (events + more)[..|events| + n] == events + more[..n];
      ZombieForGood(ncpu, events, more[..n], t);
      InvInRuns(ncpu, events + more[..n]);
      ZombieStep(Run(Init(ncpu), events + more[..n]).value, more[n], t);
    }
    InvInRuns(ncpu, events + more);
    hide Run;
    ZombiePlace(Run(Init(ncpu), events + more).value, t);
  }

  lemma ZombiePlace(s: State, t: nat)
    requires Inv(s) && t < |s.tasks| && s.tasks[t].state.Zombie?
    ensures t !in s.queue && forall c: nat :: InHand(s, c, t) ==> s.cpus[c].Leaving? || s.cpus[c].Back?
  {
    forall c: nat | InHand(s, c, t)
      ensures Fits(s.cpus[c], c, s.tasks[t])
    {
      assert CpuOk(s, c);
    }
  }

  lemma ZombieStep(s: State, e: Event, t: nat)
    requires Inv(s) && Enabled(s, e) && t < |s.tasks| && s.tasks[t].state.Zombie?
    ensures t < |Apply(s, e).tasks| && Apply(s, e).tasks[t].state.Zombie?
  {
  }
}
