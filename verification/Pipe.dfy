/** Pipes: any number of `read` and `write` calls over one bounded buffer, and its closing.

    A step is what happens between two acquisitions of a lock.  The buffer lock, the locks of the
    two wait queues and the lock that a resumed task holds on itself are all part of the state;
    calls, signals and the closing come in any order. */
module Pipe {
  import opened Wrappers

  datatype Side = Reader | Writer

  function Other(q: Side): Side { if q.Reader? then Writer else Reader }

  datatype Holder = Free | ByCall(call: nat) | ByCloser

  /** A wait queue with its lock. */
  datatype WaitQueue = WaitQueue(lock: Holder, queue: seq<nat>)

  datatype ClosePhase = Open | Flagged | WakingReaders | ReadersWoken | WakingWriters | Finished

  /** Where a call stands, and which locks it holds there. */
  datatype Pc =
    | Start       // waits for the buffer lock
    | Moving      // buffer lock; about to move bytes
    | Signalling  // buffer lock; waits for the other side's queue
    | Waking      // buffer lock and the other side's queue; wakes its tasks
    | Deciding    // buffer lock; done, closed or to be parked?
    | Queueing    // buffer lock; waits for its own side's queue
    | Checking    // buffer lock and its own queue; looks once more whether the pipe is closed
    | Parking     // its own queue; about to append itself
    | Parked      // blocked
    | Woken       // runnable again
    | Resumed     // runs and holds its own task lock
    | Leaving     // interrupted; task lock; waits for its own queue to take itself out
    | Returned(ok: bool)

  /** A call of `read` or `write`: the first `done` bytes of `buf` are read or written. */
  datatype Call = Call(side: Side, buf: seq<Byte>, done: nat, pc: Pc, interrupted: bool)

  /** The pipe; `pushed` and `drained` record every byte that went in or out, with its call. */
  datatype State = State(cap: nat, buffer: seq<Byte>, lock: Holder, r: WaitQueue, w: WaitQueue,
                         close: ClosePhase, calls: seq<Call>, pushed: seq<(nat, Byte)>, drained: seq<(nat, Byte)>)

  datatype Event =
    | Begin(side: Side, buf: seq<Byte>)
    | LockBuffer(i: nat) | Move(i: nat) | LockOther(i: nat) | Wake(i: nat) | EndWaking(i: nat) | Decide(i: nat)
    | LockOwn(i: nat) | Recheck(i: nat) | Park(i: nat) | Interrupt(i: nat) | Schedule(i: nat) | Resume(i: nat)
    | Leave(i: nat)
    | CloseFlag | CloseLock(q: Side) | CloseWake(q: Side) | CloseUnlock(q: Side)

  function Wait(s: State, q: Side): WaitQueue { if q.Reader? then s.r else s.w }

  function SetWait(s: State, q: Side, x: WaitQueue): State {
    if q.Reader? then s.(r := x) else s.(w := x)
  }

  function SetPc(s: State, i: nat, pc: Pc): State
    requires i < |s.calls|
  {
    s.(calls := s.calls[i := s.calls[i].(pc := pc)])
  }

  predicate Closed(s: State) { !s.close.Open? }

  predicate At(s: State, i: nat, pc: Pc) { i < |s.calls| && s.calls[i].pc == pc }

  /** A task that holds its own lock cannot be woken or sent a signal. */
  predicate HoldsTask(c: Call) { c.pc.Resumed? || c.pc.Leaving? }

  predicate HoldsBuffer(c: Call) {
    c.pc.Moving? || c.pc.Signalling? || c.pc.Waking? || c.pc.Deciding? || c.pc.Queueing? || c.pc.Checking?
  }

  predicate HoldsQueue(c: Call, q: Side) {
    if c.side == q then c.pc.Checking? || c.pc.Parking? else c.pc.Waking?
  }

  function WakingPhase(q: Side): ClosePhase { if q.Reader? then WakingReaders else WakingWriters }

  // ---------------------------------------------------------------- moving bytes

  /** `drain_vecdeque_to_slice` on a queue whose contents lie in two slices `a` and `b`. */
  method DrainToSlice(a: seq<Byte>, b: seq<Byte>, dst: array<Byte>) returns (n: nat, rest: seq<Byte>)
    modifies dst
    ensures n == if |a + b| < dst.Length then |a + b| else dst.Length
    ensures dst[..] == (a + b)[..n] + old(dst[..])[n..]
    ensures rest == (a + b)[n..]
  {
    n := if |a| + |b| < dst.Length then |a| + |b| else dst.Length;
    var inA := if |a| < n then |a| else n;
    forall k | 0 <= k < inA { dst[k] := a[k]; }
    forall k | inA <= k < n { dst[k] := b[k - inA]; }
    rest := (a + b)[n..];
  }

  // ---------------------------------------------------------------- steps

  /** The front of the queue can be popped and woken. */
  predicate CanWake(s: State, q: Side) {
    var x := Wait(s, q).queue;
    x != [] && x[0] < |s.calls| && !HoldsTask(s.calls[x[0]])
  }

  predicate CanMove(s: State, i: nat) {
    At(s, i, Moving) && s.calls[i].done <= |s.calls[i].buf| && |s.buffer| <= s.cap
  }

  predicate Enabled(s: State, e: Event) {
    match e
    case Begin(_, _) => true
    case LockBuffer(i) => At(s, i, Start) && s.lock.Free?
    case Move(i) => CanMove(s, i)
    case LockOther(i) => At(s, i, Signalling) && Wait(s, Other(s.calls[i].side)).lock.Free?
    case Wake(i) => At(s, i, Waking) && CanWake(s, Other(s.calls[i].side))
    case EndWaking(i) => At(s, i, Waking) && Wait(s, Other(s.calls[i].side)).queue == []
    case Decide(i) => At(s, i, Deciding)
    case LockOwn(i) => At(s, i, Queueing) && Wait(s, s.calls[i].side).lock.Free?
    case Recheck(i) => At(s, i, Checking)
    case Park(i) => At(s, i, Parking)
    case Interrupt(i) => i < |s.calls| && !HoldsTask(s.calls[i])
    case Schedule(i) => At(s, i, Woken)
    case Resume(i) => At(s, i, Resumed)
    case Leave(i) => At(s, i, Leaving) && Wait(s, s.calls[i].side).lock.Free?
    case CloseFlag => s.close.Open?
    case CloseLock(q) => s.close == (if q.Reader? then Flagged else ReadersWoken) && Wait(s, q).lock.Free?
    case CloseWake(q) => s.close == WakingPhase(q) && CanWake(s, q)
    case CloseUnlock(q) => s.close == WakingPhase(q) && Wait(s, q).queue == []
  }

  /** How many bytes a call can move. */
  function Movable(s: State, c: Call): nat
    requires c.done <= |c.buf| && |s.buffer| <= s.cap
  {
    var room := if c.side.Reader? then |s.buffer| else s.cap - |s.buffer|;
    if room < |c.buf| - c.done then room else |c.buf| - c.done
  }

  function Tagged(i: nat, bytes: seq<Byte>): seq<(nat, Byte)> {
    seq(|bytes|, k requires 0 <= k < |bytes| => (i, bytes[k]))
  }

  /** A reader drains from the front of the buffer, a writer appends to it. */
  function Moved(s: State, i: nat): State
    requires CanMove(s, i)
  {
    var c := s.calls[i];
    var n := Movable(s, c);
    var pc := if n != 0 then Signalling else Deciding;
    if c.side.Reader? then
      s.(buffer := s.buffer[n..],
         drained := s.drained + Tagged(i, s.buffer[..n]),
         calls := s.calls[i := c.(buf := c.buf[..c.done] + s.buffer[..n] + c.buf[c.done + n..], done := c.done + n,
             pc := pc)])
    else
      s.(buffer := s.buffer + c.buf[c.done..c.done + n],
         pushed := s.pushed + Tagged(i, c.buf[c.done..c.done + n]),
         calls := s.calls[i := c.(done := c.done + n, pc := pc)])
  }

  /** Pops the front of a queue; a task that a signal has woken before is left alone. */
  function Popped(s: State, q: Side): State
    requires CanWake(s, q)
  {
    var x := Wait(s, q);
    var t := x.queue[0];
    var s' := SetWait(s, q, x.(queue := x.queue[1..]));
    if s.calls[t].pc.Parked? then SetPc(s', t, Woken) else s'
  }

  /** `retain`: takes every entry of a task out of a queue. */
  function Without(x: seq<nat>, i: nat): seq<nat> {
    if x == [] then [] else (if x[0] == i then [] else [x[0]]) + Without(x[1..], i)
  }

  function Apply(s: State, e: Event): State
    requires Enabled(s, e)
  {
    match e
    case Begin(side, buf) => s.(calls := s.calls + [Call(side, buf, 0, Start, false)])
    case LockBuffer(i) => SetPc(s, i, Moving).(lock := ByCall(i))
    case Move(i) => Moved(s, i)
    case LockOther(i) =>
      var q := Other(s.calls[i].side);
      SetWait(SetPc(s, i, Waking), q, Wait(s, q).(lock := ByCall(i)))
    case Wake(i) => Popped(s, Other(s.calls[i].side))
    case EndWaking(i) =>
      var q := Other(s.calls[i].side);
      SetWait(SetPc(s, i, Deciding), q, Wait(s, q).(lock := Free))
    case Decide(i) =>
      var c := s.calls[i];
      if c.done == |c.buf| || Closed(s) then SetPc(s, i, Returned(true)).(lock := Free) else SetPc(s, i, Queueing)
    case LockOwn(i) =>
      var q := s.calls[i].side;
      SetWait(SetPc(s, i, Checking), q, Wait(s, q).(lock := ByCall(i)))
    case Recheck(i) =>
      var q := s.calls[i].side;
      if Closed(s) then SetWait(SetPc(s, i, Returned(true)).(lock := Free), q, Wait(s, q).(lock := Free))
      else SetPc(s, i, Parking).(lock := Free)
    case Park(i) =>
      var q := s.calls[i].side;
      SetWait(SetPc(s, i, Parked), q, WaitQueue(Free, Wait(s, q).queue + [i]))
    case Interrupt(i) =>
      var c := s.calls[i];
      s.(calls := s.calls[i := c.(interrupted := true, pc := if c.pc.Parked? then Woken else c.pc)])
    case Schedule(i) => SetPc(s, i, Resumed)
    case Resume(i) => SetPc(s, i, if s.calls[i].interrupted then Leaving else Start)
    case Leave(i) =>
      var q := s.calls[i].side;
      SetWait(SetPc(s, i, Returned(false)), q, Wait(s, q).(queue := Without(Wait(s, q).queue, i)))
    case CloseFlag => s.(close := Flagged)
    case CloseLock(q) => SetWait(s, q, Wait(s, q).(lock := ByCloser)).(close := WakingPhase(q))
    case CloseWake(q) => Popped(s, q)
    case CloseUnlock(q) =>
      SetWait(s, q, Wait(s, q).(lock := Free)).(close := if q.Reader? then ReadersWoken else Finished)
  }

  function Init(cap: nat): State {
    State(cap, [], Free, WaitQueue(Free, []), WaitQueue(Free, []), Open, [], [], [])
  }

  /** The state after a sequence of events, if each of them is enabled in its turn. */
  function Run(s: State, events: seq<Event>): Option<State> {
    if events == [] then Some(s)
    else
      var x, e := Run(s, events[..|events| - 1]), events[|events| - 1];
      if x.Some? && Enabled(x.value, e) then Some(Apply(x.value, e)) else None
  }

  // ---------------------------------------------------------------- invariants

  ghost predicate QueueLock(s: State, q: Side) {
    && (Wait(s, q).lock.ByCall? ==> Wait(s, q).lock.call < |s.calls|)
    && (Wait(s, q).lock.ByCloser? <==> s.close == WakingPhase(q))
    && (forall i :: 0 <= i < |s.calls| ==> (HoldsQueue(s.calls[i], q) <==> Wait(s, q).lock == ByCall(i)))
  }

  ghost predicate BufferLock(s: State) {
    && (s.lock.ByCall? ==> s.lock.call < |s.calls|) && !s.lock.ByCloser?
    && (forall i :: 0 <= i < |s.calls| ==> (HoldsBuffer(s.calls[i]) <==> s.lock == ByCall(i)))
  }

  /** Every lock is held by the call, or the closing, that stands where it is held. */
  ghost predicate Locks(s: State) { BufferLock(s) && QueueLock(s, Reader) && QueueLock(s, Writer) }

  /** A queue holds each blocked call of its side once, and otherwise only calls that a signal
      woke and that have not taken themselves out yet. */
  ghost predicate QueueOk(s: State, q: Side) {
    var x := Wait(s, q).queue;
    && (forall k :: 0 <= k < |x| ==> x[k] < |s.calls| && Queued(s.calls[x[k]], q))
    && Distinct(x)
    && (forall i :: 0 <= i < |s.calls| && s.calls[i].side == q && s.calls[i].pc.Parked? ==> i in x)
  }

  predicate Queued(c: Call, q: Side) {
    c.side == q && (c.pc.Parked? || (c.interrupted && (c.pc.Woken? || HoldsTask(c))))
  }

  /** No call of side `q` could move a byte. */
  predicate Stalled(s: State, q: Side) {
    if q.Reader? then s.buffer == [] else |s.buffer| == s.cap
  }

  /** A call is about to join the queue and has the queue's lock. */
  predicate Joining(s: State, q: Side) {
    Wait(s, q).lock.ByCall? && At(s, Wait(s, q).lock.call, Parking)
  }

  /** A call of the other side moved bytes and will wake the whole queue before it lets go of the
      buffer. */
  predicate SignalComing(s: State, q: Side) {
    && s.lock.ByCall? && s.lock.call < |s.calls|
    && var c := s.calls[s.lock.call]; c.side == Other(q) && (c.pc.Signalling? || c.pc.Waking?)
  }

  predicate NoneForgotten(s: State, q: Side) {
    Wait(s, q).queue != [] || Joining(s, q) ==> Stalled(s, q) || SignalComing(s, q)
  }

  /** The call with the buffer lock, once it has moved its bytes, is done or could move no more. */
  predicate HolderStalled(s: State) {
    s.lock.ByCall? && s.lock.call < |s.calls| ==>
      var c := s.calls[s.lock.call];
      && (!c.pc.Moving? ==> c.done == |c.buf| || Stalled(s, c.side))
      && (c.pc.Queueing? || c.pc.Checking? ==> c.done != |c.buf|)
  }

  predicate Emptied(s: State, q: Side) { Wait(s, q).queue == [] && !Joining(s, q) }

  predicate Closing(s: State) {
    && (s.close.ReadersWoken? || s.close.WakingWriters? || s.close.Finished? ==> Emptied(s, Reader))
    && (s.close.Finished? ==> Emptied(s, Writer))
  }

  ghost predicate Protocol(s: State) {
    && Locks(s) && QueueOk(s, Reader) && QueueOk(s, Writer)
    && NoneForgotten(s, Reader) && NoneForgotten(s, Writer) && HolderStalled(s) && Closing(s)
  }

  /** The bytes of a stream, without the calls. */
  function Bytes(x: seq<(nat, Byte)>): seq<Byte> { seq(|x|, k requires 0 <= k < |x| => x[k].1) }

  /** The bytes that call `i` moved. */
  function Own(x: seq<(nat, Byte)>, i: nat): seq<Byte> {
    if x == [] then []
    else Own(x[..|x| - 1], i) + if x[|x| - 1].0 == i then [x[|x| - 1].1] else []
  }

  ghost predicate OwnBytes(s: State, i: nat)
    requires i < |s.calls|
  {
    var c := s.calls[i];
    && c.done <= |c.buf|
    && Own(if c.side.Reader? then s.drained else s.pushed, i) == c.buf[..c.done]
    && Own(if c.side.Reader? then s.pushed else s.drained, i) == []
  }

  /** First in, first out: what was drained and what is in the buffer is what was pushed, and
      each call's part of it is the filled part of its buffer. */
  ghost predicate Streams(s: State) {
    && |s.buffer| <= s.cap
    && Bytes(s.drained) + s.buffer == Bytes(s.pushed)
    && (forall i :: 0 <= i < |s.calls| ==> OwnBytes(s, i))
    && (forall i: nat :: i >= |s.calls| ==> Own(s.drained, i) == [] && Own(s.pushed, i) == [])
  }

  ghost predicate Inv(s: State) { Streams(s) && Protocol(s) }

  // ---------------------------------------------------------------- every step keeps them

  /** The one call that an event changes, if any. */
  function Actor(s: State, e: Event): Option<nat>
    requires Enabled(s, e)
  {
    match e
    case Begin(_, _) => None
    case Wake(i) => Some(Wait(s, Other(s.calls[i].side)).queue[0])
    case CloseFlag => None
    case CloseLock(_) => None
    case CloseWake(q) => Some(Wait(s, q).queue[0])
    case CloseUnlock(_) => None
    case _ => Some(e.i)
  }

  lemma OneActor(s: State, e: Event)
    requires Enabled(s, e)
    ensures var s', a := Apply(s, e), Actor(s, e);
            if a.Some? then a.value < |s.calls| && |s'.calls| == |s.calls|
                && s'.calls[a.value].side == s.calls[a.value].side &&
                            s'.calls == s.calls[a.value := s'.calls[a.value]]
            else if e.Begin? then s'.calls == s.calls + [Call(e.side, e.buf, 0, Start, false)]
            else s'.calls == s.calls
  {
  }

  /** The buffer lock is kept, taken or given up by the call that the event changes. */
  lemma BufferTransfer(s: State, e: Event)
    requires Enabled(s, e)
    ensures var s', a := Apply(s, e), Actor(s, e);
            if a.None? then s'.lock == s.lock
            else
              var c, c' := s.calls[a.value], s'.calls[a.value];
              || (s'.lock == s.lock && (HoldsBuffer(c) <==> HoldsBuffer(c')))
              || (s.lock.Free? && s'.lock == ByCall(a.value) && HoldsBuffer(c'))
              || (HoldsBuffer(c) && s'.lock.Free? && !HoldsBuffer(c'))
  {
  }

  lemma BufferLockStep(s: State, e: Event)
    requires BufferLock(s) && Enabled(s, e)
    ensures BufferLock(Apply(s, e))
  {
    OneActor(s, e);
    BufferTransfer(s, e);
    hide Apply, Enabled, HoldsBuffer, Actor;
  }

  /** Likewise the lock of a wait queue. */
  lemma QueueTransfer(s: State, e: Event, q: Side)
    requires Enabled(s, e)
    ensures var s', a := Apply(s, e), Actor(s, e);
            if a.None? then e.CloseLock? || e.CloseUnlock? || Wait(s', q).lock == Wait(s, q).lock
            else
              var c, c' := s.calls[a.value], s'.calls[a.value];
              || (Wait(s', q).lock == Wait(s, q).lock && (HoldsQueue(c, q) <==> HoldsQueue(c', q)))
              || (Wait(s, q).lock.Free? && Wait(s', q).lock == ByCall(a.value) && HoldsQueue(c', q))
              || (HoldsQueue(c, q) && Wait(s', q).lock.Free? && !HoldsQueue(c', q))
  {
    if !(e.LockOther? || e.EndWaking? || e.LockOwn? || e.Recheck? || e.Park?) { QueueUntouched(s, e, q); }
  }

  lemma QueueUntouched(s: State, e: Event, q: Side)
    requires Enabled(s, e) && !(e.LockOther? || e.EndWaking? || e.LockOwn? || e.Recheck? || e.Park?)
    ensures var s', a := Apply(s, e), Actor(s, e);
            && (e.CloseLock? || e.CloseUnlock? || Wait(s', q).lock == Wait(s, q).lock)
            && (a.Some? ==> (HoldsQueue(s.calls[a.value], q) <==> HoldsQueue(s'.calls[a.value], q)))
  {
  }

  lemma QueueLockStep(s: State, e: Event, q: Side)
    requires QueueLock(s, q) && Enabled(s, e)
    ensures QueueLock(Apply(s, e), q)
  {
    OneActor(s, e);
    QueueTransfer(s, e, q);
    CloserTransfer(s, e, q);
    hide Apply, Enabled, HoldsQueue, Actor;
  }

  lemma CloserTransfer(s: State, e: Event, q: Side)
    requires Enabled(s, e)
    ensures var s' := Apply(s, e);
            || (s'.close == s.close && (e.CloseWake? || Actor(s, e).Some? || e.Begin?))
            || (Wait(s', q).lock == Wait(s, q).lock && s.close != WakingPhase(q) && s'.close != WakingPhase(q))
            || (Wait(s, q).lock.Free? && Wait(s', q).lock.ByCloser? && s'.close == WakingPhase(q))
            || (s.close == WakingPhase(q) && Wait(s', q).lock.Free? && s'.close != WakingPhase(q))
  {
  }

  /** The front of a queue is a call of the queue's side. */
  predicate FrontSide(s: State, q: Side) { CanWake(s, q) ==> s.calls[Wait(s, q).queue[0]].side == q }

  /** How an event changes a queue: not at all, or by appending, popping or removing its actor. */
  ghost predicate QueueChanged(s: State, s': State, a: nat, q: Side)
    requires a < |s.calls| && a < |s'.calls|
  {
    var x, x', c, c' := Wait(s, q).queue, Wait(s', q).queue, s.calls[a], s'.calls[a];
    || (x' == x && (Queued(c, q) ==> Queued(c', q)) && (c'.pc.Parked? ==> c.pc.Parked? || c.side != q))
    || (x' == x + [a] && c'.side == q && c'.pc.Parked? && c.pc.Parking?)
    || (x != [] && x' == x[1..] && a == x[0] && !c'.pc.Parked?)
    || (x' == Without(x, a) && !c'.pc.Parked?)
  }

  lemma QueueChange(s: State, e: Event, q: Side)
    requires Enabled(s, e) && FrontSide(s, Reader) && FrontSide(s, Writer)
    ensures var s', a := Apply(s, e), Actor(s, e);
            if a.None? then Wait(s', q).queue == Wait(s, q).queue else QueueChanged(s, s', a.value, q)
  {
    hide Without;
    if !(e.Wake? || e.Park? || e.Leave? || e.CloseWake?) { SameQueue(s, e, q); }
  }

  lemma SameQueue(s: State, e: Event, q: Side)
    requires Enabled(s, e) && !(e.Wake? || e.Park? || e.Leave? || e.CloseWake?)
    ensures var s', a := Apply(s, e), Actor(s, e);
            && Wait(s', q).queue == Wait(s, q).queue
            && (a.Some? ==> var c, c' := s.calls[a.value], s'.calls[a.value];
                            (Queued(c, q) ==> Queued(c', q)) && (c'.pc.Parked? ==> c.pc.Parked?))
  {
    hide Without, Tagged, Movable;
    if e.Move? { MoveKeepsQueue(s, e.i); }
  }

  lemma MoveKeepsQueue(s: State, i: nat)
    requires CanMove(s, i)
    ensures Moved(s, i).r == s.r && Moved(s, i).w == s.w && Moved(s, i).calls[i].side == s.calls[i].side
  {
    hide Tagged, Movable;
  }

  lemma QueueStep(s: State, e: Event, q: Side)
    requires QueueOk(s, Reader) && QueueOk(s, Writer) && Enabled(s, e)
    ensures QueueOk(Apply(s, e), q)
  {
    OneActor(s, e);
    QueueChange(s, e, q);
    hide Apply, Enabled, Actor;
    var a := Actor(s, e);
    if a.Some? {
      hide QueueOk, QueueChanged;
      QueueOkAfter(s, Apply(s, e), q, a.value);
    }
  }

  lemma QueueOkAfter(s: State, s': State, q: Side, a: nat)
    requires QueueOk(s, q) && a < |s.calls| && |s'.calls| == |s.calls| && s'.calls[a].side == s.calls[a].side
    requires s'.calls == s.calls[a := s'.calls[a]] && QueueChanged(s, s', a, q)
    ensures QueueOk(s', q)
  {
    var x, x' := Wait(s, q).queue, Wait(s', q).queue;
    WithoutMeans(x, a);
    hide Without;
    assert x != [] && a == x[0] ==> a !in x[1..];
    forall k | 0 <= k < |x'|
      ensures x'[k] < |s.calls| && Queued(s'.calls[x'[k]], q)
    {
      assert x'[k] in x' && (x'[k] in x || x'[k] == a);
    }
    forall i | 0 <= i < |s.calls| && s'.calls[i].side == q && s'.calls[i].pc.Parked?
      ensures i in x'
    {
      assert i != a ==> i in x;
      if x != [] && i in x && i != x[0] { assert i in x[1..]; }
    }
    assert Distinct(x') by {
      if x' == x + [a] && s.calls[a].pc.Parking? { assert a !in x; }
    }
  }

  lemma {:induction false} WithoutMeans(x: seq<nat>, i: nat)
    ensures forall j :: j in Without(x, i) <==> j in x && j != i
    ensures Distinct(x) ==> Distinct(Without(x, i))
  {
    if x != [] {
      WithoutMeans(x[1..], i);
      if Distinct(x) {
        assert Distinct(x[1..]);
        forall k, l | 0 <= k < l < |Without(x, i)|
          ensures Without(x, i)[k] != Without(x, i)[l]
        {
          if x[0] != i {
            assert Without(x, i)[l] == Without(x[1..], i)[l - 1] && Without(x, i)[l] in Without(x[1..], i);
          }
        }
      }
    }
  }

  lemma HolderStep(s: State, e: Event)
    requires BufferLock(s) && HolderStalled(s) && Enabled(s, e)
    ensures HolderStalled(Apply(s, e))
  {
    if e.Move? || e.Decide? || e.Recheck? {
      HolderActs(s, e);
    } else if e.LockBuffer? || e.LockOther? || e.EndWaking? || e.LockOwn? || e.Park? {
      HolderLocks(s, e);
    } else {
      HolderSame(s, e);
    }
    hide Apply, Enabled, BufferLock, HolderStalled;
  }

  lemma HolderActs(s: State, e: Event)
    requires BufferLock(s) && HolderStalled(s) && Enabled(s, e) && (e.Move? || e.Decide? || e.Recheck?)
    ensures HolderStalled(Apply(s, e))
  {
  }

  lemma HolderLocks(s: State, e: Event)
    requires BufferLock(s) && HolderStalled(s) && Enabled(s, e)
    requires e.LockBuffer? || e.LockOther? || e.EndWaking? || e.LockOwn? || e.Park?
    ensures HolderStalled(Apply(s, e))
  {
  }

  lemma HolderSame(s: State, e: Event)
    requires BufferLock(s) && HolderStalled(s) && Enabled(s, e)
    requires !e.Move? && !e.Decide? && !e.Recheck?
    requires !e.LockBuffer? && !e.LockOther? && !e.EndWaking? && !e.LockOwn? && !e.Park?
    ensures HolderStalled(Apply(s, e))
  {
    hide Without;
  }

  /** Call `i` holds the buffer lock and that of queue `q` where it says so. */
  predicate HoldsAsSaid(s: State, i: nat, q: Side) {
    && i < |s.calls| && (HoldsBuffer(s.calls[i]) <==> s.lock == ByCall(i))
    && (HoldsQueue(s.calls[i], q) <==> Wait(s, q).lock == ByCall(i))
  }

  /** Only a `Move` changes the buffer, and only calls that hold the lock of their queue join it. */
  lemma ForgottenStep(s: State, e: Event, q: Side)
    requires BufferLock(s) && QueueLock(s, q) && HolderStalled(s) && NoneForgotten(s, q) && Enabled(s, e)
    ensures NoneForgotten(Apply(s, e), q)
  {
    hide Apply, Enabled, Actor, NoneForgotten, HolderStalled;
    OneActor(s, e);
    var a := Actor(s, e);
    assert a.Some? ==> HoldsAsSaid(s, a.value, q);
    assert s.lock.ByCall? ==> HoldsAsSaid(s, s.lock.call, q);
    assert Wait(s, q).lock.ByCall? ==> HoldsAsSaid(s, Wait(s, q).lock.call, q);
    ForgottenBy(s, e, q);
  }

  lemma ForgottenBy(s: State, e: Event, q: Side)
    requires HolderStalled(s) && NoneForgotten(s, q) && Enabled(s, e)
    requires Actor(s, e).Some? ==> HoldsAsSaid(s, Actor(s, e).value, q)
    requires s.lock.ByCall? ==> HoldsAsSaid(s, s.lock.call, q)
    requires Wait(s, q).lock.ByCall? ==> HoldsAsSaid(s, Wait(s, q).lock.call, q)
    ensures NoneForgotten(Apply(s, e), q)
  {
    hide Apply, Enabled, NoneForgotten, HolderStalled;
    if e.Move? || e.Recheck? || e.EndWaking? || e.Park? || e.LockOther? || e.Decide? {
      SignalOrStalled(s, e, q);
    } else if e.Wake? || e.CloseWake? || e.CloseLock? || e.CloseUnlock? || e.CloseFlag? {
      StillComing(s, e, q);
    } else {
      StillComingToo(s, e, q);
    }
  }

  lemma SignalOrStalled(s: State, e: Event, q: Side)
    requires HolderStalled(s) && NoneForgotten(s, q) && Enabled(s, e)
    requires e.Move? || e.Recheck? || e.EndWaking? || e.Park? || e.LockOther? || e.Decide?
    requires HoldsAsSaid(s, e.i, q)
    requires s.lock.ByCall? ==> HoldsAsSaid(s, s.lock.call, q)
    requires Wait(s, q).lock.ByCall? ==> HoldsAsSaid(s, Wait(s, q).lock.call, q)
    ensures NoneForgotten(Apply(s, e), q)
  {
    hide Tagged;
  }

  lemma StillComing(s: State, e: Event, q: Side)
    requires NoneForgotten(s, q) && Enabled(s, e)
    requires e.Wake? || e.CloseWake? || e.CloseLock? || e.CloseUnlock? || e.CloseFlag?
    requires Actor(s, e).Some? ==> HoldsAsSaid(s, Actor(s, e).value, q)
    ensures NoneForgotten(Apply(s, e), q)
  {
  }

  lemma StillComingToo(s: State, e: Event, q: Side)
    requires NoneForgotten(s, q) && Enabled(s, e)
    requires e.Begin? || e.LockBuffer? || e.LockOwn? || e.Interrupt? || e.Schedule? || e.Resume? || e.Leave?
    requires !e.Begin? ==> HoldsAsSaid(s, e.i, q)
    ensures NoneForgotten(Apply(s, e), q)
  {
    if e.Leave? { WithoutMeans(Wait(s, s.calls[e.i].side).queue, e.i); }
    hide Without;
  }

  lemma ClosingStep(s: State, e: Event)
    requires QueueLock(s, Reader) && QueueLock(s, Writer) && Closing(s) && Enabled(s, e)
    ensures Closing(Apply(s, e))
  {
    PhaseStep(s, e);
    if Closed(s) && (Emptied(s, Reader) || e == CloseUnlock(Reader)) { EmptiedStep(s, e, Reader); }
    if Closed(s) && (Emptied(s, Writer) || e == CloseUnlock(Writer)) { EmptiedStep(s, e, Writer); }
    hide Apply, Enabled, QueueLock, Emptied;
  }

  /** An empty queue of a closed pipe stays empty. */
  lemma EmptiedStep(s: State, e: Event, q: Side)
    requires QueueLock(s, q) && Enabled(s, e) && Closed(s) && (Emptied(s, q) || e == CloseUnlock(q))
    ensures Emptied(Apply(s, e), q)
  {
    if e.Park? || e.Leave? || e.CloseUnlock? || e.Recheck? {
      if e.Park? { assert HoldsQueue(s.calls[e.i], q) <==> Wait(s, q).lock == ByCall(e.i); }
      assert e.Leave? ==> Without([], e.i) == [];
      hide QueueLock, Without;
    } else {
      StaysEmpty(s, e, q);
      hide Apply, Enabled, QueueLock;
    }
  }

  lemma StaysEmpty(s: State, e: Event, q: Side)
    requires Enabled(s, e) && Emptied(s, q) && !(e.Park? || e.Leave? || e.CloseUnlock? || e.Recheck?)
    ensures Emptied(Apply(s, e), q)
  {
    SameQueueOrPopped(s, e, q);
    hide Without;
  }

  lemma SameQueueOrPopped(s: State, e: Event, q: Side)
    requires Enabled(s, e) && !e.Park? && !e.Leave?
    ensures Wait(s, q).queue == [] ==> Wait(Apply(s, e), q).queue == []
  {
  }

  lemma PhaseStep(s: State, e: Event)
    requires Enabled(s, e)
    ensures var s' := Apply(s, e);
            || s'.close == s.close
            || (e.CloseFlag? && s'.close.Flagged?)
            || (e == CloseLock(Reader) && s.close.Flagged? && s'.close.WakingReaders?)
            || (e == CloseUnlock(Reader) && s'.close.ReadersWoken?)
            || (e == CloseLock(Writer) && s.close.ReadersWoken? && s'.close.WakingWriters?)
            || (e == CloseUnlock(Writer) && s.close.WakingWriters? && s'.close.Finished?)
  {
  }

  lemma {:induction false} OwnAppend(x: seq<(nat, Byte)>, i: nat, b: seq<Byte>, j: nat)
    ensures Own(x + Tagged(i, b), j) == Own(x, j) + if j == i then b else []
  {
    if b == [] {
      assert x + Tagged(i, b) == x;
    } else {
      var n := |b| - 1;
      OwnAppend(x, i, b[..n], j);
      assert (x + Tagged(i, b))[..|x| + n] == x + Tagged(i, b[..n]);
      assert b == b[..n] + [b[n]];
    }
  }

  lemma BytesAppend(x: seq<(nat, Byte)>, i: nat, b: seq<Byte>)
    ensures Bytes(x + Tagged(i, b)) == Bytes(x) + b
  {
  }

  lemma SameBytes(s: State, e: Event)
    requires Enabled(s, e) && !e.Move? && !e.Begin?
    ensures var s' := Apply(s, e);
            && s'.buffer == s.buffer && s'.cap == s.cap && s'.pushed == s.pushed && s'.drained == s.drained
            && |s'.calls| == |s.calls|
            && forall j :: 0 <= j < |s.calls| ==>
                 && s'.calls[j].buf == s.calls[j].buf && s'.calls[j].done == s.calls[j].done
                 && s'.calls[j].side == s.calls[j].side
  {
    OneActor(s, e);
    hide Without;
  }

  lemma ReadOwn(s: State, i: nat, j: nat)
    requires Streams(s) && CanMove(s, i) && j < |s.calls| && s.calls[i].side.Reader?
    ensures OwnBytes(Moved(s, i), j)
  {
    var c, n := s.calls[i], Movable(s, s.calls[i]);
    assert OwnBytes(s, j) && OwnBytes(s, i);
    hide Streams;
    OwnAppend(s.drained, i, s.buffer[..n], j);
    hide Own, Tagged;
    assert (c.buf[..c.done] + s.buffer[..n] + c.buf[c.done + n..])[..c.done + n] == c.buf[..c.done] + s.buffer[..n];
  }

  lemma WriteOwn(s: State, i: nat, j: nat)
    requires Streams(s) && CanMove(s, i) && j < |s.calls| && s.calls[i].side.Writer?
    ensures OwnBytes(Moved(s, i), j)
  {
    var c, n := s.calls[i], Movable(s, s.calls[i]);
    assert OwnBytes(s, j) && OwnBytes(s, i);
    hide Streams, Movable;
    OwnAppend(s.pushed, i, c.buf[c.done..c.done + n], j);
    hide Own, Tagged;
    if j == i { assert c.buf[..c.done + n] == c.buf[..c.done] + c.buf[c.done..c.done + n]; }
  }

  lemma StreamsStep(s: State, e: Event)
    requires Streams(s) && Enabled(s, e)
    ensures Streams(Apply(s, e))
  {
    if e.Begin? {
      var s' := Apply(s, e);
      forall j | 0 <= j < |s'.calls|
        ensures OwnBytes(s', j)
      {
        if j < |s.calls| { assert OwnBytes(s, j); }
      }
    } else if e.Move? {
      MoveStreams(s, e.i);
    } else {
      SameBytes(s, e);
      var s' := Apply(s, e);
      hide Apply, Enabled, Own;
      forall j | 0 <= j < |s'.calls|
        ensures OwnBytes(s', j)
      {
        assert OwnBytes(s, j);
      }
    }
  }

  lemma MoveFifo(s: State, i: nat)
    requires CanMove(s, i) && Bytes(s.drained) + s.buffer == Bytes(s.pushed)
    ensures var s' := Moved(s, i);
            |s'.buffer| <= s'.cap && Bytes(s'.drained) + s'.buffer == Bytes(s'.pushed)
  {
    var c, n := s.calls[i], Movable(s, s.calls[i]);
    if c.side.Reader? {
      BytesAppend(s.drained, i, s.buffer[..n]);
      assert s.buffer == s.buffer[..n] + s.buffer[n..];
    } else {
      BytesAppend(s.pushed, i, c.buf[c.done..c.done + n]);
    }
    hide Bytes, Tagged;
  }

  lemma MoveOwn(s: State, i: nat, j: nat)
    requires Streams(s) && CanMove(s, i)
    ensures var s' := Moved(s, i);
            if j < |s'.calls| then OwnBytes(s', j) else Own(s'.drained, j) == [] && Own(s'.pushed, j) == []
  {
    hide Own, Tagged, Bytes, OwnBytes, Streams;
    if j < |s.calls| {
      if s.calls[i].side.Reader? { ReadOwn(s, i, j); } else { WriteOwn(s, i, j); }
    } else {
      OthersOwn(s, i, j);
    }
  }

  lemma OthersOwn(s: State, i: nat, j: nat)
    requires Streams(s) && CanMove(s, i) && j >= |s.calls|
    ensures var s' := Moved(s, i); Own(s'.drained, j) == [] && Own(s'.pushed, j) == []
  {
    hide Own, Tagged, Bytes, OwnBytes;
    var c, n := s.calls[i], Movable(s, s.calls[i]);
    if c.side.Reader? {
      OwnAppend(s.drained, i, s.buffer[..n], j);
    } else {
      OwnAppend(s.pushed, i, c.buf[c.done..c.done + n], j);
    }
  }

  lemma MoveStreams(s: State, i: nat)
    requires Streams(s) && CanMove(s, i)
    ensures Streams(Moved(s, i))
  {
    MoveFifo(s, i);
    var s' := Moved(s, i);
    forall j: nat
      ensures if j < |s'.calls| then OwnBytes(s', j) else Own(s'.drained, j) == [] && Own(s'.pushed, j) == []
    {
      MoveOwn(s, i, j);
    }
    hide Own, Tagged, Bytes, Moved, OwnBytes;
  }

  // ---------------------------------------------------------------- what holds in every run

  lemma InvStep(s: State, e: Event)
    requires Inv(s) && Enabled(s, e)
    ensures Inv(Apply(s, e))
  {
    hide Apply, Enabled, Streams, BufferLock, QueueLock, QueueOk, NoneForgotten, HolderStalled, Closing;
    StreamsStep(s, e);
    BufferLockStep(s, e);
    QueueLockStep(s, e, Reader);
    QueueLockStep(s, e, Writer);
    QueueStep(s, e, Reader);
    QueueStep(s, e, Writer);
    ForgottenStep(s, e, Reader);
    ForgottenStep(s, e, Writer);
    HolderStep(s, e);
    ClosingStep(s, e);
  }

  /** Every state of every run keeps the invariant. */
  lemma {:induction false} InvInRuns(cap: nat, events: seq<Event>)
    requires Run(Init(cap), events).Some?
    ensures Inv(Run(Init(cap), events).value) && Run(Init(cap), events).value.cap == cap
  {
    if events != [] {
      var x, e := Run(Init(cap), events[..|events| - 1]).value, events[|events| - 1];
      InvInRuns(cap, events[..|events| - 1]);
      InvStep(x, e);
      SameCapacity(x, e);
      hide Apply, Enabled, Inv;
    }
  }

  lemma SameCapacity(s: State, e: Event)
    requires Enabled(s, e)
    ensures Apply(s, e).cap == s.cap
  {
  }

  /** No lost wakeup: whenever the buffer lock is free, a blocked call is in its queue and could
      move no byte; with room for one byte, readers and writers are never blocked on each other. */
  lemma NoLostWakeup(cap: nat, events: seq<Event>, i: nat, j: nat)
    requires Run(Init(cap), events).Some?
    requires var s := Run(Init(cap), events).value;
             s.lock.Free? && At(s, i, Parked)
    ensures var s := Run(Init(cap), events).value;
            && i in Wait(s, s.calls[i].side).queue && Stalled(s, s.calls[i].side)
            && (cap > 0 && At(s, j, Parked) ==> s.calls[j].side == s.calls[i].side)
  {
    InvInRuns(cap, events);
    var s := Run(Init(cap), events).value;
    ParkedIsQueued(s, i);
    ParkedIsQueued(s, j);
    hide Run, Streams, Locks, QueueOk, Closing, HolderStalled;
  }

  /** The bytes drained and the bytes in the buffer are the bytes pushed, in order; the buffer
      never exceeds its capacity; each call moved exactly the filled part of its buffer. */
  lemma FirstInFirstOut(cap: nat, events: seq<Event>, i: nat)
    requires Run(Init(cap), events).Some?
    ensures var s := Run(Init(cap), events).value;
            && |s.buffer| <= cap && Bytes(s.drained) + s.buffer == Bytes(s.pushed)
            && (i < |s.calls| ==>
                  && s.calls[i].done <= |s.calls[i].buf|
                  && Own(if s.calls[i].side.Reader? then s.drained else s.pushed, i) ==
                       s.calls[i].buf[..s.calls[i].done])
  {
    InvInRuns(cap, events);
    var s := Run(Init(cap), events).value;
    hide Run, Protocol;
    if i < |s.calls| { assert OwnBytes(s, i); }
  }

  /** End of file: a read that succeeds short finds the pipe closed and every pushed byte drained;
      a write that succeeds short finds it closed and full. */
  lemma ShortCall(cap: nat, events: seq<Event>, e: Event, i: nat)
    requires Run(Init(cap), events + [e]).Some?
    requires Run(Init(cap), events).Some?
    requires var s, s' := Run(Init(cap), events).value, Run(Init(cap), events + [e]).value;
             At(s', i, Returned(true)) && !At(s, i, Returned(true)) && s'.calls[i].done < |s'.calls[i].buf|
    ensures var s' := Run(Init(cap), events + [e]).value;
            && Closed(s')
            && (if s'.calls[i].side.Reader? then Bytes(s'.drained) == Bytes(s'.pushed) else |s'.buffer| == cap)
  {
    assert (events + [e])[..|events|] == events;
    InvInRuns(cap, events);
    var s := Run(Init(cap), events).value;
    assert Run(Init(cap), events + [e]) == Some(Apply(s, e)) && Enabled(s, e);
    hide Run;
    Returning(s, e, i);
  }

  lemma Returning(s: State, e: Event, i: nat)
    requires Inv(s) && Enabled(s, e)
    requires var s' := Apply(s, e);
             At(s', i, Returned(true)) && !At(s, i, Returned(true)) && s'.calls[i].done < |s'.calls[i].buf|
    ensures var s' := Apply(s, e);
            Closed(s') && Stalled(s', s'.calls[i].side) && s'.drained == s.drained && s'.pushed == s.pushed
                && s'.cap == s.cap
    ensures var s' := Apply(s, e);
            s'.calls[i].side.Reader? ==> Bytes(s'.drained) == Bytes(s'.pushed)
  {
    OnlyDeciding(s, e, i);
    assert HoldsBuffer(s.calls[i]) <==> s.lock == ByCall(i);
    assert Bytes(s.drained) + s.buffer == Bytes(s.pushed);
    hide Locks, QueueOk, Streams, Closing, NoneForgotten;
  }

  lemma OnlyDeciding(s: State, e: Event, i: nat)
    requires Enabled(s, e) && At(Apply(s, e), i, Returned(true)) && !At(s, i, Returned(true))
    ensures (e == Decide(i) && At(s, i, Deciding)) || (e == Recheck(i) && At(s, i, Checking))
  {
  }

  /** Once the closing has finished, both queues are empty and no call is blocked, and the closing
      stays finished. */
  lemma ClosedForGood(cap: nat, events: seq<Event>, e: Event, i: nat)
    requires Run(Init(cap), events).Some? && Run(Init(cap), events).value.close.Finished?
    ensures var s := Run(Init(cap), events).value;
            && s.r.queue == [] && s.w.queue == [] && !At(s, i, Parked)
            && (Enabled(s, e) ==> Apply(s, e).close.Finished?)
  {
    InvInRuns(cap, events);
    var s := Run(Init(cap), events).value;
    if Enabled(s, e) { PhaseStep(s, e); }
    ParkedIsQueued(s, i);
    hide Run, Streams, Locks, QueueOk, HolderStalled, NoneForgotten, Apply, Enabled;
  }

  lemma ParkedIsQueued(s: State, i: nat)
    requires QueueOk(s, Reader) && QueueOk(s, Writer)
    ensures At(s, i, Parked) ==> i in Wait(s, s.calls[i].side).queue
  {
  }

  // ---------------------------------------------------------------- progress and deadlock

  /** Steps of the calls and of the closing, as opposed to what comes from outside. */
  predicate Internal(e: Event) { !e.Begin? && !e.Interrupt? && !e.CloseFlag? }

  ghost predicate CanStep(s: State) { exists e :: Internal(e) && Enabled(s, e) }

  /** Something is under way. */
  predicate Busy(s: State, i: nat) {
    || (i < |s.calls| && !s.calls[i].pc.Parked? && !s.calls[i].pc.Returned?)
    || (Closed(s) && !s.close.Finished?)
  }

  /** The holder of a queue's lock is to wake a task that holds its own lock and waits for the
      lock of that very queue. */
  predicate Crossed(s: State, q: Side) {
    && Wait(s, q).queue != [] && At(s, Wait(s, q).queue[0], Leaving)
    && (s.close == WakingPhase(q) || (Wait(s, q).lock.ByCall? && At(s, Wait(s, q).lock.call, Waking)))
  }

  /** A lock of a queue that is taken will be given back: by the call that parks, or by the one or
      the closing that wakes the queue, unless they are crossed. */
  lemma QueueProgress(s: State, q: Side)
    requires Locks(s) && QueueOk(s, q) && !Wait(s, q).lock.Free?
    requires s.lock.ByCall? ==> !At(s, s.lock.call, Checking)
    ensures CanStep(s) || Crossed(s, q)
  {
    var x := Wait(s, q);
    if x.lock.ByCall? {
      assert HoldsQueue(s.calls[x.lock.call], q);
      var c := s.calls[x.lock.call];
      assert HoldsBuffer(c) <==> s.lock == ByCall(x.lock.call);
      if c.pc.Parking? {
        assert Internal(Park(x.lock.call)) && Enabled(s, Park(x.lock.call));
      } else {
        WakingProgress(s, q, EndWaking(x.lock.call), Wake(x.lock.call));
      }
    } else {
      WakingProgress(s, q, CloseUnlock(q), CloseWake(q));
    }
  }

  lemma WakingProgress(s: State, q: Side, end: Event, wake: Event)
    requires QueueOk(s, q) && Internal(end) && Internal(wake)
    requires (s.close == WakingPhase(q) && end == CloseUnlock(q) && wake == CloseWake(q)) ||
             (Wait(s, q).lock.ByCall? && At(s, Wait(s, q).lock.call, Waking)
                 && s.calls[Wait(s, q).lock.call].side == Other(q) &&
              end == EndWaking(Wait(s, q).lock.call) && wake == Wake(Wait(s, q).lock.call))
    ensures CanStep(s) || Crossed(s, q)
  {
    var x := Wait(s, q).queue;
    if x == [] {
      assert Enabled(s, end);
    } else {
      assert Queued(s.calls[x[0]], q);
      if s.calls[x[0]].pc.Resumed? {
        assert Internal(Resume(x[0])) && Enabled(s, Resume(x[0]));
      } else if !s.calls[x[0]].pc.Leaving? {
        assert Enabled(s, wake);
      }
    }
  }

  /** The call that holds the buffer lock moves on. */
  lemma HolderProgress(s: State)
    requires Inv(s) && s.lock.ByCall?
    ensures CanStep(s) || Crossed(s, Reader) || Crossed(s, Writer)
  {
    var i := s.lock.call;
    var c := s.calls[i];
    assert HoldsBuffer(c) && OwnBytes(s, i);
    if At(s, i, Checking) {
      assert Internal(Recheck(i)) && Enabled(s, Recheck(i));
    } else if c.pc.Signalling? && !Wait(s, Other(c.side)).lock.Free? {
      QueueProgress(s, Other(c.side));
    } else if c.pc.Queueing? && !Wait(s, c.side).lock.Free? {
      QueueProgress(s, c.side);
    } else if c.pc.Waking? {
      assert HoldsQueue(c, Other(c.side)) <==> Wait(s, Other(c.side)).lock == ByCall(i);
      QueueProgress(s, Other(c.side));
    } else {
      var e := match c.pc
        case Moving => Move(i)
        case Signalling => LockOther(i)
        case Deciding => Decide(i)
        case _ => LockOwn(i);
      assert Internal(e) && Enabled(s, e);
    }
  }

  /** Progress: while a call or the closing is under way, some step of theirs is enabled, or the
      holder of a queue's lock and a task that leaves the queue wait for each other. */
  lemma Progress(cap: nat, events: seq<Event>, i: nat)
    requires Run(Init(cap), events).Some? && Busy(Run(Init(cap), events).value, i)
    ensures var s := Run(Init(cap), events).value;
            CanStep(s) || Crossed(s, Reader) || Crossed(s, Writer)
  {
    InvInRuns(cap, events);
    var s := Run(Init(cap), events).value;
    hide Run;
    if s.lock.ByCall? {
      HolderProgress(s);
    } else if !s.r.lock.Free? {
      QueueProgress(s, Reader);
    } else if !s.w.lock.Free? {
      QueueProgress(s, Writer);
    } else {
      FreeProgress(s, i);
    }
  }

  lemma FreeProgress(s: State, i: nat)
    requires Locks(s) && s.lock.Free? && s.r.lock.Free? && s.w.lock.Free? && Busy(s, i)
    ensures CanStep(s)
  {
    if i < |s.calls| && !s.calls[i].pc.Parked? && !s.calls[i].pc.Returned? {
      var c := s.calls[i];
      assert !HoldsBuffer(c) && !HoldsQueue(c, c.side);
      var e := match c.pc
        case Start => LockBuffer(i)
        case Woken => Schedule(i)
        case Resumed => Resume(i)
        case _ => Leave(i);
      assert Internal(e) && Enabled(s, e);
    } else {
      var e := if s.close.Flagged? then CloseLock(Reader) else CloseLock(Writer);
      assert Internal(e) && Enabled(s, e);
    }
  }

  /** Two that are crossed stay so for ever, and it takes a signal to cross them. */
  lemma CrossedForGood(s: State, e: Event, q: Side)
    requires Inv(s) && Enabled(s, e) && Crossed(s, q)
    ensures Crossed(Apply(s, e), q) && Wait(Apply(s, e), q) == Wait(s, q)
    ensures s.calls[Wait(s, q).queue[0]].interrupted
  {
    var t := Wait(s, q).queue[0];
    assert Queued(s.calls[t], q);
    var i := if e.LockOther? || e.EndWaking? || e.LockOwn? || e.Recheck? || e.Park? || e.Wake? then e.i else t;
    assert HoldsQueue(s.calls[i], q) <==> Wait(s, q).lock == ByCall(i);
    if Wait(s, q).lock.ByCall? { assert HoldsQueue(s.calls[Wait(s, q).lock.call], q); }
    assert !Wait(s, q).lock.Free?;
    hide Inv, Without;
    if e.LockOther? || e.EndWaking? || e.LockOwn? || e.Recheck? || e.Park? || e.Wake? {
      StaysCrossed(s, e, q);
    } else if e.Begin? || e.CloseFlag? || e.CloseLock? || e.CloseWake? || e.CloseUnlock? {
      StaysCrossedBy(s, e, q);
    } else if e.LockBuffer? || e.Move? || e.Decide? {
      StaysCrossedWith(s, e, q);
    } else {
      StaysCrossedToo(s, e, q);
    }
  }

  lemma StaysCrossed(s: State, e: Event, q: Side)
    requires Enabled(s, e) && Crossed(s, q) && !Wait(s, q).lock.Free?
    requires e.LockOther? || e.EndWaking? || e.LockOwn? || e.Recheck? || e.Park? || e.Wake?
    requires HoldsQueue(s.calls[e.i], q) <==> Wait(s, q).lock == ByCall(e.i)
    requires s.calls[Wait(s, q).queue[0]].side == q
    requires Wait(s, q).lock.ByCloser? <==> s.close == WakingPhase(q)
    ensures Crossed(Apply(s, e), q) && Wait(Apply(s, e), q) == Wait(s, q)
  {
  }

  lemma StaysCrossedBy(s: State, e: Event, q: Side)
    requires Enabled(s, e) && Crossed(s, q) && !Wait(s, q).lock.Free?
    requires e.Begin? || e.CloseFlag? || e.CloseLock? || e.CloseWake? || e.CloseUnlock?
    requires s.calls[Wait(s, q).queue[0]].side == q
    ensures Crossed(Apply(s, e), q) && Wait(Apply(s, e), q) == Wait(s, q)
  {
  }

  lemma StaysCrossedWith(s: State, e: Event, q: Side)
    requires Enabled(s, e) && Crossed(s, q) && (e.LockBuffer? || e.Move? || e.Decide?)
    requires s.calls[Wait(s, q).queue[0]].side == q
    ensures Crossed(Apply(s, e), q) && Wait(Apply(s, e), q) == Wait(s, q)
  {
    hide Tagged;
  }

  lemma StaysCrossedToo(s: State, e: Event, q: Side)
    requires Enabled(s, e) && Crossed(s, q) && !Wait(s, q).lock.Free?
    requires e.Interrupt? || e.Schedule? || e.Resume? || e.Leave?
    requires s.calls[Wait(s, q).queue[0]].side == q
    ensures Crossed(Apply(s, e), q) && Wait(Apply(s, e), q) == Wait(s, q)
  {
    hide Without;
  }

  /** A call is interrupted just when a signal was sent to it. */
  lemma {:induction false} InterruptedBySignal(cap: nat, events: seq<Event>, i: nat)
    requires Run(Init(cap), events).Some? && i < |Run(Init(cap), events).value.calls|
    ensures Run(Init(cap), events).value.calls[i].interrupted <==> Interrupt(i) in events
    decreases |events|
  {
    if events != [] {
      var init, e := events[..|events| - 1], events[|events| - 1];
      assert events == init + [e];
      var s := Run(Init(cap), init).value;
      FlagStep(s, e, i);
      if i < |s.calls| { InterruptedBySignal(cap, init, i); } else { NotYetBegun(cap, init, i); }
    }
  }

  lemma FlagStep(s: State, e: Event, i: nat)
    requires Enabled(s, e) && i < |Apply(s, e).calls|
    ensures if i < |s.calls| then Apply(s, e).calls[i].interrupted == (s.calls[i].interrupted || e == Interrupt(i))
            else !Apply(s, e).calls[i].interrupted && e.Begin?
  {
  }

  lemma {:induction false} NotYetBegun(cap: nat, events: seq<Event>, i: nat)
    requires Run(Init(cap), events).Some? && i >= |Run(Init(cap), events).value.calls|
    ensures Interrupt(i) !in events
    decreases |events|
  {
    if events != [] {
      var init, e := events[..|events| - 1], events[|events| - 1];
      assert events == init + [e];
      CallsGrow(Run(Init(cap), init).value, e);
      NotYetBegun(cap, init, i);
    }
  }

  lemma CallsGrow(s: State, e: Event)
    requires Enabled(s, e)
    ensures |s.calls| <= |Apply(s, e).calls|
  {
  }

  /** A run that crosses two of them has sent a signal to the one that leaves the queue. */
  lemma CrossedBySignal(cap: nat, events: seq<Event>, q: Side)
    requires Run(Init(cap), events).Some? && Crossed(Run(Init(cap), events).value, q)
    ensures Interrupt(Wait(Run(Init(cap), events).value, q).queue[0]) in events
  {
    InvInRuns(cap, events);
    var s := Run(Init(cap), events).value;
    assert Queued(s.calls[Wait(s, q).queue[0]], q);
    InterruptedBySignal(cap, events, Wait(s, q).queue[0]);
  }

  /** Without signals there is no deadlock: while a call or the closing is under way, some step of
      theirs is enabled. */
  lemma ProgressWithoutSignals(cap: nat, events: seq<Event>, i: nat)
    requires Run(Init(cap), events).Some? && Busy(Run(Init(cap), events).value, i)
    requires forall j :: Interrupt(j) !in events
    ensures CanStep(Run(Init(cap), events).value)
  {
    Progress(cap, events, i);
    var s := Run(Init(cap), events).value;
    if Crossed(s, Reader) { CrossedBySignal(cap, events, Reader); }
    if Crossed(s, Writer) { CrossedBySignal(cap, events, Writer); }
  }

  lemma Go(events: seq<Event>, s: State, e: Event, s': State) returns (more: seq<Event>)
    requires Run(Init(1), events) == Some(s) && Enabled(s, e) && Apply(s, e) == s'
    ensures Run(Init(1), more) == Some(s')
  {
    more := events + [e];
    assert more[..|events|] == events;
  }

  /** A pipe for one byte with one reader that has read nothing. */
  function OneReader(pc: Pc, lock: Holder, r: WaitQueue): State {
    State(1, [], lock, r, WaitQueue(Free, []), Open, [Call(Reader, [0], 0, pc, false)], [], [])
  }

  lemma ReaderParks() returns (t: seq<Event>)
    ensures Run(Init(1), t) == Some(OneReader(Parked, Free, WaitQueue(Free, [0])))
  {
    var r := WaitQueue(Free, []);
    assert Run(Init(1), []) == Some(Init(1));
    hide Run;
    t := Go([], Init(1), Begin(Reader, [0]), OneReader(Start, Free, r));
    t := Go(t, OneReader(Start, Free, r), LockBuffer(0), OneReader(Moving, ByCall(0), r));
    NothingToRead(r);
    t := Go(t, OneReader(Moving, ByCall(0), r), Move(0), OneReader(Deciding, ByCall(0), r));
    t := Queues(t);
  }

  lemma NothingToRead(r: WaitQueue)
    ensures var s := OneReader(Moving, ByCall(0), r);
            CanMove(s, 0) && Moved(s, 0) == OneReader(Deciding, ByCall(0), r)
  {
    assert [][..0] + [][..0] + [0][0..] == [0];
  }

  lemma Queues(a: seq<Event>) returns (t: seq<Event>)
    requires Run(Init(1), a) == Some(OneReader(Deciding, ByCall(0), WaitQueue(Free, [])))
    ensures Run(Init(1), t) == Some(OneReader(Parked, Free, WaitQueue(Free, [0])))
  {
    hide Run;
    var r := WaitQueue(Free, []);
    t := Go(a, OneReader(Deciding, ByCall(0), r), Decide(0), OneReader(Queueing, ByCall(0), r));
    t := Go(t, OneReader(Queueing, ByCall(0), r), LockOwn(0), OneReader(Checking, ByCall(0), r.(lock := ByCall(0))));
    t := Go(t, OneReader(Checking, ByCall(0), r.(lock := ByCall(0))), Recheck(0),
        OneReader(Parking, Free, r.(lock := ByCall(0))));
    t := Go(t, OneReader(Parking, Free, r.(lock := ByCall(0))), Park(0), OneReader(Parked, Free, WaitQueue(Free, [0])));
  }

  /** That reader blocked or on its way out, and a writer of one byte. */
  function TwoCalls(c: Call, pc: Pc, written: seq<Byte>, lock: Holder, rlock: Holder): State {
    State(1, written, lock, WaitQueue(rlock, [0]), WaitQueue(Free, []), Open,
          [c, Call(Writer, [7], |written|, pc, false)], Tagged(1, written), [])
  }

  /** The deadlock is reachable: a blocked reader gets a signal and runs while a writer is about
      to wake it. */
  lemma CrossedReachable() returns (t: seq<Event>)
    ensures Run(Init(1), t).Some? && Crossed(Run(Init(1), t).value, Reader)
  {
    t := ReaderParks();
    hide Run;
    var c := Call(Reader, [0], 0, Parked, false);
    t := Go(t, OneReader(Parked, Free, WaitQueue(Free, [0])), Begin(Writer, [7]), TwoCalls(c, Start, [], Free, Free));
    t := WriterWrites(t);
    t := ReaderLeaves(t);
  }

  lemma WriterWrites(a: seq<Event>) returns (t: seq<Event>)
    requires Run(Init(1), a) == Some(TwoCalls(Call(Reader, [0], 0, Parked, false), Start, [], Free, Free))
    ensures Run(Init(1), t) == Some(TwoCalls(Call(Reader, [0], 0, Parked, false), Waking, [7], ByCall(1), ByCall(1)))
  {
    hide Run;
    var c := Call(Reader, [0], 0, Parked, false);
    t := Go(a, TwoCalls(c, Start, [], Free, Free), LockBuffer(1), TwoCalls(c, Moving, [], ByCall(1), Free));
    t := Go(t, TwoCalls(c, Moving, [], ByCall(1), Free), Move(1), TwoCalls(c, Signalling, [7], ByCall(1), Free));
    t := Go(t, TwoCalls(c, Signalling, [7], ByCall(1), Free), LockOther(1),
        TwoCalls(c, Waking, [7], ByCall(1), ByCall(1)));
  }

  lemma ReaderLeaves(a: seq<Event>) returns (t: seq<Event>)
    requires Run(Init(1), a) == Some(TwoCalls(Call(Reader, [0], 0, Parked, false), Waking, [7], ByCall(1), ByCall(1)))
    ensures Run(Init(1), t) == Some(TwoCalls(Call(Reader, [0], 0, Leaving, true), Waking, [7], ByCall(1), ByCall(1)))
  {
    hide Run, Tagged;
    var c := Call(Reader, [0], 0, Parked, false);
    var c' := c.(interrupted := true);
    t := Go(a, TwoCalls(c, Waking, [7], ByCall(1), ByCall(1)), Interrupt(0),
        TwoCalls(c'.(pc := Woken), Waking, [7], ByCall(1), ByCall(1)));
    t := Go(t, TwoCalls(c'.(pc := Woken), Waking, [7], ByCall(1), ByCall(1)), Schedule(0),
        TwoCalls(c'.(pc := Resumed), Waking, [7], ByCall(1), ByCall(1)));
    t := Go(t, TwoCalls(c'.(pc := Resumed), Waking, [7], ByCall(1), ByCall(1)), Resume(0),
        TwoCalls(c'.(pc := Leaving), Waking, [7], ByCall(1), ByCall(1)));
  }
}
