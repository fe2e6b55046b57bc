/** What the callers of a pipe are told: a call that a signal interrupts returns an error, also when it
    has moved bytes, and nobody learns how many. */
module PipeCounts {
  import opened Arithmetic
  import opened Pipe
  import opened Wrappers

  // ---------------------------------------------------------------- interrupted calls

  /** The call has gone to wait, and has not looked for bytes since. */
  predicate Waiting(pc: Pc) {
    pc.Parking? || pc.Parked? || pc.Woken? || pc.Resumed? || pc.Leaving? || pc == Returned(false)
  }

  predicate WaitsOk(c: Call) {
    && (Waiting(c.pc) ==> c.done < |c.buf|)
    && (c.pc.Leaving? || c.pc == Returned(false) ==> c.interrupted)
  }

  ghost predicate AllWaitOk(s: State) { forall i :: 0 <= i < |s.calls| ==> WaitsOk(s.calls[i]) }

  lemma WaitStep(s: State, e: Event)
    requires Inv(s) && AllWaitOk(s) && Enabled(s, e)
    ensures AllWaitOk(Apply(s, e))
  {
    hide Inv, Apply, Enabled, Actor, WaitsOk;
    OneActor(s, e);
    forall i | 0 <= i < |Apply(s, e).calls|
      ensures WaitsOk(Apply(s, e).calls[i])
    {
      if Actor(s, e) == Some(i) {
        ActorWaits(s, e, i);
      } else if i == |s.calls| {
        NewCallWaits(s, e);
      }
    }
  }

  lemma NewCallWaits(s: State, e: Event)
    requires Enabled(s, e) && e.Begin?
    ensures |Apply(s, e).calls| == |s.calls| + 1 && WaitsOk(Apply(s, e).calls[|s.calls|])
  {
  }

  /** A call that is about to wait is not done. */
  lemma StillToMove(s: State, i: nat)
    requires Inv(s) && At(s, i, Checking)
    ensures s.calls[i].done < |s.calls[i].buf|
  {
    assert OwnBytes(s, i);
    assert HoldsBuffer(s.calls[i]) <==> s.lock == ByCall(i);
    hide Own, Bytes, QueueLock, QueueOk, NoneForgotten, Closing;
  }

  lemma ActorWaits(s: State, e: Event, i: nat)
    requires Inv(s) && Enabled(s, e) && Actor(s, e) == Some(i) && i < |s.calls| && WaitsOk(s.calls[i])
    ensures i < |Apply(s, e).calls| && WaitsOk(Apply(s, e).calls[i])
  {
    hide Inv, Apply, WaitsOk;
    if e.Move? {
      MoverWaits(s, i);
    } else if e.Wake? || e.CloseWake? {
      PoppedWaits(s, if e.Wake? then Other(s.calls[e.i].side) else e.q);
    } else if e.Recheck? || e.Leave? || e.Interrupt? || e.Resume? {
      if e.Recheck? { StillToMove(s, i); }
      StepperWaits(s, e);
    } else {
      LockerWaits(s, e);
    }
  }

  lemma MoverWaits(s: State, i: nat)
    requires CanMove(s, i)
    ensures |Moved(s, i).calls| == |s.calls| && WaitsOk(Moved(s, i).calls[i])
    ensures Apply(s, Move(i)) == Moved(s, i)
  {
  }

  lemma PoppedWaits(s: State, q: Side)
    requires CanWake(s, q) && WaitsOk(s.calls[Wait(s, q).queue[0]])
    ensures |Popped(s, q).calls| == |s.calls| && WaitsOk(Popped(s, q).calls[Wait(s, q).queue[0]])
    ensures forall i: nat :: Enabled(s, Wake(i)) && Other(s.calls[i].side) == q ==> Apply(s, Wake(i)) == Popped(s, q)
    ensures Enabled(s, CloseWake(q)) ==> Apply(s, CloseWake(q)) == Popped(s, q)
  {
    hide Without;
  }

  lemma StepperWaits(s: State, e: Event)
    requires Enabled(s, e) && (e.Recheck? || e.Leave? || e.Interrupt? || e.Resume?) && WaitsOk(s.calls[e.i])
    requires e.Recheck? ==> s.calls[e.i].done < |s.calls[e.i].buf|
    ensures |Apply(s, e).calls| == |s.calls| && WaitsOk(Apply(s, e).calls[e.i])
  {
    hide Without;
  }

  lemma LockerWaits(s: State, e: Event)
    requires e.LockBuffer? || e.LockOther? || e.EndWaking? || e.Decide? || e.LockOwn? || e.Park? || e.Schedule?
    requires Enabled(s, e) && WaitsOk(s.calls[e.i])
    ensures |Apply(s, e).calls| == |s.calls| && WaitsOk(Apply(s, e).calls[e.i])
  {
  }

  lemma {:induction false} WaitsInRuns(cap: nat, events: seq<Event>)
    requires Run(Init(cap), events).Some?
    ensures AllWaitOk(Run(Init(cap), events).value)
  {
    if events != [] {
      var init, e := events[..|events| - 1], events[|events| - 1];
      WaitsInRuns(cap, init);
      InvInRuns(cap, init);
      WaitStep(Run(Init(cap), init).value, e);
      hide Apply, Enabled, Inv, AllWaitOk;
    }
  }

  /** A call fails only when it was sent a signal and before it is done; what it had moved until then
      has gone through the pipe all the same. */
  lemma FailedCall(cap: nat, events: seq<Event>, i: nat)
    requires Run(Init(cap), events).Some? && At(Run(Init(cap), events).value, i, Returned(false))
    ensures var s := Run(Init(cap), events).value;
            && Interrupt(i) in events && s.calls[i].done < |s.calls[i].buf|
            && Own(if s.calls[i].side.Reader? then s.drained else s.pushed, i) == s.calls[i].buf[..s.calls[i].done]
  {
    WaitsInRuns(cap, events);
    InterruptedBySignal(cap, events, i);
    FirstInFirstOut(cap, events, i);
    var s := Run(Init(cap), events).value;
    hide Run, Own, Bytes;
    assert WaitsOk(s.calls[i]);
  }

  // ---------------------------------------------------------------- counts

  /** The bytes that went through on one side. */
  function Stream(s: State, q: Side): seq<(nat, Byte)> { if q.Reader? then s.drained else s.pushed }

  /** What each call of side `q` has moved. */
  function Counts(calls: seq<Call>, q: Side): seq<nat> {
    seq(|calls|, i requires 0 <= i < |calls| => if calls[i].side == q then calls[i].done else 0)
  }

  /** What each call of side `q` that has returned with this outcome had moved. */
  function CountsOf(calls: seq<Call>, q: Side, ok: bool): seq<nat> {
    seq(|calls|, i requires 0 <= i < |calls| =>
      if calls[i].side == q && calls[i].pc == Returned(ok) then calls[i].done else 0)
  }

  ghost predicate Counted(s: State) {
    forall q :: |Stream(s, q)| == Total(Counts(s.calls, q))
  }

  lemma CountStep(s: State, e: Event)
    requires Counted(s) && Enabled(s, e)
    ensures Counted(Apply(s, e))
  {
    forall q
      ensures |Stream(Apply(s, e), q)| == Total(Counts(Apply(s, e).calls, q))
    {
      hide Apply, Enabled, Total, Counts, Stream;
      if e.Move? {
        MoveCounts(s, e.i, q);
      } else if e.Begin? {
        BeginCounts(s, e, q);
      } else {
        SameCounts(s, e, q);
      }
    }
  }

  lemma MoveCounts(s: State, i: nat, q: Side)
    requires Enabled(s, Move(i)) && |Stream(s, q)| == Total(Counts(s.calls, q))
    ensures |Stream(Apply(s, Move(i)), q)| == Total(Counts(Apply(s, Move(i)).calls, q))
  {
    var c, n := s.calls[i], Movable(s, s.calls[i]);
    hide Total;
    if c.side == q {
      TotalUpdate(Counts(s.calls, q), i, c.done + n);
      assert Counts(Moved(s, i).calls, q) == Counts(s.calls, q)[i := c.done + n];
    } else {
      assert Counts(Moved(s, i).calls, q) == Counts(s.calls, q);
    }
  }

  lemma BeginCounts(s: State, e: Event, q: Side)
    requires e.Begin? && |Stream(s, q)| == Total(Counts(s.calls, q))
    ensures |Stream(Apply(s, e), q)| == Total(Counts(Apply(s, e).calls, q))
  {
    TotalAppend(Counts(s.calls, q), 0);
    assert Counts(Apply(s, e).calls, q) == Counts(s.calls, q) + [0];
  }

  lemma SameCounts(s: State, e: Event, q: Side)
    requires Enabled(s, e) && !e.Move? && !e.Begin? && |Stream(s, q)| == Total(Counts(s.calls, q))
    ensures |Stream(Apply(s, e), q)| == Total(Counts(Apply(s, e).calls, q))
  {
    hide Apply, Enabled, Total;
    SameBytes(s, e);
    assert Counts(Apply(s, e).calls, q) == Counts(s.calls, q);
  }

  /** In every run the bytes on each side are those that the calls of that side have counted. */
  lemma {:induction false} CountsInRuns(cap: nat, events: seq<Event>)
    requires Run(Init(cap), events).Some?
    ensures Counted(Run(Init(cap), events).value)
  {
    if events == [] {
      assert forall q :: Counts(Init(cap).calls, q) == [];
    } else {
      var init, e := events[..|events| - 1], events[|events| - 1];
      CountsInRuns(cap, init);
      CountStep(Run(Init(cap), init).value, e);
      hide Apply, Enabled, Counted;
    }
  }

  lemma {:induction false} TotalSum(a: seq<nat>, b: seq<nat>, c: seq<nat>)
    requires |a| == |b| == |c| && forall i :: 0 <= i < |c| ==> c[i] == a[i] + b[i]
    ensures Total(c) == Total(a) + Total(b)
  {
    if c != [] { TotalSum(a[1..], b[1..], c[1..]); }
  }

  lemma {:induction false} TotalNone(s: seq<nat>)
    ensures Total(s) == 0 <==> forall i :: 0 <= i < |s| ==> s[i] == 0
  {
    if s != [] {
      TotalNone(s[1..]);
      assert s == [s[0]] + s[1..];
    }
  }

  lemma ToldIn(s: State, q: Side)
    requires Counted(s) && forall i :: 0 <= i < |s.calls| && s.calls[i].side == q ==> s.calls[i].pc.Returned?
    ensures |Stream(s, q)| == Total(CountsOf(s.calls, q, true)) + Total(CountsOf(s.calls, q, false))
    ensures |Stream(s, q)| == Total(CountsOf(s.calls, q, true)) <==>
            forall i :: 0 <= i < |s.calls| && s.calls[i].side == q && s.calls[i].pc == Returned(false) ==>
              s.calls[i].done == 0
  {
    hide Total;
    var told, lost := CountsOf(s.calls, q, true), CountsOf(s.calls, q, false);
    TotalSum(told, lost, Counts(s.calls, q));
    TotalNone(lost);
    assert forall i :: 0 <= i < |s.calls| ==>
      (lost[i] == 0 <==> s.calls[i].side == q && s.calls[i].pc == Returned(false) ==> s.calls[i].done == 0);
  }

  /** When the calls of a side have all returned, what they told their callers is less than what went
      through by just what the failed calls had moved; so it is all of it exactly when these had moved
      nothing. */
  lemma ToldCounts(cap: nat, events: seq<Event>, q: Side)
    requires Run(Init(cap), events).Some?
    requires var s := Run(Init(cap), events).value;
             forall i :: 0 <= i < |s.calls| && s.calls[i].side == q ==> s.calls[i].pc.Returned?
    ensures var s := Run(Init(cap), events).value;
            && |Stream(s, q)| == Total(CountsOf(s.calls, q, true)) + Total(CountsOf(s.calls, q, false))
            && (|Stream(s, q)| == Total(CountsOf(s.calls, q, true)) <==>
                  forall i :: 0 <= i < |s.calls| && s.calls[i].side == q && s.calls[i].pc == Returned(false) ==>
                    s.calls[i].done == 0)
  {
    hide Run;
    CountsInRuns(cap, events);
    ToldIn(Run(Init(cap), events).value, q);
  }

  // ---------------------------------------------------------------- a write whose count is lost

  /** A pipe for one byte and one writer of two. */
  function OneWriter(c: Call, lock: Holder, rlock: Holder, w: WaitQueue): State
    requires c.done <= 2
  {
    State(1, [7, 8][..c.done], lock, WaitQueue(rlock, []), w, Open, [c], Tagged(0, [7, 8][..c.done]), [])
  }

  /** It writes one byte, waits for room, gets a signal and returns an error. */
  lemma LostWrite() returns (t: seq<Event>)
    ensures Run(Init(1), t).Some?
    ensures var s := Run(Init(1), t).value;
            At(s, 0, Returned(false)) && s.calls[0].done == 1 && Bytes(s.pushed) == [7]
  {
    hide Run;
    t := WritesOne();
    t := WakesNobody(t);
    t := WaitsForRoom(t);
    t := IsInterrupted(t);
    t := TakesItselfOut(t);
  }

  lemma OneByteMoves(w: WaitQueue)
    ensures var c := Call(Writer, [7, 8], 0, Moving, false);
            var s := OneWriter(c, ByCall(0), Free, w);
            CanMove(s, 0) && Moved(s, 0) == OneWriter(c.(done := 1, pc := Signalling), ByCall(0), Free, w)
  {
  }

  lemma WritesOne() returns (t: seq<Event>)
    ensures Run(Init(1), t) ==
            Some(OneWriter(Call(Writer, [7, 8], 1, Signalling, false), ByCall(0), Free, WaitQueue(Free, [])))
  {
    assert Run(Init(1), []) == Some(Init(1));
    hide Run;
    var c, w := Call(Writer, [7, 8], 0, Start, false), WaitQueue(Free, []);
    t := Go([], Init(1), Begin(Writer, [7, 8]), OneWriter(c, Free, Free, w));
    t := Go(t, OneWriter(c, Free, Free, w), LockBuffer(0), OneWriter(c.(pc := Moving), ByCall(0), Free, w));
    OneByteMoves(w);
    t := Go(t, OneWriter(c.(pc := Moving), ByCall(0), Free, w), Move(0),
        OneWriter(c.(done := 1, pc := Signalling), ByCall(0), Free, w));
  }

  lemma WakesNobody(a: seq<Event>) returns (t: seq<Event>)
    requires Run(Init(1), a) ==
             Some(OneWriter(Call(Writer, [7, 8], 1, Signalling, false), ByCall(0), Free, WaitQueue(Free, [])))
    ensures Run(Init(1), t) ==
            Some(OneWriter(Call(Writer, [7, 8], 1, Deciding, false), ByCall(0), Free, WaitQueue(Free, [])))
  {
    hide Run, Tagged;
    var c, w := Call(Writer, [7, 8], 1, Waking, false), WaitQueue(Free, []);
    t := Go(a, OneWriter(c.(pc := Signalling), ByCall(0), Free, w), LockOther(0),
        OneWriter(c, ByCall(0), ByCall(0), w));
    t := Go(t, OneWriter(c, ByCall(0), ByCall(0), w), EndWaking(0), OneWriter(c.(pc := Deciding), ByCall(0), Free, w));
  }

  lemma WaitsForRoom(a: seq<Event>) returns (t: seq<Event>)
    requires Run(Init(1), a) ==
             Some(OneWriter(Call(Writer, [7, 8], 1, Deciding, false), ByCall(0), Free, WaitQueue(Free, [])))
    ensures Run(Init(1), t) ==
            Some(OneWriter(Call(Writer, [7, 8], 1, Parked, false), Free, Free, WaitQueue(Free, [0])))
  {
    hide Run, Tagged;
    var c, w := Call(Writer, [7, 8], 1, Deciding, false), WaitQueue(Free, []);
    var v := w.(lock := ByCall(0));
    t := Go(a, OneWriter(c, ByCall(0), Free, w), Decide(0), OneWriter(c.(pc := Queueing), ByCall(0), Free, w));
    t := Go(t, OneWriter(c.(pc := Queueing), ByCall(0), Free, w), LockOwn(0),
        OneWriter(c.(pc := Checking), ByCall(0), Free, v));
    t := Go(t, OneWriter(c.(pc := Checking), ByCall(0), Free, v), Recheck(0),
        OneWriter(c.(pc := Parking), Free, Free, v));
    t := Go(t, OneWriter(c.(pc := Parking), Free, Free, v), Park(0),
        OneWriter(c.(pc := Parked), Free, Free, WaitQueue(Free, [0])));
  }

  lemma IsInterrupted(a: seq<Event>) returns (t: seq<Event>)
    requires Run(Init(1), a) ==
             Some(OneWriter(Call(Writer, [7, 8], 1, Parked, false), Free, Free, WaitQueue(Free, [0])))
    ensures Run(Init(1), t) ==
            Some(OneWriter(Call(Writer, [7, 8], 1, Leaving, true), Free, Free, WaitQueue(Free, [0])))
  {
    hide Run, Tagged, Without;
    var c, w := Call(Writer, [7, 8], 1, Parked, true), WaitQueue(Free, [0]);
    t := Go(a, OneWriter(c.(interrupted := false), Free, Free, w), Interrupt(0),
        OneWriter(c.(pc := Woken), Free, Free, w));
    t := Go(t, OneWriter(c.(pc := Woken), Free, Free, w), Schedule(0), OneWriter(c.(pc := Resumed), Free, Free, w));
    t := Go(t, OneWriter(c.(pc := Resumed), Free, Free, w), Resume(0), OneWriter(c.(pc := Leaving), Free, Free, w));
  }

  lemma TakesItselfOut(a: seq<Event>) returns (t: seq<Event>)
    requires Run(Init(1), a) ==
             Some(OneWriter(Call(Writer, [7, 8], 1, Leaving, true), Free, Free, WaitQueue(Free, [0])))
    ensures Run(Init(1), t) ==
            Some(OneWriter(Call(Writer, [7, 8], 1, Returned(false), true), Free, Free, WaitQueue(Free, [])))
  {
    hide Run, Tagged;
    var c := Call(Writer, [7, 8], 1, Leaving, true);
    assert Without([0], 0) == [] by { assert [0][1..] == []; }
    t := Go(a, OneWriter(c, Free, Free, WaitQueue(Free, [0])), Leave(0),
        OneWriter(c.(pc := Returned(false)), Free, Free, WaitQueue(Free, [])));
  }
}
