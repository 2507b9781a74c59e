/** When the final loop of the io_uring mode waits for everything: exactly when the
    events queued come to fewer than 2^32 datagrams. */
module Drain {
  import opened Types
  import opened Arithmetic
  import opened IoUring

  /** The datagrams that some events come to. */
  function Buffers(es: seq<Event>): nat {
    if es == [] then 0 else Buffers(es[..|es| - 1]) + es[|es| - 1].buffers
  }

  // ---- what has been counted --------------------------------------------------------

  /** The datagrams of the events, among the first n, that wait for a worker. */
  function Waiting(es: seq<Event>, pending: set<nat>, n: nat): nat
    requires n <= |es|
  {
    if n == 0 then 0 else Waiting(es, pending, n - 1) + if n - 1 in pending then es[n - 1].buffers else 0
  }

  function BeingSent(es: seq<Event>, r: Ring): nat {
    if r.phase.Sending? && r.phase.ev < |es| then es[r.phase.ev].buffers else 0
  }

  /** The datagrams of the events that workers are sending. */
  function InHand(es: seq<Event>, rings: seq<Ring>): nat {
    if rings == [] then 0 else InHand(es, rings[..|rings| - 1]) + BeingSent(es, rings[|rings| - 1])
  }

  lemma {:induction false} WaitingWithout(es: seq<Event>, pending: set<nat>, n: nat, j: nat)
    requires n <= |es| && j in pending
    ensures Waiting(es, pending, n) == Waiting(es, pending - {j}, n) + if j < n then es[j].buffers else 0
  {
    if n > 0 { WaitingWithout(es, pending, n - 1, j); }
  }

  lemma {:induction false} WaitingOfNone(es: seq<Event>, n: nat)
    requires n <= |es|
    ensures Waiting(es, {}, n) == 0
  {
    if n > 0 { WaitingOfNone(es, n - 1); }
  }

  lemma {:induction false} WaitingSame(es: seq<Event>, fs: seq<Event>, pending: set<nat>, more: set<nat>, n: nat)
    requires n <= |es| && es <= fs && forall j :: 0 <= j < n ==> (j in pending <==> j in more)
    ensures Waiting(es, pending, n) == Waiting(fs, more, n)
  {
    if n > 0 { WaitingSame(es, fs, pending, more, n - 1); }
  }

  lemma {:induction false} InHandUpdate(es: seq<Event>, rings: seq<Ring>, r: nat, x: Ring)
    requires r < |rings|
    ensures InHand(es, rings[r := x]) == InHand(es, rings) - BeingSent(es, rings[r]) + BeingSent(es, x)
  {
    var n := |rings| - 1;
    if r < n {
      InHandUpdate(es, rings[..n], r, x);
      assert rings[r := x][..n] == rings[..n][r := x];
    } else {
      assert rings[r := x][..n] == rings[..n];
    }
  }

  lemma {:induction false} InHandOfNone(es: seq<Event>, rings: seq<Ring>)
    requires forall r :: 0 <= r < |rings| ==> !rings[r].phase.Sending?
    ensures InHand(es, rings) == 0
  {
    if rings != [] { InHandOfNone(es, rings[..|rings| - 1]); }
  }

  lemma {:induction false} InHandSame(es: seq<Event>, fs: seq<Event>, rings: seq<Ring>)
    requires es <= fs && forall r :: 0 <= r < |rings| && rings[r].phase.Sending? ==> rings[r].phase.ev < |es|
    ensures InHand(es, rings) == InHand(fs, rings)
  {
    if rings != [] { InHandSame(es, fs, rings[..|rings| - 1]); }
  }

  /** Every dispatched event is waiting, being sent, or counted. */
  ghost predicate Accounted(s: State) {
    && |s.routes| <= |s.events|
    && s.counted + Waiting(s.events, s.pending, |s.routes|) + InHand(s.events, s.rings)
       == Buffers(s.events[..|s.routes|])
  }

  /** A job leaves the waiting set for its ring, and its ring for the count. */
  lemma HandOverChange(s: State, step: Step)
    requires Jobs(s) && Enabled(s, step) && OnRing(step)
    ensures Next(s, step).counted + BeingSent(s.events, NextRing(s, step))
      == s.counted + BeingSent(s.events, s.rings[step.ring]) + if step.Acquire? then s.events[step.ev].buffers else 0
  {
  }

  lemma AccountedRing(s: State, step: Step)
    requires Jobs(s) && Accounted(s) && Enabled(s, step) && OnRing(step)
    ensures Accounted(Next(s, step))
  {
    HandOverChange(s, step);
    InHandUpdate(s.events, s.rings, step.ring, NextRing(s, step));
    RingStepKeeps(s, step);
    if step.Acquire? { WaitingWithout(s.events, s.pending, |s.routes|, step.ev); }
  }

  lemma AccountedQueue(s: State, step: Step)
    requires Jobs(s) && Accounted(s) && Enabled(s, step) && step.Queue?
    ensures Accounted(Next(s, step))
  {
    var fs := s.events + [step.e];
    WaitingSame(s.events, fs, s.pending, s.pending, |s.routes|);
    InHandSame(s.events, fs, s.rings);
    assert fs[..|s.routes|] == s.events[..|s.routes|];
  }

  lemma AccountedDispatch(s: State, step: Step)
    requires Jobs(s) && Accounted(s) && Enabled(s, step) && step.Dispatch?
    ensures Accounted(Next(s, step))
  {
    var n := |s.routes|;
    WaitingSame(s.events, s.events, s.pending, s.pending + {n}, n);
    assert s.events[..n + 1][..n] == s.events[..n];
  }

  lemma {:induction false} RunAccounted(numSockets: nat, steps: seq<Step>)
    requires numSockets > 0 && Run(numSockets, steps).Some?
    ensures Accounted(Run(numSockets, steps).value)
  {
    if steps == [] {
      InHandOfNone([], Init(numSockets).rings);
    } else {
      var s, last := Run(numSockets, steps[..|steps| - 1]).value, steps[|steps| - 1];
      RunAccounted(numSockets, steps[..|steps| - 1]);
      RunInv(numSockets, steps[..|steps| - 1]);
      if OnRing(last) {
        AccountedRing(s, last);
      } else if last.Queue? {
        AccountedQueue(s, last);
      } else if last.Dispatch? {
        AccountedDispatch(s, last);
      }
    }
  }

  /** Once the pool has run dry, everything queued has been counted. */
  lemma AllCounted(numSockets: nat, steps: seq<Step>)
    requires numSockets > 0 && Run(numSockets, steps).Some? && Run(numSockets, steps).value.joined
    ensures Run(numSockets, steps).value.counted == Buffers(Run(numSockets, steps).value.events)
  {
    var s := Run(numSockets, steps).value;
    RunAccounted(numSockets, steps);
    RunInv(numSockets, steps);
    WaitingOfNone(s.events, |s.routes|);
    InHandOfNone(s.events, s.rings);
    assert s.events[..|s.routes|] == s.events;
  }

  // ---- complete drains ----------------------------------------------------------------

  ghost predicate Reachable(numSockets: nat, s: State) {
    exists steps :: Run(numSockets, steps) == Some(s)
  }

  predicate NothingInFlight(rings: seq<Ring>) {
    forall r :: 0 <= r < |rings| ==> rings[r].inFlight == multiset{}
  }

  /** THE DRAIN LOOP WAITS FOR EVERYTHING when the events queued come to fewer than
      2^32 datagrams: nothing is in flight when it ends, and the callbacks that have
      run are those of the events that have one and are not empty, each exactly once. */
  lemma DrainIsComplete(numSockets: nat, s: State)
    requires numSockets > 0 && Reachable(numSockets, s) && s.exited && Buffers(s.events) < TWO_32
    ensures NothingInFlight(s.rings)
    ensures forall j :: 0 <= j < |s.events| ==>
      s.fired[j] == if s.events[j].callback && s.events[j].buffers > 0 then 1 else 0
  {
    var steps :| Run(numSockets, steps) == Some(s);
    RunInv(numSockets, steps);
    AllCounted(numSockets, steps);
    ExitIsOnMultiple(numSockets, steps);
  }

  // ---- ending early -------------------------------------------------------------------

  /** The send queue holds no more than capacity events at any time of the run. */
  ghost predicate FitsQueue(numSockets: nat, steps: seq<Step>, capacity: nat) {
    || steps == []
    || (&& FitsQueue(numSockets, steps[..|steps| - 1], capacity)
        && Run(numSockets, steps).Some?
        && var s := Run(numSockets, steps).value; |s.events| - |s.routes| <= capacity)
  }

  /** The state can be reached with a send queue of this size. */
  ghost predicate ReachableWithin(numSockets: nat, s: State, capacity: nat) {
    exists steps :: Run(numSockets, steps) == Some(s) && FitsQueue(numSockets, steps, capacity)
  }

  lemma {:induction false} FitsMore(numSockets: nat, steps: seq<Step>, less: nat, more: nat)
    requires FitsQueue(numSockets, steps, less) && less <= more
    ensures FitsQueue(numSockets, steps, more)
  {
    if steps != [] { FitsMore(numSockets, steps[..|steps| - 1], less, more); }
  }

  lemma ReachesMore(numSockets: nat, s: State, less: nat, more: nat)
    requires ReachableWithin(numSockets, s, less) && less <= more
    ensures ReachableWithin(numSockets, s, more) && Reachable(numSockets, s)
  {
    var steps :| Run(numSockets, steps) == Some(s) && FitsQueue(numSockets, steps, less);
    FitsMore(numSockets, steps, less, more);
  }

  lemma ReachStep(numSockets: nat, s: State, step: Step)
    requires numSockets > 0 && ReachableWithin(numSockets, s, 1) && Enabled(s, step)
    requires |Next(s, step).events| - |Next(s, step).routes| <= 1
    ensures ReachableWithin(numSockets, Next(s, step), 1) && Inv(s)
  {
    var steps :| Run(numSockets, steps) == Some(s) && FitsQueue(numSockets, steps, 1);
    RunInv(numSockets, steps);
    assert (steps + [step])[..|steps|] == steps;
    assert Run(numSockets, steps + [step]) == Some(Next(s, step));
    assert FitsQueue(numSockets, steps + [step], 1);
  }

  /** Only ring r is held, nothing waits and nothing has been reaped. */
  ghost predicate Busy(s: State, r: nat, ph: Phase, es: seq<Event>, sent: nat) {
    && s.events == es && |s.routes| == sent <= |es| && s.pending == {} && s.reaped == 0
    && !s.stopping && !s.joined && !s.exited
    && r < |s.rings| && s.rings[r].phase == ph && forall i :: 0 <= i < |s.rings| && i != r ==> s.rings[i].phase == Free
  }

  /** A worker takes the next event. */
  lemma TakeNext(numSockets: nat, s: State, es: seq<Event>, sent: nat) returns (s': State, r: nat)
    requires numSockets > 0 && ReachableWithin(numSockets, s, 1) && Busy(s, 0, Free, es, sent) && sent < |es|
    ensures ReachableWithin(numSockets, s', 1) && Busy(s', r, Sending(sent, 0), es, sent + 1)
  {
    ReachStep(numSockets, s, Dispatch);
    var d := Next(s, Dispatch);
    r := d.routes[sent];
    ReachStep(numSockets, d, Acquire(r, sent));
    s' := Next(d, Acquire(r, sent));
    assert d.pending - {sent} == {};
  }

  /** It submits all of it. */
  lemma {:induction false} SubmitAll(numSockets: nat, s: State, es: seq<Event>, sent: nat, r: nat, k: nat)
    returns (s': State)
    requires numSockets > 0 && ReachableWithin(numSockets, s, 1) && Busy(s, r, Sending(sent, 0), es, sent + 1)
    requires sent < |es| && k <= es[sent].buffers
    ensures ReachableWithin(numSockets, s', 1) && Busy(s', r, Sending(sent, k), es, sent + 1)
  {
    s' := s;
    if k > 0 {
      var before := SubmitAll(numSockets, s, es, sent, r, k - 1);
      ReachStep(numSockets, before, Submit(r));
      s' := Next(before, Submit(r));
    }
  }

  /** And counts it, without finding any completion. */
  lemma CountIt(numSockets: nat, s: State, es: seq<Event>, sent: nat, r: nat) returns (s': State)
    requires numSockets > 0 && ReachableWithin(numSockets, s, 1) && sent < |es|
    requires Busy(s, r, Sending(sent, es[sent].buffers), es, sent + 1)
    ensures ReachableWithin(numSockets, s', 1) && Busy(s', 0, Free, es, sent + 1)
  {
    ReachStep(numSockets, s, Count(r));
    var c := Next(s, Count(r));
    ReachStep(numSockets, c, Release(r));
    s' := Next(c, Release(r));
  }

  /** An event is queued while nothing else is on the queue. */
  lemma QueueNext(numSockets: nat, s: State, es: seq<Event>, e: Event) returns (s': State)
    requires numSockets > 0 && ReachableWithin(numSockets, s, 1) && Busy(s, 0, Free, es, |es|)
    ensures ReachableWithin(numSockets, s', 1) && Busy(s', 0, Free, es + [e], |es|)
  {
    ReachStep(numSockets, s, Queue(e));
    s' := Next(s, Queue(e));
  }

  /** One event at a time is queued, dispatched and sent. */
  lemma {:induction false} SendAll(numSockets: nat, es: seq<Event>) returns (s: State)
    requires numSockets > 0
    ensures ReachableWithin(numSockets, s, 1) && Busy(s, 0, Free, es, |es|)
  {
    if es == [] {
      s := Init(numSockets);
      assert Run(numSockets, []) == Some(s);
    } else {
      var n := |es| - 1;
      assert es == es[..n] + [es[n]];
      var before := SendAll(numSockets, es[..n]);
      var queued := QueueNext(numSockets, before, es[..n], es[n]);
      var taken, r := TakeNext(numSockets, queued, es, n);
      var submitted := SubmitAll(numSockets, taken, es, n, r, es[n].buffers);
      s := CountIt(numSockets, submitted, es, n, r);
    }
  }

  /** The state in the final loop: base is what will be left when the count is zero. */
  ghost predicate Draining(s: State, es: seq<Event>, base: int) {
    && s.events == es && s.joined && !s.exited && AllFree(s.rings)
    && s.counted - s.reaped == s.outstanding + base
  }

  lemma StopAll(numSockets: nat, es: seq<Event>) returns (s: State)
    requires numSockets > 0
    ensures ReachableWithin(numSockets, s, 1) && Draining(s, es, Buffers(es) - Buffers(es) % 0x1_0000_0000)
  {
    var sent := SendAll(numSockets, es);
    ReachStep(numSockets, sent, Stop);
    var stopped := Next(sent, Stop);
    ReachStep(numSockets, stopped, Join);
    s := Next(stopped, Join);
    var steps :| Run(numSockets, steps) == Some(s);
    AllCounted(numSockets, steps);
    RunInv(numSockets, steps);
  }

  /** The final loop holds ring r. */
  ghost predicate Holding(s: State, r: nat, ph: Phase, es: seq<Event>) {
    && s.events == es && s.joined && !s.exited
    && r < |s.rings| && s.rings[r].phase == ph && forall i :: 0 <= i < |s.rings| && i != r ==> s.rings[i].phase == Free
  }

  lemma ReapStarts(numSockets: nat, s: State, es: seq<Event>, base: int)
    returns (s': State, r: nat, cb: Option<nat>)
    requires numSockets > 0 && ReachableWithin(numSockets, s, 1) && Draining(s, es, base) && s.outstanding > 0
    ensures ReachableWithin(numSockets, s', 1) && Holding(s', r, Reaping(0), es) && cb in s'.rings[r].inFlight
    ensures s'.outstanding == s.outstanding && s'.counted == s.counted && s'.reaped == s.reaped
  {
    var steps :| Run(numSockets, steps) == Some(s);
    r := DrainHasWork(numSockets, steps);
    cb :| cb in s.rings[r].inFlight;
    ReachStep(numSockets, s, IoUring.Step.Drain(r));
    s' := Next(s, IoUring.Step.Drain(r));
  }

  lemma ReapSees(numSockets: nat, s: State, es: seq<Event>, r: nat, cb: Option<nat>) returns (s': State)
    requires numSockets > 0 && ReachableWithin(numSockets, s, 1)
    requires Holding(s, r, Reaping(0), es) && cb in s.rings[r].inFlight
    ensures ReachableWithin(numSockets, s', 1) && Holding(s', r, Reaping(1), es)
    ensures s'.outstanding == s.outstanding && s'.counted == s.counted && s'.reaped == s.reaped
  {
    ReachStep(numSockets, s, See(r, cb));
    s' := Next(s, See(r, cb));
  }

  lemma SubtractsOne(s: State, r: nat)
    requires r < |s.rings| && s.rings[r].phase == Reaping(1) && s.outstanding > 0
    ensures Enabled(s, Subtract(r)) && Next(s, Subtract(r)).outstanding == s.outstanding - 1
  {
    NoModulo32(s.outstanding - 1);
  }

  lemma ReapSubtracts(numSockets: nat, s: State, es: seq<Event>, r: nat) returns (s': State)
    requires numSockets > 0 && ReachableWithin(numSockets, s, 1) && Holding(s, r, Reaping(1), es) && s.outstanding > 0
    ensures ReachableWithin(numSockets, s', 1) && Holding(s', r, Reaping(0), es)
    ensures s'.outstanding == s.outstanding - 1 && s'.counted == s.counted && s'.reaped == s.reaped + 1
  {
    ReachStep(numSockets, s, Subtract(r));
    s' := Next(s, Subtract(r));
    SubtractsOne(s, r);
  }

  /** The final loop finds one completion. */
  lemma ReapOne(numSockets: nat, s: State, es: seq<Event>, base: int) returns (s': State)
    requires numSockets > 0 && ReachableWithin(numSockets, s, 1) && Draining(s, es, base) && s.outstanding > 0
    ensures ReachableWithin(numSockets, s', 1) && Draining(s', es, base) && s'.outstanding == s.outstanding - 1
  {
    var held, r, cb := ReapStarts(numSockets, s, es, base);
    var seen := ReapSees(numSockets, held, es, r, cb);
    var off := ReapSubtracts(numSockets, seen, es, r);
    ReachStep(numSockets, off, Release(r));
    s' := Next(off, Release(r));
  }

  lemma {:induction false} DrainToZero(numSockets: nat, s: State, es: seq<Event>, base: int) returns (s': State)
    requires numSockets > 0 && ReachableWithin(numSockets, s, 1) && Draining(s, es, base)
    ensures ReachableWithin(numSockets, s', 1) && Draining(s', es, base) && s'.outstanding == 0
    decreases s.outstanding
  {
    s' := s;
    if s.outstanding > 0 {
      var one := ReapOne(numSockets, s, es, base);
      s' := DrainToZero(numSockets, one, es, base);
    }
  }

  /** ENDING EARLY. Whenever the events come to 2^32 datagrams or more, there is a run
      whose final loop ends with something in flight: the send queue never holds more
      than one event, and nothing completes before the final loop, which then sees the
      count pass through zero. */
  lemma DrainCanEndEarly(numSockets: nat, es: seq<Event>) returns (s: State)
    requires numSockets > 0 && Buffers(es) >= TWO_32
    ensures ReachableWithin(numSockets, s, 1) && s.exited && s.events == es && !NothingInFlight(s.rings)
  {
    var base := Buffers(es) - Buffers(es) % 0x1_0000_0000;
    var joined := StopAll(numSockets, es);
    var zero := DrainToZero(numSockets, joined, es, base);
    ReachStep(numSockets, zero, Exit);
    s := Next(zero, Exit);
    if NothingInFlight(s.rings) { TotalOfNothing(s.rings); }
  }

  /** WHEN EVERY DRAIN IS COMPLETE. Whatever the size of the send queue, every run that
      queues these events and gets to the end leaves nothing in flight if and only if
      they come to fewer than 2^32 datagrams. */
  lemma DrainIsCompleteIff(numSockets: nat, es: seq<Event>, capacity: nat)
    requires numSockets > 0 && capacity > 0
    ensures (forall s :: ReachableWithin(numSockets, s, capacity) && s.exited && s.events == es ==>
               NothingInFlight(s.rings))
      <==> Buffers(es) < TWO_32
  {
    if Buffers(es) < TWO_32 {
      forall s | ReachableWithin(numSockets, s, capacity) && s.exited && s.events == es
        ensures NothingInFlight(s.rings)
      {
        ReachesMore(numSockets, s, capacity, capacity);
        DrainIsComplete(numSockets, s);
      }
    } else {
      var s := DrainCanEndEarly(numSockets, es);
      ReachesMore(numSockets, s, 1, capacity);
    }
  }
}
