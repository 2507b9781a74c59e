/** Sending through io_uring: the dispatcher that pops events and posts them to a
    thread pool, the workers that hold a ring's mutex across _send and _reap, the
    count of outstanding sends, and the drain loop at the end. */
module IoUring {
  import opened Types
  import opened Arithmetic
  import opened Segmenter

  const CQE_BATCH := 100

  /** An event on the send queue: its number of datagrams, and whether its
      callback is non-null. */
  datatype Event = Event(buffers: nat, callback: bool)

  /** Whoever holds a ring's mutex: in _send with k datagrams of ev submitted, or
      in _reap with seen completions not yet taken off the count. */
  datatype Phase = Free | Sending(ev: nat, k: nat) | Reaping(seen: nat)

  /** What is submitted to a ring and not yet seen as completed. Each entry is the
      event whose callback it carries, if it carries one. */
  datatype Ring = Ring(phase: Phase, inFlight: multiset<Option<nat>>)

  /** events is everything ever queued; the first |routes| of them are dispatched,
      each to the ring in routes. fired, counted and reaped are history: the
      callbacks run, and what has been added to and taken off outstanding. */
  datatype State = State(
    events: seq<Event>, routes: seq<nat>, roundRobin: nat, pending: set<nat>, rings: seq<Ring>, outstanding: u32,
    stopping: bool, joined: bool, exited: bool,
    fired: multiset<nat>, counted: nat, reaped: nat)

  datatype Step =
    | Queue(e: Event)              // addToSendQueue
    | Dispatch                     // pop, and post to the pool
    | Acquire(ring: nat, ev: nat)  // a worker takes the job and the mutex
    | Submit(ring: nat)            // one datagram
    | Count(ring: nat)             // the end of _send
    | See(ring: nat, cb: Option<nat>)
    | Subtract(ring: nat)          // the end of a batch
    | Release(ring: nat)
    | Stop                         // stopThreads has seen an empty queue
    | Join                         // the pool has run dry
    | Drain(ring: nat)             // the final loop reaps this ring
    | Exit                         // the final loop sees a zero

  predicate AllFree(rings: seq<Ring>) {
    forall r :: 0 <= r < |rings| ==> rings[r].phase == Free
  }

  /** The steps of whoever holds, or takes, the mutex of a ring. */
  predicate OnRing(step: Step) {
    step.Acquire? || step.Submit? || step.Count? || step.See? || step.Subtract? || step.Release? || step.Drain?
  }

  predicate RingEnabled(s: State, step: Step)
    requires OnRing(step) && step.ring < |s.rings|
  {
    var ring := s.rings[step.ring];
    match step
    case Acquire(r, ev) => ev in s.pending && ev < |s.routes| && s.routes[ev] == r && ring.phase == Free
    case Submit(r) =>
      ring.phase.Sending? && ring.phase.ev < |s.events| && ring.phase.k < s.events[ring.phase.ev].buffers
    case Count(r) =>
      ring.phase.Sending? && ring.phase.ev < |s.events| && ring.phase.k == s.events[ring.phase.ev].buffers
    case See(r, cb) => ring.phase.Reaping? && ring.phase.seen < CQE_BATCH && cb in ring.inFlight
    case Subtract(r) => ring.phase.Reaping? && ring.phase.seen > 0
    case Release(r) => ring.phase == Reaping(0)
    case Drain(r) => s.joined && !s.exited && AllFree(s.rings)
  }

  predicate Enabled(s: State, step: Step) {
    if OnRing(step) then step.ring < |s.rings| && RingEnabled(s, step)
    else
      match step
      case Queue(e) => !s.stopping
      case Dispatch => |s.routes| < |s.events| && s.rings != []
      case Stop => !s.stopping && |s.routes| == |s.events|
      case Join => s.stopping && !s.joined && s.pending == {} && AllFree(s.rings)
      case Exit => s.joined && !s.exited && AllFree(s.rings) && s.outstanding == 0
  }

  /** The datagram that completes an event carries its callback. */
  function Carried(e: Event, ev: nat, k: nat): Option<nat> {
    if k + 1 == e.buffers && e.callback then Some(ev) else None
  }

  function NextRing(s: State, step: Step): Ring
    requires OnRing(step) && step.ring < |s.rings| && RingEnabled(s, step)
  {
    var ring := s.rings[step.ring];
    match step
    case Acquire(r, ev) => ring.(phase := Sending(ev, 0))
    case Submit(r) =>
      var (ev, k) := (ring.phase.ev, ring.phase.k);
      Ring(Sending(ev, k + 1), ring.inFlight + multiset{Carried(s.events[ev], ev, k)})
    case Count(r) => ring.(phase := Reaping(0))
    case See(r, cb) => Ring(Reaping(ring.phase.seen + 1), ring.inFlight - multiset{cb})
    case Subtract(r) => ring.(phase := Reaping(0))
    case Release(r) => ring.(phase := Free)
    case Drain(r) => ring.(phase := Reaping(0))
  }

  function Next(s: State, step: Step): State
    requires Enabled(s, step)
  {
    if OnRing(step) then
      var ring := s.rings[step.ring];
      var t := s.(rings := s.rings[step.ring := NextRing(s, step)]);
      match step
      case Acquire(r, ev) => t.(pending := s.pending - {ev})
      case Count(r) =>
        t.(outstanding := (s.outstanding + ring.phase.k) % 0x1_0000_0000, counted := s.counted + ring.phase.k)
      case See(r, cb) => if cb.Some? then t.(fired := s.fired + multiset{cb.value}) else t
      case Subtract(r) =>
        t.(outstanding := (s.outstanding - ring.phase.seen) % 0x1_0000_0000, reaped := s.reaped + ring.phase.seen)
      case _ => t
    else
      match step
      case Queue(e) => s.(events := s.events + [e])
      case Dispatch =>
        var rri := if s.roundRobin + 1 < |s.rings| then s.roundRobin + 1 else 0;
        s.(routes := s.routes + [rri], roundRobin := rri, pending := s.pending + {|s.routes|})
      case Stop => s.(stopping := true)
      case Join => s.(joined := true)
      case Exit => s.(exited := true)
  }

  function Init(numSockets: nat): State {
    State([], [], 0, {}, seq(numSockets, _ => Ring(Free, multiset{})), 0, false, false, false, multiset{}, 0, 0)
  }

  /** The state after a run, or None when a step was not enabled. */
  ghost function Run(numSockets: nat, steps: seq<Step>): Option<State> {
    if steps == [] then Some(Init(numSockets))
    else
      match Run(numSockets, steps[..|steps| - 1])
      case None => None
      case Some(s) => if Enabled(s, steps[|steps| - 1]) then Some(Next(s, steps[|steps| - 1])) else None
  }

  // ---- the count ------------------------------------------------------------

  /** What a ring contributes to outstanding: submissions not yet taken off, except
      those of a _send that is still running. */
  function Load(r: Ring): int {
    match r.phase
    case Free => |r.inFlight|
    case Sending(_, k) => |r.inFlight| - k
    case Reaping(seen) => |r.inFlight| + seen
  }

  function Total(rings: seq<Ring>): int {
    if rings == [] then 0 else Total(rings[..|rings| - 1]) + Load(rings[|rings| - 1])
  }

  lemma {:induction false} TotalUpdate(rings: seq<Ring>, r: nat, x: Ring)
    requires r < |rings|
    ensures Total(rings[r := x]) == Total(rings) - Load(rings[r]) + Load(x)
  {
    var n := |rings| - 1;
    if r < n {
      TotalUpdate(rings[..n], r, x);
      assert rings[r := x][..n] == rings[..n][r := x];
    } else {
      assert rings[r := x][..n] == rings[..n];
    }
  }

  /** A running _send has its own submissions in flight: nobody else reaps here. */
  ghost predicate Sound(rings: seq<Ring>) {
    forall r :: 0 <= r < |rings| && rings[r].phase.Sending? ==> rings[r].phase.k <= |rings[r].inFlight|
  }

  lemma {:induction false} TotalBounds(rings: seq<Ring>, r: nat)
    requires r < |rings| && Sound(rings)
    ensures 0 <= Load(rings[r]) <= Total(rings)
  {
    var n := |rings| - 1;
    if r < n {
      TotalBounds(rings[..n], r);
    } else if n > 0 {
      TotalBounds(rings[..n], n - 1);
    }
  }

  lemma {:induction false} TotalOfNothing(rings: seq<Ring>)
    requires forall r :: 0 <= r < |rings| ==> rings[r].inFlight == multiset{} && rings[r].phase == Free
    ensures Total(rings) == 0
  {
    if rings != [] { TotalOfNothing(rings[..|rings| - 1]); }
  }

  // ---- the invariant ----------------------------------------------------------

  ghost predicate Counted(s: State) {
    && Sound(s.rings)
    && Total(s.rings) == s.counted - s.reaped
    && s.outstanding == (s.counted - s.reaped) % 0x1_0000_0000
  }

  /** Every job is at one stage, on its own ring. */
  ghost predicate Jobs(s: State) {
    && |s.rings| > 0 && |s.routes| <= |s.events| && s.roundRobin < |s.rings|
    && (forall j :: 0 <= j < |s.routes| ==> s.routes[j] < |s.rings|)
    && (forall j :: j in s.pending ==> j < |s.routes|)
    && forall r :: 0 <= r < |s.rings| && s.rings[r].phase.Sending? ==>
      var ph := s.rings[r].phase;
      ph.ev < |s.routes| && ph.ev !in s.pending && s.routes[ph.ev] == r && ph.k <= s.events[ph.ev].buffers
  }

  predicate Ending(s: State) {
    && (s.stopping ==> |s.routes| == |s.events|)
    && (s.joined ==> s.stopping && s.pending == {} && forall r :: 0 <= r < |s.rings| ==> !s.rings[r].phase.Sending?)
    && (s.exited ==> s.joined && AllFree(s.rings) && s.outstanding == 0)
  }

  /** All of the event is submitted, and someone waits for its callback. */
  predicate Due(s: State, j: nat) {
    && j < |s.routes| && j < |s.events| && s.routes[j] < |s.rings| && j !in s.pending
    && s.events[j].callback && s.events[j].buffers > 0
    && var ph := s.rings[s.routes[j]].phase;
      !(ph.Sending? && ph.ev == j && ph.k < s.events[j].buffers)
  }

  /** A callback that is due is in flight on the event's own ring, or has run; it
      is never in two of these places, and no other callback is anywhere. */
  ghost predicate Callback(s: State, j: nat) {
    && (forall r :: 0 <= r < |s.rings| && Some(j) in s.rings[r].inFlight ==> j < |s.routes| && r == s.routes[j])
    && (j < |s.routes| && s.routes[j] < |s.rings| ==>
          s.rings[s.routes[j]].inFlight[Some(j)] + s.fired[j] == if Due(s, j) then 1 else 0)
    && (j >= |s.routes| ==> s.fired[j] == 0)
  }

  ghost predicate Inv(s: State) {
    Jobs(s) && Counted(s) && Ending(s) && forall j: nat :: Callback(s, j)
  }

  lemma RingStepKeeps(s: State, step: Step)
    requires Enabled(s, step) && OnRing(step)
    ensures Next(s, step).rings == s.rings[step.ring := NextRing(s, step)]
    ensures Next(s, step).events == s.events && Next(s, step).routes == s.routes
    ensures Next(s, step).pending == if step.Acquire? then s.pending - {step.ev} else s.pending
  {
  }

  /** Only _send's end and a batch's end change what a ring contributes, and they
      change the count by as much. */
  lemma LoadChange(s: State, step: Step)
    requires Enabled(s, step) && OnRing(step) && Sound(s.rings)
    ensures Load(NextRing(s, step)) - Load(s.rings[step.ring])
      == (Next(s, step).counted - Next(s, step).reaped) - (s.counted - s.reaped)
  {
    match step
    case Acquire(_, _) =>
    case Submit(_) =>
    case Count(_) =>
    case See(_, _) =>
    case Subtract(_) =>
    case Release(_) =>
    case Drain(_) =>
  }

  lemma StaysSound(s: State, step: Step)
    requires Enabled(s, step) && OnRing(step) && Sound(s.rings)
    ensures Sound(s.rings[step.ring := NextRing(s, step)])
  {
  }

  lemma OutstandingChange(s: State, step: Step)
    requires Enabled(s, step) && s.outstanding == (s.counted - s.reaped) % 0x1_0000_0000
    ensures var t := Next(s, step); t.outstanding == (t.counted - t.reaped) % 0x1_0000_0000
  {
    if step.Count? {
      AddModulo32(s.counted - s.reaped, s.rings[step.ring].phase.k);
    } else if step.Subtract? {
      AddModulo32(s.counted - s.reaped, s.rings[step.ring].phase.seen);
    }
  }

  lemma CountedRing(s: State, step: Step)
    requires Sound(s.rings) && Total(s.rings) == s.counted - s.reaped && Enabled(s, step) && OnRing(step)
    ensures var t := Next(s, step); Sound(t.rings) && Total(t.rings) == t.counted - t.reaped
  {
    RingStepKeeps(s, step);
    LoadChange(s, step);
    StaysSound(s, step);
    TotalUpdate(s.rings, step.ring, NextRing(s, step));
  }

  lemma CountedStep(s: State, step: Step)
    requires Counted(s) && Enabled(s, step)
    ensures Counted(Next(s, step))
  {
    OutstandingChange(s, step);
    if OnRing(step) { CountedRing(s, step); }
  }

  lemma JobsRing(s: State, step: Step)
    requires Jobs(s) && Enabled(s, step) && OnRing(step)
    ensures Jobs(Next(s, step))
  {
    RingStepKeeps(s, step);
  }

  lemma EndingRing(s: State, step: Step)
    requires Jobs(s) && Ending(s) && Enabled(s, step) && OnRing(step)
    ensures Ending(Next(s, step))
  {
    RingStepKeeps(s, step);
  }

  lemma JobsStep(s: State, step: Step)
    requires Jobs(s) && Ending(s) && Enabled(s, step) && !OnRing(step)
    ensures Jobs(Next(s, step)) && Ending(Next(s, step))
  {
  }

  lemma CallbackNoRing(s: State, step: Step, j: nat)
    requires Jobs(s) && Enabled(s, step) && Callback(s, j) && !OnRing(step)
    ensures Callback(Next(s, step), j)
  {
  }

  lemma CallbackSubmit(s: State, step: Step, j: nat)
    requires Jobs(s) && Enabled(s, step) && Callback(s, j) && step.Submit?
    ensures Callback(Next(s, step), j)
  {
  }

  lemma CallbackAcquire(s: State, step: Step, j: nat)
    requires Jobs(s) && Enabled(s, step) && Callback(s, j) && step.Acquire?
    ensures Callback(Next(s, step), j)
  {
  }

  lemma CallbackSeen(s: State, step: Step, j: nat)
    requires Jobs(s) && Enabled(s, step) && Callback(s, j) && step.See? && step.cb == Some(j)
    ensures Callback(Next(s, step), j)
  {
    var x, ring := NextRing(s, step), s.rings[step.ring];
    assert step.ring == s.routes[j] && x.inFlight[Some(j)] == ring.inFlight[Some(j)] - 1;
    assert Next(s, step).rings == s.rings[step.ring := x];
    assert Due(Next(s, step), j) == Due(s, j);
  }

  lemma CallbackUnseen(s: State, step: Step, j: nat)
    requires Enabled(s, step) && Callback(s, j) && step.See? && step.cb != Some(j)
    ensures Callback(Next(s, step), j)
  {
    var x, ring := NextRing(s, step), s.rings[step.ring];
    assert x.inFlight[Some(j)] == ring.inFlight[Some(j)];
    assert Next(s, step).rings == s.rings[step.ring := x];
    assert Due(Next(s, step), j) == Due(s, j);
  }

  lemma CallbackQuiet(s: State, step: Step, j: nat)
    requires Enabled(s, step) && Callback(s, j)
    requires step.Count? || step.Subtract? || step.Release? || step.Drain?
    ensures Callback(Next(s, step), j)
  {
    var t, x := Next(s, step), NextRing(s, step);
    assert t.rings == s.rings[step.ring := x] && x.inFlight == s.rings[step.ring].inFlight;
    assert t.fired == s.fired && t.routes == s.routes;
    assert Due(t, j) == Due(s, j);
  }

  lemma CallbackStep(s: State, step: Step, j: nat)
    requires Jobs(s) && Enabled(s, step) && Callback(s, j)
    ensures Callback(Next(s, step), j)
  {
    match step
    case Submit(_) => CallbackSubmit(s, step, j);
    case Acquire(_, _) => CallbackAcquire(s, step, j);
    case See(_, cb) => if cb == Some(j) { CallbackSeen(s, step, j); } else { CallbackUnseen(s, step, j); }
    case _ => if OnRing(step) { CallbackQuiet(s, step, j); } else { CallbackNoRing(s, step, j); }
  }

  lemma InvStep(s: State, step: Step)
    requires Inv(s) && Enabled(s, step)
    ensures Inv(Next(s, step))
  {
    CountedStep(s, step);
    if OnRing(step) {
      JobsRing(s, step);
      EndingRing(s, step);
    } else {
      JobsStep(s, step);
    }
    forall j: nat ensures Callback(Next(s, step), j) { CallbackStep(s, step, j); }
  }

  lemma InitInv(numSockets: nat)
    requires numSockets > 0
    ensures Inv(Init(numSockets))
  {
    TotalOfNothing(Init(numSockets).rings);
  }

  lemma {:induction false} RunInv(numSockets: nat, steps: seq<Step>)
    requires numSockets > 0 && Run(numSockets, steps).Some?
    ensures Inv(Run(numSockets, steps).value)
  {
    if steps == [] {
      InitInv(numSockets);
    } else {
      RunInv(numSockets, steps[..|steps| - 1]);
      InvStep(Run(numSockets, steps[..|steps| - 1]).value, steps[|steps| - 1]);
    }
  }

  // ---- main results -----------------------------------------------------------

  lemma CounterIsExact(s: State)
    requires Counted(s) && s.rings != []
    ensures 0 <= Total(s.rings) && s.outstanding == Total(s.rings) % 0x1_0000_0000
    ensures Total(s.rings) < TWO_32 ==> s.outstanding == Total(s.rings)
    ensures forall r :: 0 <= r < |s.rings| && s.rings[r].phase.Reaping? ==> s.rings[r].phase.seen <= Total(s.rings)
  {
    forall r | 0 <= r < |s.rings| ensures 0 <= Load(s.rings[r]) <= Total(s.rings) { TotalBounds(s.rings, r); }
    assert 0 <= Load(s.rings[0]);
  }

  /** NO UNDERFLOW. In every reachable state the counter is, modulo 2^32, what
      finished _send calls have submitted minus what has been taken off, and that
      is what the rings still hold. With fewer than 2^32 sends outstanding it is
      exact, and no batch takes off more than there is. */
  lemma CounterNeverUnderflows(numSockets: nat, steps: seq<Step>)
    requires numSockets > 0 && Run(numSockets, steps).Some?
    ensures var s := Run(numSockets, steps).value;
      && 0 <= s.counted - s.reaped == Total(s.rings)
      && s.outstanding == Total(s.rings) % 0x1_0000_0000
      && (Total(s.rings) < TWO_32 ==>
            s.outstanding == Total(s.rings)
            && forall r :: 0 <= r < |s.rings| && s.rings[r].phase.Reaping? ==> s.rings[r].phase.seen <= s.outstanding)
  {
    RunInv(numSockets, steps);
    CounterIsExact(Run(numSockets, steps).value);
  }

  /** NO CALLBACK TWICE, and none before all of its event is submitted. */
  lemma CallbacksRunAtMostOnce(numSockets: nat, steps: seq<Step>, j: nat)
    requires numSockets > 0 && Run(numSockets, steps).Some?
    ensures var s := Run(numSockets, steps).value; s.fired[j] <= 1 && (s.fired[j] == 1 ==> Due(s, j))
  {
    RunInv(numSockets, steps);
    assert Callback(Run(numSockets, steps).value, j);
  }

  /** The final loop ends with a multiple of 2^32 sends outstanding. When that is zero,
      nothing is in flight, and the callbacks that have run are those of the events
      that have one and are not empty, each exactly once. */
  lemma ExitIsOnMultiple(numSockets: nat, steps: seq<Step>)
    requires numSockets > 0 && Run(numSockets, steps).Some? && Run(numSockets, steps).value.exited
    ensures var s := Run(numSockets, steps).value;
      && 0 <= Total(s.rings) <= s.counted && Total(s.rings) % 0x1_0000_0000 == 0
      && (Total(s.rings) < TWO_32 <==> forall r :: 0 <= r < |s.rings| ==> s.rings[r].inFlight == multiset{})
      && (Total(s.rings) < TWO_32 ==> forall j :: 0 <= j < |s.events| ==>
            s.fired[j] == if s.events[j].callback && s.events[j].buffers > 0 then 1 else 0)
  {
    RunInv(numSockets, steps);
    CounterNeverUnderflows(numSockets, steps);
    var s := Run(numSockets, steps).value;
    if Total(s.rings) < TWO_32 {
      forall r | 0 <= r < |s.rings| ensures s.rings[r].inFlight == multiset{} {
        TotalBounds(s.rings, r);
        assert |s.rings[r].inFlight| == 0;
      }
      forall j | 0 <= j < |s.events|
        ensures s.fired[j] == if s.events[j].callback && s.events[j].buffers > 0 then 1 else 0
      {
        assert Callback(s, j);
      }
    } else if forall r :: 0 <= r < |s.rings| ==> s.rings[r].inFlight == multiset{} {
      TotalOfNothing(s.rings);
    }
  }

  /** The drain loop never spins on empty rings: while the counter is not zero some
      ring still has a completion to come. */
  lemma DrainHasWork(numSockets: nat, steps: seq<Step>) returns (r: nat)
    requires numSockets > 0 && Run(numSockets, steps).Some?
    requires var s := Run(numSockets, steps).value; AllFree(s.rings) && s.outstanding > 0
    ensures var s := Run(numSockets, steps).value; r < |s.rings| && s.rings[r].inFlight != multiset{}
  {
    RunInv(numSockets, steps);
    var s := Run(numSockets, steps).value;
    if forall i :: 0 <= i < |s.rings| ==> s.rings[i].inFlight == multiset{} { TotalOfNothing(s.rings); }
    r :| r < |s.rings| && s.rings[r].inFlight != multiset{};
  }

  /** What the round-robin index is after k dispatches. */
  function Turn(k: nat, n: nat): nat {
    if k == 0 then 0
    else if Turn(k - 1, n) + 1 < n then Turn(k - 1, n) + 1 else 0
  }

  lemma {:induction false} TurnIsModulo(k: nat, n: nat)
    requires n > 0
    ensures Turn(k, n) == k % n
  {
    if k == 0 {
      ModUnique(0, n, 0, 0);
    } else {
      TurnIsModulo(k - 1, n);
      NextModulo(k - 1, n);
    }
  }

  ghost predicate Routed(s: State, numSockets: nat) {
    && |s.rings| == numSockets && s.roundRobin == Turn(|s.routes|, numSockets)
    && forall j :: 0 <= j < |s.routes| ==> s.routes[j] == Turn(j + 1, numSockets)
  }

  lemma RoutedStep(s: State, step: Step, numSockets: nat)
    requires Enabled(s, step) && Routed(s, numSockets)
    ensures Routed(Next(s, step), numSockets)
  {
  }

  lemma {:induction false} RunRouted(numSockets: nat, steps: seq<Step>)
    requires numSockets > 0 && Run(numSockets, steps).Some?
    ensures Routed(Run(numSockets, steps).value, numSockets)
  {
    if steps != [] {
      RunRouted(numSockets, steps[..|steps| - 1]);
      RoutedStep(Run(numSockets, steps[..|steps| - 1]).value, steps[|steps| - 1], numSockets);
    }
  }

  /** ROUND ROBIN. Event j of the queue is sent from socket j + 1 modulo the number of
      sockets, as long as no direct send, which takes a turn of the same index, comes
      in between. */
  lemma RoundRobin(numSockets: nat, steps: seq<Step>, j: nat)
    requires numSockets > 0 && Run(numSockets, steps).Some? && j < |Run(numSockets, steps).value.routes|
    ensures Run(numSockets, steps).value.routes[j] == (j + 1) % numSockets
  {
    RunRouted(numSockets, steps);
    TurnIsModulo(j + 1, numSockets);
  }

  // ---- the steps and the methods ------------------------------------------------

  function Tags(q: seq<Sqe>): multiset<Option<nat>> {
    if q == [] then multiset{} else Tags(q[..|q| - 1]) + multiset{q[|q| - 1].callback}
  }

  /** What k submissions of an event put in flight. */
  function Submitted(e: Event, ev: nat, k: nat): multiset<Option<nat>> {
    if k == 0 then multiset{} else Submitted(e, ev, k - 1) + multiset{Carried(e, ev, k - 1)}
  }

  /** The submissions of the segmenter's Send method carry what the Submit steps of
      an event put in flight, one by one. */
  lemma {:induction false} SqesAreSubmitted(e: Event, ev: nat, ds: seq<seq<u8>>)
    requires |ds| <= e.buffers
    ensures Tags(Sqes(ds, if |ds| == e.buffers && e.callback then Some(ev) else None)) == Submitted(e, ev, |ds|)
  {
    if ds != [] { SqesAreSubmitted(e, ev, ds[..|ds| - 1]); }
  }

  /** The callbacks that completions run, in order. */
  function Runs(cqes: seq<Option<nat>>): seq<nat> {
    if cqes == [] then []
    else Runs(cqes[..|cqes| - 1]) + if cqes[|cqes| - 1].Some? then [cqes[|cqes| - 1].value] else []
  }

  /** at gives the place of each callback among the completions. */
  ghost predicate RunAt(cqes: seq<Option<nat>>, runs: seq<nat>, at: seq<nat>) {
    && |at| == |runs| && (forall k :: 0 <= k < |at| ==> at[k] < |cqes| && cqes[at[k]] == Some(runs[k]))
    && forall k, m :: 0 <= k < m < |at| ==> at[k] < at[m]
  }

  lemma RunAtSnoc(cqes: seq<Option<nat>>, runs: seq<nat>, at: seq<nat>, cqe: Option<nat>)
    requires RunAt(cqes, runs, at)
    ensures RunAt(cqes + [cqe], runs, at)
    ensures cqe.Some? ==> RunAt(cqes + [cqe], runs + [cqe.value], at + [|cqes|])
  {
    assert forall i :: 0 <= i < |cqes| ==> (cqes + [cqe])[i] == cqes[i];
  }

  /** The callbacks are those of the completions that carry one, each once and in order. */
  lemma {:induction false} RunsAre(cqes: seq<Option<nat>>) returns (at: seq<nat>)
    ensures RunAt(cqes, Runs(cqes), at) && forall i :: 0 <= i < |cqes| && cqes[i].Some? ==> i in at
  {
    at := [];
    if cqes != [] {
      var n := |cqes| - 1;
      at := RunsAre(cqes[..n]);
      assert forall i :: 0 <= i < n ==> cqes[..n][i] == cqes[i];
      RunAtSnoc(cqes[..n], Runs(cqes[..n]), at, cqes[n]);
      assert cqes[..n] + [cqes[n]] == cqes;
      if cqes[n].Some? { at := at + [n]; }
    }
  }

  /** The completions taken by the first batches. */
  function Sum(rets: seq<nat>): nat {
    if rets == [] then 0 else Sum(rets[..|rets| - 1]) + rets[|rets| - 1]
  }

  /** Each batch takes what there is: at most 100, at most what the peek finds ready, and
      at most what is left of the queue. */
  predicate Batches(rets: seq<nat>, peeks: seq<nat>, queued: nat) {
    rets == [] ||
    var before, ret := rets[..|rets| - 1], rets[|rets| - 1];
    && |rets| <= |peeks| && Batches(before, peeks, queued) && Sum(before) <= queued
    && IsBatch(ret, peeks[|rets| - 1], queued - Sum(before))
  }

  predicate IsBatch(ret: nat, ready: nat, left: nat) {
    ret <= 100 && ret <= ready && ret <= left && (ret == 100 || ret == ready || ret == left)
  }

  /** All peeks are made, but for those after the first that finds nothing. */
  ghost predicate Finished(rets: seq<nat>, peeks: seq<nat>) {
    && (forall i :: 0 <= i < |rets| - 1 ==> rets[i] > 0)
    && (|rets| == |peeks| || (rets != [] && rets[|rets| - 1] == 0))
  }

  predicate Fruitful(rets: seq<nat>) {
    forall i :: 0 <= i < |rets| ==> rets[i] > 0
  }

  lemma FinishedAt(rets: seq<nat>, peeks: seq<nat>, ret: nat)
    requires Fruitful(rets)
    ensures ret == 0 ==> Finished(rets + [ret], peeks)
    ensures ret > 0 ==> Fruitful(rets + [ret])
    ensures |rets| == |peeks| ==> Finished(rets, peeks)
  {
  }

  lemma BatchesGrow(rets: seq<nat>, peeks: seq<nat>, queued: nat, ret: nat)
    requires Batches(rets, peeks, queued) && |rets| < |peeks| && Sum(rets) <= queued
    requires IsBatch(ret, peeks[|rets|], queued - Sum(rets))
    ensures Batches(rets + [ret], peeks, queued) && Sum(rets + [ret]) == Sum(rets) + ret
  {
    assert (rets + [ret])[..|rets|] == rets;
  }

  /** The counter with n taken off. */
  function Less(before: u32, n: nat): u32 {
    (before - n) % 0x1_0000_0000
  }

  /** One ring's completion queue, and what _reap updates. */
  class Completions {
    var cq: seq<Option<nat>>
    var outstandingSends: u32
    var fired: seq<nat>

    /** _reap: peek at completions until there are none, run their callbacks, and
        take each batch off the count. peeks is how many are ready at the successive
        peeks, rets what these return. */
    method Reap(peeks: seq<nat>) returns (rets: seq<nat>)
      modifies this
      ensures Batches(rets, peeks, |old(cq)|) && Finished(rets, peeks) && Sum(rets) <= |old(cq)|
      ensures cq == old(cq)[Sum(rets)..] && fired == old(fired) + Runs(old(cq)[..Sum(rets)])
      ensures outstandingSends == (old(outstandingSends) - Sum(rets)) % 0x1_0000_0000
    {
      rets := [];
      var i := 0;
      assert old(cq)[..0] == [];
      while i < |peeks|
        invariant |rets| == i && Fruitful(rets) && Batches(rets, peeks, |old(cq)|)
        invariant Done(old(cq), Sum(rets), old(fired), old(outstandingSends))
      {
        var ret := NextBatch(peeks, rets, old(cq), old(fired), old(outstandingSends));
        rets := rets + [ret];
        if ret <= 0 { return; }
        i := i + 1;
      }
      FinishedAt(rets, peeks, 0);
    }

    /** What has been done once n completions of all are taken off the queue. */
    ghost predicate Done(all: seq<Option<nat>>, n: nat, ran: seq<nat>, before: u32)
      reads this
    {
      && n <= |all| && cq == all[n..] && fired == ran + Runs(all[..n])
      && outstandingSends == Less(before, n)
    }

    /** The next peek, after those that returned rets. */
    method NextBatch(peeks: seq<nat>, rets: seq<nat>, ghost all: seq<Option<nat>>, ghost ran: seq<nat>,
                     ghost before: u32)
      returns (ret: nat)
      requires |rets| < |peeks| && Fruitful(rets) && Batches(rets, peeks, |all|)
      requires Done(all, Sum(rets), ran, before)
      modifies this
      ensures Batches(rets + [ret], peeks, |all|) && Done(all, Sum(rets + [ret]), ran, before)
      ensures if ret == 0 then Finished(rets + [ret], peeks) else Fruitful(rets + [ret])
    {
      ret := TakeBatch(peeks[|rets|], all, Sum(rets), ran, before);
      BatchesGrow(rets, peeks, |all|, ret);
      FinishedAt(rets, peeks, ret);
    }

    /** One peek and its batch. */
    method TakeBatch(ready: nat, ghost all: seq<Option<nat>>, ghost n: nat, ghost ran: seq<nat>, ghost before: u32)
      returns (ret: nat)
      requires Done(all, n, ran, before)
      modifies this
      ensures IsBatch(ret, ready, |all| - n) && Done(all, n + ret, ran, before)
    {
      ret := Batch(ready);
      if ret <= 0 { return; }
      Consume(ret, all, n);
      RunsTo(all, n, n + ret);
      AddModulo32(before - n, ret);
      outstandingSends := (outstandingSends - ret) % 0x1_0000_0000;
    }

    /** Take the completions of one batch, which starts at place n of all, and run their
        callbacks. */
    method Consume(ret: nat, ghost all: seq<Option<nat>>, ghost n: nat)
      requires n + ret <= |all| && cq == all[n..]
      modifies this`cq, this`fired
      ensures cq == all[n + ret..] && fired == old(fired) + Runs(all[n..n + ret])
    {
      for idx := 0 to ret
        invariant cq == all[n + idx..] && fired == old(fired) + Runs(all[n..n + idx])
      {
        var cqe := cq[0];
        assert all[n..n + idx + 1][..idx] == all[n..n + idx];
        cq := cq[1..];
        if cqe.Some? { fired := fired + [cqe.value]; }
      }
    }

    /** io_uring_peek_batch_cqe. */
    function Batch(ready: nat): (ret: nat)
      reads this
      ensures IsBatch(ret, ready, |cq|)
    {
      var m := if ready < CQE_BATCH then ready else CQE_BATCH;
      if m < |cq| then m else |cq|
    }
  }

  lemma RunsTo(all: seq<Option<nat>>, n: nat, m: nat)
    requires n <= m <= |all|
    ensures Runs(all[..m]) == Runs(all[..n]) + Runs(all[n..m])
  {
    RunsConcat(all[..n], all[n..m]);
    assert all[..m] == all[..n] + all[n..m];
  }

  lemma {:induction false} RunsConcat(a: seq<Option<nat>>, b: seq<Option<nat>>)
    ensures Runs(a + b) == Runs(a) + Runs(b)
  {
    if b == [] {
      assert a + b == a;
    } else {
      var n := |b| - 1;
      RunsConcat(a, b[..n]);
      assert (a + b)[..|a| + n] == a + b[..n];
    }
  }
}
