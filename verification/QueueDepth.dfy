/** The event queue and the counter beside it: pushing and counting, popping and
    discounting are separate atomic actions of any number of threads. */
module QueueDepth {
  import opened Types
  import opened Arithmetic

  /** What a thread has done and not yet counted. */
  datatype Pc = Idle | Pushed | Popped

  datatype State = State(queue: seq<nat>, depth: u64, pcs: seq<Pc>)

  datatype Step =
    | Push(t: nat, item: nat, ok: bool)  // enqueue: the push, which may fail
    | Increment(t: nat)                  // eventQueueDepth++
    | Pop(t: nat)                        // dequeue: the pop, which may find nothing
    | Decrement(t: nat)                  // eventQueueDepth--

  predicate Enabled(s: State, step: Step) {
    step.t < |s.pcs| &&
    match step
    case Push(t, _, _) => s.pcs[t] == Idle
    case Increment(t) => s.pcs[t] == Pushed
    case Pop(t) => s.pcs[t] == Idle
    case Decrement(t) => s.pcs[t] == Popped
  }

  function Next(s: State, step: Step): State
    requires Enabled(s, step)
  {
    match step
    case Push(t, item, ok) => if ok then s.(queue := s.queue + [item], pcs := s.pcs[t := Pushed]) else s
    case Increment(t) => s.(depth := (s.depth + 1) % 0x1_0000_0000_0000_0000, pcs := s.pcs[t := Idle])
    case Pop(t) => if s.queue == [] then s else s.(queue := s.queue[1..], pcs := s.pcs[t := Popped])
    case Decrement(t) => s.(depth := (s.depth - 1) % 0x1_0000_0000_0000_0000, pcs := s.pcs[t := Idle])
  }

  ghost function Run(threads: nat, steps: seq<Step>): Option<State> {
    if steps == [] then Some(State([], 0, seq(threads, _ => Idle)))
    else
      match Run(threads, steps[..|steps| - 1])
      case None => None
      case Some(s) => if Enabled(s, steps[|steps| - 1]) then Some(Next(s, steps[|steps| - 1])) else None
  }

  function Count(pcs: seq<Pc>, pc: Pc): nat {
    if pcs == [] then 0 else Count(pcs[..|pcs| - 1], pc) + if pcs[|pcs| - 1] == pc then 1 else 0
  }

  lemma {:induction false} CountUpdate(pcs: seq<Pc>, t: nat, to: Pc, pc: Pc)
    requires t < |pcs|
    ensures Count(pcs[t := to], pc) == Count(pcs, pc) - (if pcs[t] == pc then 1 else 0) + (if to == pc then 1 else 0)
  {
    var n := |pcs| - 1;
    if t < n {
      CountUpdate(pcs[..n], t, to, pc);
      assert pcs[t := to][..n] == pcs[..n][t := to];
    } else {
      assert pcs[t := to][..n] == pcs[..n];
    }
  }

  lemma {:induction false} CountBound(pcs: seq<Pc>)
    ensures Count(pcs, Pushed) + Count(pcs, Popped) <= |pcs|
    ensures (forall t :: 0 <= t < |pcs| ==> pcs[t] == Idle) ==> Count(pcs, Pushed) == Count(pcs, Popped) == 0
  {
    if pcs != [] { CountBound(pcs[..|pcs| - 1]); }
  }

  /** The queue length, corrected by what is not counted yet. */
  function Expected(s: State): int {
    |s.queue| - Count(s.pcs, Pushed) + Count(s.pcs, Popped)
  }

  ghost predicate Exact(s: State) {
    s.depth == Expected(s) % 0x1_0000_0000_0000_0000
  }

  lemma ExpectedStep(s: State, step: Step)
    requires Enabled(s, step)
    ensures Expected(Next(s, step)) == Expected(s) + if step.Increment? then 1 else if step.Decrement? then -1 else 0
  {
    match step
    case Push(t, _, _) => CountUpdate(s.pcs, t, Pushed, Pushed); CountUpdate(s.pcs, t, Pushed, Popped);
    case Increment(t) => CountUpdate(s.pcs, t, Idle, Pushed); CountUpdate(s.pcs, t, Idle, Popped);
    case Pop(t) => CountUpdate(s.pcs, t, Popped, Pushed); CountUpdate(s.pcs, t, Popped, Popped);
    case Decrement(t) => CountUpdate(s.pcs, t, Idle, Pushed); CountUpdate(s.pcs, t, Idle, Popped);
  }

  /** THE COUNTER. In every reachable state it is, modulo 2^64, the queue length less
      the pushes not yet counted plus the pops not yet discounted. */
  lemma {:induction false} DepthIsCorrectedLength(threads: nat, steps: seq<Step>)
    requires Run(threads, steps).Some?
    ensures Exact(Run(threads, steps).value) && |Run(threads, steps).value.pcs| == threads
  {
    if steps == [] {
      CountBound(Run(threads, steps).value.pcs);
    } else {
      var s, step := Run(threads, steps[..|steps| - 1]).value, steps[|steps| - 1];
      DepthIsCorrectedLength(threads, steps[..|steps| - 1]);
      ExpectedStep(s, step);
      AddModulo64(Expected(s), if step.Increment? then 1 else if step.Decrement? then -1 else 0);
    }
  }

  /** It is the queue length exactly when as many pushes as pops are uncounted, in
      particular whenever no thread is between its two actions. */
  lemma DepthIsExactIff(threads: nat, steps: seq<Step>)
    requires Run(threads, steps).Some? && threads < TWO_64
    ensures var s := Run(threads, steps).value;
      && |s.pcs| == threads
      && (|s.queue| < TWO_64 ==> (s.depth == |s.queue| <==> Count(s.pcs, Pushed) == Count(s.pcs, Popped)))
      && ((forall t :: 0 <= t < threads ==> s.pcs[t] == Idle) ==> Count(s.pcs, Pushed) == Count(s.pcs, Popped))
  {
    var s := Run(threads, steps).value;
    DepthIsCorrectedLength(threads, steps);
    CountBound(s.pcs);
    if |s.queue| < TWO_64 {
      SmallDifference(|s.queue|, Count(s.pcs, Popped) - Count(s.pcs, Pushed));
    }
  }

  lemma SmallDifference(x: int, d: int)
    requires 0 <= x < TWO_64 && -TWO_64 < d < TWO_64
    ensures (x + d) % 0x1_0000_0000_0000_0000 == x <==> d == 0
  {
  }

  /** In between, a reader can see the counter wrapped round: an event is popped and
      discounted before its push is counted. */
  lemma DepthCanWrap()
    ensures var steps := [Push(0, 7, true), Pop(1), Decrement(1)];
      Run(2, steps).Some? && Run(2, steps).value.queue == [] && Run(2, steps).value.depth == TWO_64 - 1
  {
    var steps := [Push(0, 7, true), Pop(1), Decrement(1)];
    assert steps[..2] == [Push(0, 7, true), Pop(1)] && steps[..2][..1] == [Push(0, 7, true)];
    assert Run(2, []).value.pcs == [Idle, Idle];
    assert [Push(0, 7, true)][..0] == [];
    assert Run(2, [Push(0, 7, true)]).value == State([7], 0, [Pushed, Idle]);
    assert Run(2, steps[..2]).value == State([], 0, [Pushed, Popped]);
  }
}
