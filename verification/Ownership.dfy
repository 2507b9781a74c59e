/** Who owns an event buffer: in every reachable state each allocated buffer is in
    exactly one place, so it is freed at most once and never handed out twice. */
module Ownership {
  import opened Types
  import opened Segmentation
  import opened Reassembly
  import opened Completion

  /** Dropped and Expired buffers have been freed; Displaced ones are leaked. */
  datatype Location =
    | InProgress(t: nat, k: Key)
    | InQueue(i: nat)
    | Handed(i: nat)
    | Dropped(i: nat)
    | Expired(i: nat)
    | Displaced(i: nat)

  ghost predicate At(s: State, id: nat, w: Location) {
    match w
    case InProgress(t, k) => t < |s.threads| && k in s.threads[t].inProgress && s.threads[t].inProgress[k].buffer == id
    case InQueue(i) => i < |s.sh.queue| && s.sh.queue[i].buffer == id
    case Handed(i) => i < |s.sh.handed| && s.sh.handed[i].buffer == id
    case Dropped(i) => i < |s.sh.finished| && !s.sh.finished[i].queued && s.sh.finished[i].item.buffer == id
    case Expired(i) => i < |s.sh.expired| && s.sh.expired[i].buffer == id
    case Displaced(i) => i < |s.sh.displaced| && s.sh.displaced[i].buffer == id
  }

  ghost predicate Owned(s: State) {
    && (forall id, w1, w2 :: At(s, id, w1) && At(s, id, w2) ==> w1 == w2)
    && (forall id, w :: At(s, id, w) ==> id in s.sh.buffers)
    && (forall id :: id in s.sh.buffers ==> exists w :: At(s, id, w))
  }

  /** operator new never returns the same identity twice. */
  ghost predicate FreshAllocs(steps: seq<Step>) {
    forall i, j :: 0 <= i < j < |steps| && steps[i].Recv? && steps[j].Recv? ==> steps[i].a.id != steps[j].a.id
  }

  /** Where the buffer of the item that a datagram goes into ends up. */
  ghost function Destination(s: State, step: Step): Location
    requires step.Recv? && step.tid < |s.threads|
    requires InBounds(s.threads[step.tid], step.p, step.a, step.now)
  {
    var it := Place(Target(s.threads[step.tid], step.p, step.a, step.now), step.p);
    if it.curBytes != it.bytes then InProgress(step.tid, step.p.key)
    else if step.pushOk then InQueue(|s.sh.queue|)
    else Dropped(|s.sh.finished|)
  }

  /** Where a buffer was before the step; None for the one just allocated. */
  ghost function Before(cfg: Config, s: State, step: Step, w: Location): Option<Location>
    requires WellFormed(cfg, step) && |s.threads| == cfg.numThreads && Next(cfg, s, step).Some?
  {
    match step
    case Recv(tid, p, now, a, pushOk) =>
      if w == Destination(s, step)
      then if Attaches(s.threads[tid], p) then Some(InProgress(tid, p.key)) else None
      else if w == Displaced(|s.sh.displaced|) then Some(InProgress(tid, p.key))
      else Some(w)
    case Gc(tid, key, now) =>
      Some(if w == Expired(|s.sh.expired|) then InProgress(tid, key) else w)
    case Pop =>
      Some(if s.sh.queue == [] then w
           else match w
                case InQueue(i) => InQueue(i + 1)
                case Handed(i) => if i == |s.sh.handed| then InQueue(0) else w
                case _ => w)
    case PopLost => Some(w)
  }

  lemma RecvMovesBuffers(cfg: Config, s: State, step: Step, id: nat, w: Location)
    requires step.Recv? && WellFormed(cfg, step) && |s.threads| == cfg.numThreads
    requires Next(cfg, s, step).Some? && KeysMatch(s)
    requires At(Next(cfg, s, step).value, id, w)
    ensures match Before(cfg, s, step, w)
      case Some(w0) => At(s, id, w0)
      case None => step.Recv? && id == step.a.id && id in Next(cfg, s, step).value.sh.buffers
  {
  }

  lemma OtherMovesBuffers(cfg: Config, s: State, step: Step, id: nat, w: Location)
    requires !step.Recv? && WellFormed(cfg, step) && |s.threads| == cfg.numThreads
    requires Next(cfg, s, step).Some? && KeysMatch(s)
    requires At(Next(cfg, s, step).value, id, w)
    ensures Before(cfg, s, step, w).Some? && At(s, id, Before(cfg, s, step, w).value)
  {
  }

  /** The step moves each buffer from where it was; what is new was allocated. */
  lemma MovesBuffers(cfg: Config, s: State, step: Step, id: nat, w: Location)
    requires WellFormed(cfg, step) && |s.threads| == cfg.numThreads && Next(cfg, s, step).Some? && KeysMatch(s)
    requires At(Next(cfg, s, step).value, id, w)
    ensures match Before(cfg, s, step, w)
      case Some(w0) => At(s, id, w0)
      case None => step.Recv? && id == step.a.id && id in Next(cfg, s, step).value.sh.buffers
  {
    if step.Recv? { RecvMovesBuffers(cfg, s, step, id, w); } else { OtherMovesBuffers(cfg, s, step, id, w); }
  }

  lemma RecvMovesApart(cfg: Config, s: State, step: Step, id: nat, w1: Location, w2: Location)
    requires step.Recv? && WellFormed(cfg, step) && |s.threads| == cfg.numThreads
    requires Next(cfg, s, step).Some? && KeysMatch(s)
    requires At(Next(cfg, s, step).value, id, w1) && At(Next(cfg, s, step).value, id, w2)
    requires Before(cfg, s, step, w1) == Before(cfg, s, step, w2)
    ensures w1 == w2
  {
  }

  lemma OtherMovesApart(cfg: Config, s: State, step: Step, id: nat, w1: Location, w2: Location)
    requires !step.Recv? && WellFormed(cfg, step) && |s.threads| == cfg.numThreads
    requires Next(cfg, s, step).Some? && KeysMatch(s)
    requires At(Next(cfg, s, step).value, id, w1) && At(Next(cfg, s, step).value, id, w2)
    requires Before(cfg, s, step, w1) == Before(cfg, s, step, w2)
    ensures w1 == w2
  {
  }

  /** No two places are filled from the same one. */
  lemma MovesApart(cfg: Config, s: State, step: Step, id: nat, w1: Location, w2: Location)
    requires WellFormed(cfg, step) && |s.threads| == cfg.numThreads && Next(cfg, s, step).Some? && KeysMatch(s)
    requires At(Next(cfg, s, step).value, id, w1) && At(Next(cfg, s, step).value, id, w2)
    requires Before(cfg, s, step, w1) == Before(cfg, s, step, w2)
    ensures w1 == w2
  {
    if step.Recv? { RecvMovesApart(cfg, s, step, id, w1, w2); } else { OtherMovesApart(cfg, s, step, id, w1, w2); }
  }

  /** Where a buffer is after the step. */
  ghost function After(cfg: Config, s: State, step: Step, w: Location): Location
    requires WellFormed(cfg, step) && |s.threads| == cfg.numThreads && Next(cfg, s, step).Some?
  {
    match step
    case Recv(tid, p, now, a, pushOk) =>
      if w != InProgress(tid, p.key) then w
      else if Attaches(s.threads[tid], p) then Destination(s, step)
      else Displaced(|s.sh.displaced|)
    case Gc(tid, key, now) =>
      if w == InProgress(tid, key) && Stale(s.threads[tid], key, now, cfg.timeoutMs)
      then Expired(|s.sh.expired|) else w
    case Pop =>
      (match w
       case InQueue(i) => if i == 0 then Handed(|s.sh.handed|) else InQueue(i - 1)
       case _ => w)
    case PopLost => w
  }

  lemma RecvKeepsBuffers(cfg: Config, s: State, step: Step, id: nat, w: Location)
    requires step.Recv? && WellFormed(cfg, step) && |s.threads| == cfg.numThreads
    requires Next(cfg, s, step).Some? && KeysMatch(s)
    requires At(s, id, w)
    ensures At(Next(cfg, s, step).value, id, After(cfg, s, step, w))
  {
  }

  lemma OtherKeepsBuffers(cfg: Config, s: State, step: Step, id: nat, w: Location)
    requires !step.Recv? && WellFormed(cfg, step) && |s.threads| == cfg.numThreads
    requires Next(cfg, s, step).Some? && KeysMatch(s)
    requires At(s, id, w)
    ensures At(Next(cfg, s, step).value, id, After(cfg, s, step, w))
  {
  }

  lemma KeepsBuffers(cfg: Config, s: State, step: Step, id: nat, w: Location)
    requires WellFormed(cfg, step) && |s.threads| == cfg.numThreads && Next(cfg, s, step).Some? && KeysMatch(s)
    requires At(s, id, w)
    ensures At(Next(cfg, s, step).value, id, After(cfg, s, step, w))
  {
    if step.Recv? { RecvKeepsBuffers(cfg, s, step, id, w); } else { OtherKeepsBuffers(cfg, s, step, id, w); }
  }

  lemma NewBuffer(cfg: Config, s: State, step: Step)
    requires WellFormed(cfg, step) && |s.threads| == cfg.numThreads && Next(cfg, s, step).Some?
    ensures var before, after := s.sh.buffers, Next(cfg, s, step).value.sh.buffers;
      if step.Recv? && !Attaches(s.threads[step.tid], step.p)
      then after == before + {step.a.id} && At(Next(cfg, s, step).value, step.a.id, Destination(s, step))
      else after == before
  {
  }

  lemma StepKeepsOwned(cfg: Config, s: State, step: Step)
    requires WellFormed(cfg, step) && |s.threads| == cfg.numThreads && Next(cfg, s, step).Some?
    requires KeysMatch(s) && Owned(s) && (step.Recv? ==> step.a.id !in s.sh.buffers)
    ensures Owned(Next(cfg, s, step).value)
  {
    var s' := Next(cfg, s, step).value;
    NewBuffer(cfg, s, step);
    forall id, w | At(s', id, w) ensures id in s'.sh.buffers {
      MovesBuffers(cfg, s, step, id, w);
    }
    forall id, w1, w2 | At(s', id, w1) && At(s', id, w2) ensures w1 == w2 {
      MovesBuffers(cfg, s, step, id, w1);
      MovesBuffers(cfg, s, step, id, w2);
      MovesApart(cfg, s, step, id, w1, w2);
    }
    forall id | id in s'.sh.buffers ensures exists w :: At(s', id, w) {
      if id in s.sh.buffers {
        var w :| At(s, id, w);
        KeepsBuffers(cfg, s, step, id, w);
      }
    }
  }

  lemma {:induction false} BuffersAreAllocs(cfg: Config, steps: seq<Step>)
    requires Legal(cfg, steps) && Run(cfg, steps).Some?
    ensures forall id :: id in Run(cfg, steps).value.sh.buffers ==>
      exists i :: 0 <= i < |steps| && steps[i].Recv? && steps[i].a.id == id
  {
    if steps != [] {
      var last, before := steps[|steps| - 1], steps[..|steps| - 1];
      BuffersAreAllocs(cfg, before);
      NewBuffer(cfg, Run(cfg, before).value, last);
      forall id | id in Run(cfg, steps).value.sh.buffers
        ensures exists i :: 0 <= i < |steps| && steps[i].Recv? && steps[i].a.id == id
      {
        if id in Run(cfg, before).value.sh.buffers {
          var i :| 0 <= i < |before| && before[i].Recv? && before[i].a.id == id;
          assert steps[i] == before[i];
        }
      }
    }
  }

  lemma AllocIsFresh(cfg: Config, steps: seq<Step>)
    requires steps != [] && Legal(cfg, steps) && FreshAllocs(steps) && Run(cfg, steps[..|steps| - 1]).Some?
    ensures FreshAllocs(steps[..|steps| - 1])
    ensures steps[|steps| - 1].Recv? ==>
      steps[|steps| - 1].a.id !in Run(cfg, steps[..|steps| - 1]).value.sh.buffers
  {
    BuffersAreAllocs(cfg, steps[..|steps| - 1]);
  }

  /** OWNERSHIP. After any run, whatever arrives, every allocated buffer is in
      exactly one place, and nothing else is in any place. */
  lemma {:induction false} EachBufferIsInOnePlace(cfg: Config, steps: seq<Step>)
    requires Legal(cfg, steps) && Run(cfg, steps).Some? && FreshAllocs(steps)
    ensures Owned(Run(cfg, steps).value)
  {
    if steps != [] {
      var before := steps[..|steps| - 1];
      AllocIsFresh(cfg, steps);
      EachBufferIsInOnePlace(cfg, before);
      RunKeysMatch(cfg, before);
      StepKeepsOwned(cfg, Run(cfg, before).value, steps[|steps| - 1]);
    }
  }

  /** Step i is an offset-0 datagram whose key is already in progress. */
  ghost predicate Collides(cfg: Config, steps: seq<Step>, i: nat)
    requires Legal(cfg, steps) && i < |steps|
  {
    && steps[i].Recv? && steps[i].p.offset == 0 && Run(cfg, steps[..i]).Some?
    && steps[i].p.key in Run(cfg, steps[..i]).value.threads[steps[i].tid].inProgress
  }

  lemma ReceiveDisplaces(th: Thread, sh: Shared, p: Packet, now: int, a: Alloc, pushOk: bool)
    requires InBounds(th, p, a, now)
    ensures Receive(th, sh, p, now, a, pushOk).1.displaced
      == sh.displaced + if p.offset == 0 && p.key in th.inProgress then [th.inProgress[p.key]] else []
  {
  }

  lemma StepCollides(cfg: Config, s: State, step: Step)
    requires WellFormed(cfg, step) && |s.threads| == cfg.numThreads && Next(cfg, s, step).Some?
    ensures var after := Next(cfg, s, step).value.sh.displaced;
      && s.sh.displaced <= after
      && (s.sh.displaced != after <==>
            step.Recv? && step.p.offset == 0 && step.p.key in s.threads[step.tid].inProgress)
  {
    if step.Recv? { ReceiveDisplaces(s.threads[step.tid], s.sh, step.p, step.now, step.a, step.pushOk); }
  }

  /** The last step of a run displaces something exactly when it collides. */
  lemma LastCollides(cfg: Config, steps: seq<Step>)
    requires Legal(cfg, steps) && Run(cfg, steps).Some? && steps != []
    ensures var before, after := Run(cfg, steps[..|steps| - 1]).value.sh.displaced, Run(cfg, steps).value.sh.displaced;
      before <= after && (Collides(cfg, steps, |steps| - 1) <==> before != after)
  {
    StepCollides(cfg, Run(cfg, steps[..|steps| - 1]).value, steps[|steps| - 1]);
  }

  /** The displaced class grows only when an offset-0 datagram meets an entry for
      its key. */
  lemma {:induction false} NoLeakWithoutCollision(cfg: Config, steps: seq<Step>)
    requires Legal(cfg, steps) && Run(cfg, steps).Some?
    ensures Run(cfg, steps).value.sh.displaced == [] <==>
      forall i :: 0 <= i < |steps| ==> !Collides(cfg, steps, i)
  {
    if steps != [] {
      var before := steps[..|steps| - 1];
      NoLeakWithoutCollision(cfg, before);
      forall i | 0 <= i < |before| ensures Collides(cfg, before, i) <==> Collides(cfg, steps, i) {
        assert before[..i] == steps[..i];
      }
      LastCollides(cfg, steps);
    }
  }
}
