/** Keys do not interfere, and when the network keeps its side of the bargain
    every event is delivered, in the order in which events became complete. */
module Delivery {
  import opened Types
  import opened Segmentation
  import opened Reassembly
  import opened Assembly
  import opened Safety
  import opened Completion

  // ---- Non-interference ---------------------------------------------------

  predicate Concerns(step: Step, t: nat, k: Key) {
    || (step.Recv? && step.tid == t && step.p.key == k)
    || (step.Gc? && step.tid == t && step.key == k)
  }

  /** The steps of a run that concern key k at thread t. */
  ghost function Projection(steps: seq<Step>, t: nat, k: Key): seq<Step> {
    if steps == [] then []
    else
      var last := steps[|steps| - 1];
      Projection(steps[..|steps| - 1], t, k) + if Concerns(last, t, k) then [last] else []
  }

  /** All that a thread knows about a key. */
  datatype Slot = Slot(entry: Option<Item>, lost: bool)

  function SlotOf(th: Thread, k: Key): Slot {
    Slot(if k in th.inProgress then Some(th.inProgress[k]) else None, k in th.lostEvents)
  }

  lemma ReceiveReadsItsSlot(th1: Thread, sh1: Shared, th2: Thread, sh2: Shared,
                            p: Packet, now: int, a: Alloc, pushOk: bool)
    requires SlotOf(th1, p.key) == SlotOf(th2, p.key)
    requires p.key in th1.inProgress ==> th1.inProgress[p.key].key == p.key
    requires InBounds(th1, p, a, now)
    ensures InBounds(th2, p, a, now)
    ensures SlotOf(Receive(th1, sh1, p, now, a, pushOk).0, p.key)
      == SlotOf(Receive(th2, sh2, p, now, a, pushOk).0, p.key)
  {
    assert p.key in th1.inProgress <==> p.key in th2.inProgress;
    assert p.key in th1.inProgress ==> th1.inProgress[p.key] == th2.inProgress[p.key];
    assert Target(th1, p, a, now) == Target(th2, p, a, now);
  }

  lemma CollectReadsItsSlot(th1: Thread, sh1: Shared, th2: Thread, sh2: Shared, k: Key, now: int, timeoutMs: int)
    requires SlotOf(th1, k) == SlotOf(th2, k)
    requires k in th1.inProgress ==> th1.inProgress[k].key == k
    ensures SlotOf(Collect(th1, sh1, k, now, timeoutMs).0, k) == SlotOf(Collect(th2, sh2, k, now, timeoutMs).0, k)
  {
    assert k in th1.inProgress <==> k in th2.inProgress;
    assert k in th1.inProgress ==> th1.inProgress[k] == th2.inProgress[k];
  }

  lemma OtherStepsKeepSlot(cfg: Config, s: State, step: Step, t: nat, k: Key)
    requires WellFormed(cfg, step) && |s.threads| == cfg.numThreads && t < cfg.numThreads
    requires !Concerns(step, t, k) && Next(cfg, s, step).Some? && KeysMatch(s)
    ensures SlotOf(Next(cfg, s, step).value.threads[t], k) == SlotOf(s.threads[t], k)
  {
  }

  lemma OwnStepReadsItsSlot(cfg: Config, s1: State, s2: State, step: Step, t: nat, k: Key)
    requires WellFormed(cfg, step) && |s1.threads| == |s2.threads| == cfg.numThreads && t < cfg.numThreads
    requires Concerns(step, t, k) && KeysMatch(s1) && Next(cfg, s1, step).Some?
    requires SlotOf(s1.threads[t], k) == SlotOf(s2.threads[t], k)
    ensures Next(cfg, s2, step).Some?
    ensures SlotOf(Next(cfg, s1, step).value.threads[t], k) == SlotOf(Next(cfg, s2, step).value.threads[t], k)
  {
    if step.Recv? {
      ReceiveReadsItsSlot(s1.threads[t], s1.sh, s2.threads[t], s2.sh, step.p, step.now, step.a, step.pushOk);
    } else {
      CollectReadsItsSlot(s1.threads[t], s1.sh, s2.threads[t], s2.sh, k, step.now, cfg.timeoutMs);
    }
  }

  /** NON-INTERFERENCE. What a thread knows about a key after a run is what it
      would know had only the steps about that key happened. */
  lemma {:induction false} KeyDependsOnItsOwnSteps(cfg: Config, steps: seq<Step>, t: nat, k: Key)
    requires Legal(cfg, steps) && Run(cfg, steps).Some? && t < cfg.numThreads
    ensures Legal(cfg, Projection(steps, t, k)) && Run(cfg, Projection(steps, t, k)).Some?
    ensures SlotOf(Run(cfg, steps).value.threads[t], k) == SlotOf(Run(cfg, Projection(steps, t, k)).value.threads[t], k)
  {
    if steps != [] {
      var last, before := steps[|steps| - 1], steps[..|steps| - 1];
      KeyDependsOnItsOwnSteps(cfg, before, t, k);
      var s1, s2 := Run(cfg, before).value, Run(cfg, Projection(before, t, k)).value;
      RunKeysMatch(cfg, before);
      if Concerns(last, t, k) {
        var own := Projection(steps, t, k);
        assert own[..|own| - 1] == Projection(before, t, k);
        OwnStepReadsItsSlot(cfg, s1, s2, last, t, k);
      } else {
        assert Projection(steps, t, k) == Projection(before, t, k);
        OtherStepsKeepSlot(cfg, s1, last, t, k);
      }
    }
  }

  // ---- Completeness -------------------------------------------------------

  type Route = map<Key, nat>

  /** Every key of the traffic reaches one thread, in fragments that arrive at most
      once, and is never expired. */
  ghost predicate AllTraced(cfg: Config, sent: Traffic, route: Route, steps: seq<Step>) {
    && sent.Keys <= route.Keys
    && forall k :: k in sent ==> Traced(cfg, steps, k, sent[k], route[k])
  }

  /** No key starts with a fragment other than the one at offset 0. */
  ghost predicate ZeroFirst(sent: Traffic, steps: seq<Step>) {
    forall k :: k in sent ==> FirstOf(steps, k) in {None, Some(0)}
  }

  /** The order in which the last missing fragments arrive. */
  ghost function ArrivalOrder(sent: Traffic, steps: seq<Step>): seq<Key>
    requires forall k :: k in sent ==> Sendable(sent[k])
  {
    if steps == [] then []
    else
      var last := steps[|steps| - 1];
      ArrivalOrder(sent, steps[..|steps| - 1])
      + if last.Recv? && last.p.key in sent && Offsets(sent[last.p.key]) <= Arrived(steps, last.p.key)
        then [last.p.key] else []
  }

  /** In the run up to a datagram of k and in the run through it, k is finished
      exactly if all its fragments have arrived. */
  lemma FinishedIffArrived(cfg: Config, sent: Traffic, route: Route, steps: seq<Step>, k: Key)
    requires Legal(cfg, steps) && AllTraced(cfg, sent, route, steps) && ZeroFirst(sent, steps) && k in sent
    ensures k in Keys(Run(cfg, steps).value.sh.finished) <==> Offsets(sent[k]) <= Arrived(steps, k)
  {
    CompletesIffZeroFirst(cfg, steps, k, sent[k], route[k]);
    LiveArrivals(steps, k);
    StartIsAlignedDown(sent[k], 0);
    assert 0 in Offsets(sent[k]);
  }

  /** Steps other than datagrams finish nothing. */
  lemma FinishedGrows(cfg: Config, s: State, step: Step)
    requires WellFormed(cfg, step) && |s.threads| == cfg.numThreads && Next(cfg, s, step).Some? && KeysMatch(s)
    ensures var before, after := Keys(s.sh.finished), Keys(Next(cfg, s, step).value.sh.finished);
      if step.Recv? then after == before || after == before + [step.p.key] else after == before
  {
    if step.Recv? {
      var th := s.threads[step.tid];
      var it := Place(Target(th, step.p, step.a, step.now), step.p);
      ReceiveEffect(th, s.sh, step.p, step.now, step.a, step.pushOk);
      AppendKey(s.sh.finished, Finish(it, step.pushOk));
      assert it.key == step.p.key;
    }
  }

  lemma {:induction false} FinishOrder(cfg: Config, sent: Traffic, route: Route, steps: seq<Step>)
    requires Legal(cfg, steps) && Run(cfg, steps).Some? && Honest(sent, steps)
    requires AllTraced(cfg, sent, route, steps) && ZeroFirst(sent, steps)
    ensures Keys(Run(cfg, steps).value.sh.finished) == ArrivalOrder(sent, steps)
  {
    if steps != [] {
      var last, before := steps[|steps| - 1], steps[..|steps| - 1];
      forall k | k in sent ensures Traced(cfg, before, k, sent[k], route[k]) {
        TracedPrefix(cfg, steps, k, sent[k], route[k]);
      }
      FinishOrder(cfg, sent, route, before);
      RunKeysMatch(cfg, before);
      FinishedGrows(cfg, Run(cfg, before).value, last);
      if last.Recv? {
        var k := last.p.key;
        FinishedIffArrived(cfg, sent, route, before, k);
        FinishedIffArrived(cfg, sent, route, steps, k);
        OnceStep(steps, k);
        FragmentOffset(k, sent[k], last.p);
      }
    }
  }

  lemma {:induction false} PushedKeys(fin: seq<Finish>)
    requires forall i :: 0 <= i < |fin| ==> fin[i].queued
    ensures ItemKeys(Pushed(fin)) == Keys(fin)
  {
    if fin != [] {
      var before := fin[..|fin| - 1];
      PushedKeys(before);
      AppendItemKey(Pushed(before), fin[|fin| - 1].item);
      assert fin == before + [fin[|fin| - 1]];
    }
  }

  lemma {:induction false} PushesSucceed(cfg: Config, steps: seq<Step>)
    requires Legal(cfg, steps) && Run(cfg, steps).Some?
    requires forall i :: 0 <= i < |steps| && steps[i].Recv? ==> steps[i].pushOk
    ensures forall i :: 0 <= i < |Run(cfg, steps).value.sh.finished| ==> Run(cfg, steps).value.sh.finished[i].queued
  {
    if steps != [] {
      PushesSucceed(cfg, steps[..|steps| - 1]);
    }
  }

  /** COMPLETENESS. Non-empty events with distinct keys, every datagram exactly
      once and at one thread per key, offset 0 before the others, no expiry and no
      failing push: exactly those events are queued, whole, in the order in which
      they became complete, and nothing is left over. */
  lemma EverythingIsDelivered(cfg: Config, sent: Traffic, route: Route, steps: seq<Step>)
    requires Legal(cfg, steps) && Honest(sent, steps) && AtMostOnce(steps)
    requires Run(cfg, steps).Some? ==> AllTraced(cfg, sent, route, steps)
    requires forall k :: k in sent ==>
      Sendable(sent[k]) && Arrived(steps, k) == Offsets(sent[k]) && FirstOf(steps, k) == Some(0)
    requires forall i :: 0 <= i < |steps| && steps[i].Recv? ==> steps[i].pushOk
    ensures Run(cfg, steps).Some?
    ensures var s := Run(cfg, steps).value;
      && ItemKeys(Queued(s.sh)) == ArrivalOrder(sent, steps)
      && (forall k :: k in ItemKeys(Queued(s.sh)) <==> k in sent)
      && (forall it :: it in Queued(s.sh) ==> it.key in sent && it.event == sent[it.key].event)
      && (forall t :: 0 <= t < |s.threads| ==> s.threads[t].inProgress == map[])
      && s.sh.displaced == []
  {
    QueuedEventsAreSentEvents(cfg, sent, steps);
    RunIsSafe(cfg, sent, steps);
    var s := Run(cfg, steps).value;
    FinishOrder(cfg, sent, route, steps);
    PushesSucceed(cfg, steps);
    PushedKeys(s.sh.finished);
    forall k ensures k in ItemKeys(Queued(s.sh)) <==> k in sent {
      if k in sent { FinishedIffArrived(cfg, sent, route, steps, k); }
      if k in Keys(s.sh.finished) {
        var i :| 0 <= i < |s.sh.finished| && Keys(s.sh.finished)[i] == k;
        assert DoneOk(s.sh.finished[i].item, sent, Seen(steps));
      }
    }
    forall t, k | 0 <= t < |s.threads| ensures k !in s.threads[t].inProgress {
      NothingInProgress(cfg, sent, route, steps, t, k);
    }
    NothingDisplaced(cfg, sent, route, steps);
  }

  lemma NothingInProgress(cfg: Config, sent: Traffic, route: Route, steps: seq<Step>, t: nat, k: Key)
    requires Legal(cfg, steps) && Run(cfg, steps).Some? && AllTraced(cfg, sent, route, steps)
    requires Safe(Run(cfg, steps).value, sent, Seen(steps)) && t < cfg.numThreads
    requires forall k :: k in sent ==>
      Sendable(sent[k]) && Arrived(steps, k) == Offsets(sent[k]) && FirstOf(steps, k) == Some(0)
    ensures k !in Run(cfg, steps).value.threads[t].inProgress
  {
    var th := Run(cfg, steps).value.threads[t];
    assert ThreadOk(th, sent, Seen(steps));
    if k in sent {
      KeyFollowsArrivals(cfg, steps, k, sent[k], route[k]);
      LiveArrivals(steps, k);
    } else {
      assert k in th.inProgress ==> ItemOk(th.inProgress[k], k, sent, Seen(steps));
    }
  }

  lemma NothingDisplaced(cfg: Config, sent: Traffic, route: Route, steps: seq<Step>)
    requires Legal(cfg, steps) && Run(cfg, steps).Some? && AllTraced(cfg, sent, route, steps)
    requires Honest(sent, steps)
    requires forall k :: k in sent ==> FirstOf(steps, k) == Some(0)
    ensures Run(cfg, steps).value.sh.displaced == []
  {
    var sh := Run(cfg, steps).value.sh;
    DisplacedKeysSent(cfg, sent, steps);
    if sh.displaced != [] {
      var k := sh.displaced[0].key;
      assert ItemKeys(sh.displaced)[0] == k;
      CompletesIffZeroFirst(cfg, steps, k, sent[k], route[k]);
      assert false;
    }
  }

  lemma {:induction false} DisplacedKeysSent(cfg: Config, sent: Traffic, steps: seq<Step>)
    requires Legal(cfg, steps) && Run(cfg, steps).Some? && Honest(sent, steps)
    ensures var s := Run(cfg, steps).value;
      forall i :: 0 <= i < |s.sh.displaced| ==> s.sh.displaced[i].key in sent
  {
    if steps != [] {
      DisplacedKeysSent(cfg, sent, steps[..|steps| - 1]);
      RunKeysMatch(cfg, steps[..|steps| - 1]);
    }
  }
}
