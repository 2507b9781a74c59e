/** Safety over every run: whatever the network loses, reorders or delays, and
    however threads, collector and user interleave, an event that reaches the
    queue is the event that was sent under its key. */
module Safety {
  import opened Types
  import opened Wire
  import opened Segmentation
  import opened Reassembly
  import opened Assembly

  /** The events sent, by key; each with the payload limit of its segmenter. */
  type Traffic = map<Key, Sent>

  /** Every datagram that arrives is a fragment of an event that was sent. */
  ghost predicate Honest(sent: Traffic, steps: seq<Step>) {
    forall i :: 0 <= i < |steps| && steps[i].Recv? ==> HonestPacket(sent, steps[i].p)
  }

  ghost predicate HonestPacket(sent: Traffic, p: Packet) {
    p.key in sent && IsFragment(p.key, sent[p.key], p)
  }

  /** No datagram arrives twice, at whichever thread. */
  ghost predicate AtMostOnce(steps: seq<Step>) {
    forall i, j :: 0 <= i < j < |steps| && steps[i].Recv? && steps[j].Recv? ==>
      (steps[i].p.key, steps[i].p.offset) != (steps[j].p.key, steps[j].p.offset)
  }

  /** The fragments delivered by a run. */
  ghost function Seen(steps: seq<Step>): set<(Key, nat)> {
    set i | 0 <= i < |steps| && steps[i].Recv? :: (steps[i].p.key, steps[i].p.offset as nat)
  }

  ghost predicate ItemOk(it: Item, k: Key, sent: Traffic, seen: set<(Key, nat)>) {
    k in sent && exists got :: Holds(it, k, sent[k], got) && Among(k, got, seen)
  }

  ghost predicate Among(k: Key, offsets: set<nat>, seen: set<(Key, nat)>) {
    forall o :: o in offsets ==> (k, o) in seen
  }

  ghost predicate ThreadOk(th: Thread, sent: Traffic, seen: set<(Key, nat)>) {
    forall k :: k in th.inProgress ==> ItemOk(th.inProgress[k], k, sent, seen)
  }

  /** The item is the event sent under its key, and all of it has arrived. */
  ghost predicate DoneOk(it: Item, sent: Traffic, seen: set<(Key, nat)>) {
    && it.key in sent && Sendable(sent[it.key])
    && it.event == sent[it.key].event && it.bytes == |it.event|
    && Among(it.key, Offsets(sent[it.key]), seen)
  }

  ghost predicate FinishedOk(fin: seq<Finish>, sent: Traffic, seen: set<(Key, nat)>) {
    && (forall i :: 0 <= i < |fin| ==> DoneOk(fin[i].item, sent, seen))
    && forall i, j :: 0 <= i < j < |fin| ==> fin[i].item.key != fin[j].item.key
  }

  /** The finished events that the queue took. */
  function Pushed(fin: seq<Finish>): seq<Item> {
    if fin == [] then []
    else
      var last := fin[|fin| - 1];
      Pushed(fin[..|fin| - 1]) + if last.queued then [last.item] else []
  }

  ghost predicate Safe(s: State, sent: Traffic, seen: set<(Key, nat)>) {
    && (forall t :: 0 <= t < |s.threads| ==> ThreadOk(s.threads[t], sent, seen))
    && FinishedOk(s.sh.finished, sent, seen)
    && Queued(s.sh) == Pushed(s.sh.finished)
  }

  lemma SeenMore(th: Thread, fin: seq<Finish>, sent: Traffic, seen: set<(Key, nat)>, seen': set<(Key, nat)>)
    requires seen <= seen'
    ensures ThreadOk(th, sent, seen) ==> ThreadOk(th, sent, seen')
    ensures FinishedOk(fin, sent, seen) ==> FinishedOk(fin, sent, seen')
  {
    if ThreadOk(th, sent, seen) {
      forall k | k in th.inProgress ensures ItemOk(th.inProgress[k], k, sent, seen') {
        assert ItemOk(th.inProgress[k], k, sent, seen);
        var got :| Holds(th.inProgress[k], k, sent[k], got) && Among(k, got, seen);
        assert Among(k, got, seen');
      }
    }
  }

  lemma PlacesInto(it: Item, got: set<nat>, p: Packet, sent: Traffic, seen: set<(Key, nat)>)
    requires HonestPacket(sent, p) && (p.key, p.offset) !in seen
    requires Holds(it, p.key, sent[p.key], got) && Among(p.key, got, seen)
    ensures p.offset + |p.payload| <= |it.event|
    ensures ItemOk(Place(it, p), p.key, sent, seen + {(p.key, p.offset)})
  {
    Absorbs(it, p.key, sent[p.key], got, p);
    assert Among(p.key, got + {p.offset}, seen + {(p.key, p.offset)});
  }

  /** A datagram that has not been seen is copied in bounds into an item that
      stays correct. */
  lemma PlacesSafely(th: Thread, p: Packet, now: int, a: Alloc, sent: Traffic, seen: set<(Key, nat)>)
    requires ThreadOk(th, sent, seen) && HonestPacket(sent, p) && (p.key, p.offset) !in seen
    requires |a.contents| == p.length
    ensures InBounds(th, p, a, now)
    ensures ItemOk(Place(Target(th, p, a, now), p), p.key, sent, seen + {(p.key, p.offset)})
  {
    if Attaches(th, p) {
      var it := th.inProgress[p.key];
      assert ItemOk(it, p.key, sent, seen);
      var got :| Holds(it, p.key, sent[p.key], got) && Among(p.key, got, seen);
      PlacesInto(it, got, p, sent, seen);
    } else {
      FreshHolds(p, p.key, sent[p.key], a, now);
      PlacesInto(FromHeader(p, a, now), {}, p, sent, seen);
    }
  }

  /** The step in terms of the map, the finished events and the queue only. */
  lemma ReceiveEffect(th: Thread, sh: Shared, p: Packet, now: int, a: Alloc, pushOk: bool)
    requires InBounds(th, p, a, now)
    ensures var (th', sh') := Receive(th, sh, p, now, a, pushOk);
      var it := Place(Target(th, p, a, now), p);
      if it.curBytes == it.bytes
      then && th'.inProgress == th.inProgress - {it.key}
           && sh'.finished == sh.finished + [Finish(it, pushOk)]
           && Queued(sh') == Queued(sh) + (if pushOk then [it] else [])
      else && th'.inProgress == th.inProgress[p.key := it]
           && sh'.finished == sh.finished && Queued(sh') == Queued(sh)
  {
  }

  lemma FinishIsSafe(fin: seq<Finish>, it: Item, pushOk: bool, p: Packet,
                     sent: Traffic, seen: set<(Key, nat)>, seen': set<(Key, nat)>)
    requires FinishedOk(fin, sent, seen) && seen <= seen'
    requires DoneOk(it, sent, seen') && HonestPacket(sent, p) && p.key == it.key && (p.key, p.offset) !in seen
    ensures FinishedOk(fin + [Finish(it, pushOk)], sent, seen')
    ensures Pushed(fin + [Finish(it, pushOk)]) == Pushed(fin) + (if pushOk then [it] else [])
  {
    FragmentOffset(p.key, sent[p.key], p);
    forall i | 0 <= i < |fin| ensures fin[i].item.key != p.key && DoneOk(fin[i].item, sent, seen') {
      assert DoneOk(fin[i].item, sent, seen);
    }
    var fin' := fin + [Finish(it, pushOk)];
    assert fin'[..|fin'| - 1] == fin;
  }

  lemma ReceiveIsSafe(th: Thread, sh: Shared, p: Packet, now: int, a: Alloc, pushOk: bool,
                      sent: Traffic, seen: set<(Key, nat)>)
    requires ThreadOk(th, sent, seen) && FinishedOk(sh.finished, sent, seen)
    requires Queued(sh) == Pushed(sh.finished)
    requires HonestPacket(sent, p) && (p.key, p.offset) !in seen && |a.contents| == p.length
    ensures InBounds(th, p, a, now)
    ensures var (th', sh') := Receive(th, sh, p, now, a, pushOk);
      var seen' := seen + {(p.key, p.offset)};
      ThreadOk(th', sent, seen') && FinishedOk(sh'.finished, sent, seen') && Queued(sh') == Pushed(sh'.finished)
  {
    var seen' := seen + {(p.key, p.offset as nat)};
    PlacesSafely(th, p, now, a, sent, seen);
    SeenMore(th, sh.finished, sent, seen, seen');
    ReceiveEffect(th, sh, p, now, a, pushOk);
    var it := Place(Target(th, p, a, now), p);
    if it.curBytes == it.bytes {
      var got :| Holds(it, p.key, sent[p.key], got) && Among(p.key, got, seen');
      CountsAll(it, p.key, sent[p.key], got);
      FinishIsSafe(sh.finished, it, pushOk, p, sent, seen, seen');
    }
  }

  lemma SeenStep(steps: seq<Step>)
    requires steps != []
    ensures var last, before := steps[|steps| - 1], steps[..|steps| - 1];
      && Seen(steps) == Seen(before) + (if last.Recv? then {(last.p.key, last.p.offset as nat)} else {})
      && (AtMostOnce(steps) ==> AtMostOnce(before) && (last.Recv? ==> (last.p.key, last.p.offset) !in Seen(before)))
  {
    var last, before := steps[|steps| - 1], steps[..|steps| - 1];
    forall x ensures x in Seen(steps)
      <==> x in Seen(before) || (last.Recv? && x == (last.p.key, last.p.offset as nat))
    {
      if x in Seen(steps) {
        var i :| 0 <= i < |steps| && steps[i].Recv? && x == (steps[i].p.key, steps[i].p.offset as nat);
        if i < |before| { assert before[i] == steps[i]; }
      }
      if x in Seen(before) {
        var i :| 0 <= i < |before| && before[i].Recv? && x == (before[i].p.key, before[i].p.offset as nat);
        assert steps[i] == before[i];
      }
    }
  }

  /** The collector, the user and the loss reader only take entries away. */
  lemma OthersAreSafe(cfg: Config, s: State, step: Step, sent: Traffic, seen: set<(Key, nat)>)
    requires WellFormed(cfg, step) && |s.threads| == cfg.numThreads && !step.Recv?
    requires Safe(s, sent, seen)
    ensures Next(cfg, s, step).Some? && Safe(Next(cfg, s, step).value, sent, seen)
  {
    assert forall t :: 0 <= t < |s.threads| ==> ThreadOk(s.threads[t], sent, seen);
    if step.Pop? && s.sh.queue != [] {
      assert Queued(Dequeue(s.sh)) == Queued(s.sh);
    }
  }

  lemma ReceivingIsSafe(cfg: Config, s: State, step: Step, sent: Traffic, seen: set<(Key, nat)>)
    requires WellFormed(cfg, step) && |s.threads| == cfg.numThreads && step.Recv?
    requires Safe(s, sent, seen) && HonestPacket(sent, step.p) && (step.p.key, step.p.offset) !in seen
    ensures Next(cfg, s, step).Some? && Safe(Next(cfg, s, step).value, sent, seen + {(step.p.key, step.p.offset)})
  {
    var seen' := seen + {(step.p.key, step.p.offset as nat)};
    ReceiveIsSafe(s.threads[step.tid], s.sh, step.p, step.now, step.a, step.pushOk, sent, seen);
    forall t | 0 <= t < |s.threads| ensures ThreadOk(s.threads[t], sent, seen') {
      SeenMore(s.threads[t], [], sent, seen, seen');
    }
  }

  /** The invariant of every run. */
  lemma {:induction false} RunIsSafe(cfg: Config, sent: Traffic, steps: seq<Step>)
    requires Legal(cfg, steps) && Honest(sent, steps) && AtMostOnce(steps)
    ensures Run(cfg, steps).Some? && Safe(Run(cfg, steps).value, sent, Seen(steps))
  {
    if steps != [] {
      var last, before := steps[|steps| - 1], steps[..|steps| - 1];
      SeenStep(steps);
      RunIsSafe(cfg, sent, before);
      if last.Recv? {
        ReceivingIsSafe(cfg, Run(cfg, before).value, last, sent, Seen(before));
      } else {
        OthersAreSafe(cfg, Run(cfg, before).value, last, sent, Seen(before));
      }
    }
  }

  lemma {:induction false} PushedFrom(fin: seq<Finish>, it: Item)
    ensures it in Pushed(fin) <==> Finish(it, true) in fin
  {
    if fin != [] { PushedFrom(fin[..|fin| - 1], it); }
  }

  lemma {:induction false} PushedKeysDiffer(fin: seq<Finish>)
    requires forall i, j :: 0 <= i < j < |fin| ==> fin[i].item.key != fin[j].item.key
    ensures forall i, j :: 0 <= i < j < |Pushed(fin)| ==> Pushed(fin)[i].key != Pushed(fin)[j].key
  {
    if fin != [] {
      var before := fin[..|fin| - 1];
      PushedKeysDiffer(before);
      forall i | 0 <= i < |Pushed(before)| ensures Pushed(before)[i].key != fin[|fin| - 1].item.key {
        PushedFrom(before, Pushed(before)[i]);
      }
    }
  }

  /** SAFETY. No copy ever leaves its buffer; every event ever queued is byte for
      byte the event segmented under its key; no key is queued twice. */
  lemma QueuedEventsAreSentEvents(cfg: Config, sent: Traffic, steps: seq<Step>)
    requires Legal(cfg, steps) && Honest(sent, steps) && AtMostOnce(steps)
    ensures Run(cfg, steps).Some?
    ensures forall it :: it in Queued(Run(cfg, steps).value.sh) ==>
      it.key in sent && it.event == sent[it.key].event && it.bytes == |it.event|
    ensures var q := Queued(Run(cfg, steps).value.sh);
      forall i, j :: 0 <= i < j < |q| ==> q[i].key != q[j].key
  {
    RunIsSafe(cfg, sent, steps);
    var fin := Run(cfg, steps).value.sh.finished;
    PushedKeysDiffer(fin);
    forall it | it in Pushed(fin) ensures DoneOk(it, sent, Seen(steps)) {
      PushedFrom(fin, it);
    }
  }
}
