/** The bytes the segmenter sends, through the network, to the events the user
    gets: the safety theorem with the wire formats in between. */
module EndToEnd {
  import opened Types
  import opened Wire
  import opened Segmentation
  import opened Segmenter
  import opened Reassembly
  import opened Assembly
  import opened Safety
  import opened Completion
  import opened Delivery

  /** A frame as recvfrom returns it, or any step that is not a reception. */
  datatype Input =
    | Frame(tid: nat, bytes: seq<u8>, now: int, a: Alloc, pushOk: bool)
    | Other(step: Step)

  /** recvfrom never returns more than the receive buffer holds. */
  function Recvfrom(d: seq<u8>): seq<u8> {
    if |d| <= RECV_BUFFER_SIZE then d else d[..RECV_BUFFER_SIZE]
  }

  /** A datagram behind a load balancer that strips its header, or not. */
  function AsReceived(withLB: bool, w: seq<u8>): seq<u8> {
    if withLB || |w| < LB_LEN then w else w[LB_LEN..]
  }

  /** d is a datagram that the segmenter plans to send for event k, as it arrives
      with the load-balancer header or without it. */
  ghost predicate Genuine(withLB: bool, sent: Traffic, lbs: map<Key, LBFields>, k: Key, d: seq<u8>) {
    && k in sent && k in lbs && Sendable(sent[k])
    && exists w :: w in Datagrams(lbs[k], Cut(k, sent[k])) && d == AsReceived(withLB, w)
  }

  /** Every payload limit comes from an MTU that the segmenter accepts. */
  ghost predicate LimitsFit(sent: Traffic) {
    forall k :: k in sent ==> Sendable(sent[k]) && exists mtu, v6 :: MaxPayload(mtu, v6) == Ok(sent[k].limit)
  }

  /** The step of the state machine that an input drives. */
  function Decode(withLB: bool, i: Input): Option<Step> {
    match i
    case Other(step) => if step.Recv? then None else Some(step)
    case Frame(tid, bytes, now, a, pushOk) =>
      match Parse(withLB, Recvfrom(bytes))
      case Good(p) => Some(Recv(tid, p, now, a, pushOk))
      case _ => None
  }

  ghost predicate Decodes(withLB: bool, inputs: seq<Input>, steps: seq<Step>) {
    |steps| == |inputs| && forall i :: 0 <= i < |inputs| ==> Decode(withLB, inputs[i]) == Some(steps[i])
  }

  lemma {:induction false} DatagramsFrom(lb: LBFields, ps: seq<Packet>, w: seq<u8>)
    ensures w in Datagrams(lb, ps) <==> exists p :: p in ps && w == Datagram(lb, p)
  {
    if ps != [] {
      DatagramsFrom(lb, ps[1..], w);
      assert ps == [ps[0]] + ps[1..];
    }
  }

  /** A genuine frame fits the receive buffer, validates, and is read as the
      fragment that was sent. */
  lemma GenuineParses(withLB: bool, sent: Traffic, lbs: map<Key, LBFields>, k: Key, d: seq<u8>) returns (p: Packet)
    requires Genuine(withLB, sent, lbs, k, d) && LimitsFit(sent)
    ensures Recvfrom(d) == d && Parse(withLB, d) == Good(p) && IsFragment(k, sent[k], p) && p.key == k
    ensures d == AsReceived(withLB, Datagram(lbs[k], p))
  {
    var w :| w in Datagrams(lbs[k], Cut(k, sent[k])) && d == AsReceived(withLB, w);
    DatagramsFrom(lbs[k], Cut(k, sent[k]), w);
    p :| p in Cut(k, sent[k]) && w == Datagram(lbs[k], p);
    CutIsFragments(k, sent[k]);
    FragmentParses(withLB, lbs[k], k, sent[k], p);
  }

  lemma FragmentParses(withLB: bool, lb: LBFields, k: Key, e: Sent, p: Packet)
    requires IsFragment(k, e, p) && exists mtu, v6 :: MaxPayload(mtu, v6) == Ok(e.limit)
    ensures var d := AsReceived(withLB, Datagram(lb, p));
      Recvfrom(d) == d && Parse(withLB, d) == Good(p)
  {
    var mtu, v6 :| MaxPayload(mtu, v6) == Ok(e.limit);
    DatagramParses(lb, p);
    assert |p.payload| <= e.limit;
  }

  lemma FragmentsByOffset(k: Key, e: Sent, p: Packet, q: Packet)
    requires IsFragment(k, e, p) && IsFragment(k, e, q) && p.offset == q.offset
    ensures p == q
  {
  }

  ghost predicate GenuineFrame(withLB: bool, sent: Traffic, lbs: map<Key, LBFields>, i: Input) {
    i.Frame? && exists k :: Genuine(withLB, sent, lbs, k, i.bytes)
  }

  lemma FrameIsHonest(withLB: bool, sent: Traffic, lbs: map<Key, LBFields>, i: Input)
    requires LimitsFit(sent) && GenuineFrame(withLB, sent, lbs, i)
    ensures Decode(withLB, i).Some? && Decode(withLB, i).value.Recv?
    ensures HonestPacket(sent, Decode(withLB, i).value.p)
  {
    var k :| Genuine(withLB, sent, lbs, k, i.bytes);
    var p := GenuineParses(withLB, sent, lbs, k, i.bytes);
  }

  /** Frames that differ carry different fragments. */
  lemma FramesDiffer(withLB: bool, sent: Traffic, lbs: map<Key, LBFields>, i: Input, j: Input)
    requires LimitsFit(sent) && GenuineFrame(withLB, sent, lbs, i) && GenuineFrame(withLB, sent, lbs, j)
    requires Decode(withLB, i).Some? && Decode(withLB, j).Some? && i.bytes != j.bytes
    ensures var p, q := Decode(withLB, i).value.p, Decode(withLB, j).value.p;
      (p.key, p.offset) != (q.key, q.offset)
  {
    var k1 :| Genuine(withLB, sent, lbs, k1, i.bytes);
    var k2 :| Genuine(withLB, sent, lbs, k2, j.bytes);
    var p := GenuineParses(withLB, sent, lbs, k1, i.bytes);
    var q := GenuineParses(withLB, sent, lbs, k2, j.bytes);
    if p.key == q.key && p.offset == q.offset { FragmentsByOffset(k1, sent[k1], p, q); }
  }

  /** What may come from outside: frames that are planned datagrams, none of them
      twice, and the steps of the collector, the user and the loss reader. */
  ghost predicate Genuinely(cfg: Config, withLB: bool, sent: Traffic, lbs: map<Key, LBFields>, inputs: seq<Input>) {
    && LimitsFit(sent)
    && (forall i :: 0 <= i < |inputs| && inputs[i].Frame? ==> GenuineFrame(withLB, sent, lbs, inputs[i]))
    && (forall i, j :: 0 <= i < j < |inputs| && inputs[i].Frame? && inputs[j].Frame? ==>
          inputs[i].bytes != inputs[j].bytes)
    && (forall i :: 0 <= i < |inputs| && Decode(withLB, inputs[i]).Some? ==>
          WellFormed(cfg, Decode(withLB, inputs[i]).value))
    && forall i :: 0 <= i < |inputs| && inputs[i].Other? ==> !inputs[i].step.Recv?
  }

  /** Such inputs drive a run of the state machine. */
  lemma DrivesRun(cfg: Config, withLB: bool, sent: Traffic, lbs: map<Key, LBFields>, inputs: seq<Input>)
    returns (steps: seq<Step>)
    requires Genuinely(cfg, withLB, sent, lbs, inputs)
    ensures Decodes(withLB, inputs, steps) && Legal(cfg, steps) && Honest(sent, steps) && AtMostOnce(steps)
  {
    forall i | 0 <= i < |inputs| ensures Decode(withLB, inputs[i]).Some? {
      if inputs[i].Frame? { FrameIsHonest(withLB, sent, lbs, inputs[i]); }
    }
    steps := seq(|inputs|, i requires 0 <= i < |inputs| => Decode(withLB, inputs[i]).value);
    forall i | 0 <= i < |steps| && steps[i].Recv? ensures HonestPacket(sent, steps[i].p) {
      FrameIsHonest(withLB, sent, lbs, inputs[i]);
    }
    forall i, j | 0 <= i < j < |steps| && steps[i].Recv? && steps[j].Recv?
      ensures (steps[i].p.key, steps[i].p.offset) != (steps[j].p.key, steps[j].p.offset)
    {
      FramesDiffer(withLB, sent, lbs, inputs[i], inputs[j]);
    }
  }

  /** END TO END. If every frame that arrives is one of the datagrams planned by
      the segmenter for some event, and no frame arrives twice, then every frame
      is accepted, no copy leaves its buffer, and the user only ever gets events
      that were sent, whole, under their own key and at most once. */
  lemma UserGetsSentEvents(cfg: Config, withLB: bool, sent: Traffic, lbs: map<Key, LBFields>, inputs: seq<Input>)
    returns (steps: seq<Step>)
    requires Genuinely(cfg, withLB, sent, lbs, inputs)
    ensures Decodes(withLB, inputs, steps) && Legal(cfg, steps) && Run(cfg, steps).Some?
    ensures var q := Queued(Run(cfg, steps).value.sh);
      && (forall it :: it in q ==> it.key in sent && it.event == sent[it.key].event)
      && (forall i, j :: 0 <= i < j < |q| ==> q[i].key != q[j].key)
  {
    steps := DrivesRun(cfg, withLB, sent, lbs, inputs);
    QueuedEventsAreSentEvents(cfg, sent, steps);
  }

  // ---- completeness -------------------------------------------------------------------

  /** The input is the frame of the fragment of event k at an offset. */
  ghost predicate FrameAt(withLB: bool, sent: Traffic, lbs: map<Key, LBFields>, k: Key, o: nat, i: Input) {
    && k in sent && k in lbs && Sendable(sent[k]) && o in Offsets(sent[k]) && i.Frame?
    && i.bytes == AsReceived(withLB, Datagram(lbs[k], FragmentAt(k, sent[k], o)))
  }

  lemma FrameReads(withLB: bool, sent: Traffic, lbs: map<Key, LBFields>, i: Input) returns (p: Packet)
    requires LimitsFit(sent) && GenuineFrame(withLB, sent, lbs, i)
    ensures Decode(withLB, i) == Some(Recv(i.tid, p, i.now, i.a, i.pushOk))
    ensures FrameAt(withLB, sent, lbs, p.key, p.offset, i) && HonestPacket(sent, p)
  {
    var k :| Genuine(withLB, sent, lbs, k, i.bytes);
    p := GenuineParses(withLB, sent, lbs, k, i.bytes);
    FragmentOffset(k, sent[k], p);
    assert p == FragmentAt(k, sent[k], p.offset);
  }

  lemma FrameOfFragment(withLB: bool, sent: Traffic, lbs: map<Key, LBFields>, k: Key, o: nat, i: Input)
    requires LimitsFit(sent) && FrameAt(withLB, sent, lbs, k, o, i)
    ensures Decode(withLB, i) == Some(Recv(i.tid, FragmentAt(k, sent[k], o), i.now, i.a, i.pushOk))
  {
    StartIsAlignedDown(sent[k], o);
    FragmentParses(withLB, lbs[k], k, sent[k], FragmentAt(k, sent[k], o));
  }

  /** The frame of a fragment is read as that fragment, and only it is. */
  lemma FrameAtIff(withLB: bool, sent: Traffic, lbs: map<Key, LBFields>, k: Key, o: nat, i: Input)
    requires LimitsFit(sent) && GenuineFrame(withLB, sent, lbs, i)
    ensures Decode(withLB, i).Some? && Decode(withLB, i).value.Recv? && Decode(withLB, i).value.tid == i.tid
    ensures FrameAt(withLB, sent, lbs, k, o, i)
      <==> Decode(withLB, i).value.p.key == k && Decode(withLB, i).value.p.offset == o
  {
    var p := FrameReads(withLB, sent, lbs, i);
    if FrameAt(withLB, sent, lbs, k, o, i) { FrameOfFragment(withLB, sent, lbs, k, o, i); }
  }

  /** Every datagram of every event arrives, all of an event at one thread, and before
      them the one at offset 0. */
  ghost predicate AllArrive(withLB: bool, sent: Traffic, lbs: map<Key, LBFields>, route: Route, inputs: seq<Input>) {
    && sent.Keys <= lbs.Keys && sent.Keys <= route.Keys
    && (forall k :: k in sent ==> Sendable(sent[k]) && sent[k].event != [])
    && (forall k, o :: k in sent && o in Offsets(sent[k]) ==> Arrives(withLB, sent, lbs, k, o, inputs, |inputs|))
    && forall k, o, i :: k in sent && 0 <= i < |inputs| && FrameAt(withLB, sent, lbs, k, o, inputs[i]) ==>
      inputs[i].tid == route[k] && Arrives(withLB, sent, lbs, k, 0, inputs, i + 1)
  }

  /** The frame of the fragment is among the first n inputs. */
  ghost predicate Arrives(withLB: bool, sent: Traffic, lbs: map<Key, LBFields>, k: Key, o: nat,
                          inputs: seq<Input>, n: nat)
    requires n <= |inputs|
  {
    exists i :: 0 <= i < n && FrameAt(withLB, sent, lbs, k, o, inputs[i])
  }

  /** No visit of the collector to a key comes more than the timeout after a datagram
      of it. */
  ghost predicate Prompt(cfg: Config, steps: seq<Step>) {
    forall i, j :: 0 <= i < j < |steps| && steps[j].Gc? && IsRecvOf(steps[i], steps[j].key) ==>
      WaitedMs(steps[j].now - steps[i].now) <= cfg.timeoutMs
  }

  /** The same of the frames. */
  ghost predicate InTime(cfg: Config, withLB: bool, sent: Traffic, lbs: map<Key, LBFields>, inputs: seq<Input>) {
    forall i, j, o :: 0 <= i < j < |inputs| && FrameThenVisit(withLB, sent, lbs, inputs[i], inputs[j], o) ==>
      WaitedMs(inputs[j].step.now - inputs[i].now) <= cfg.timeoutMs
  }

  /** A frame of a fragment, and a later visit of the collector to its key. */
  ghost predicate FrameThenVisit(withLB: bool, sent: Traffic, lbs: map<Key, LBFields>, i: Input, j: Input, o: nat) {
    j.Other? && j.step.Gc? && FrameAt(withLB, sent, lbs, j.step.key, o, i)
  }

  /** Some datagram of the key started the entry. */
  ghost predicate StartedBy(steps: seq<Step>, k: Key, it: Item) {
    exists i :: 0 <= i < |steps| && IsRecvOf(steps[i], k) && steps[i].now == it.firstSegment
  }

  ghost predicate AllStarted(steps: seq<Step>, s: State) {
    forall t, k :: 0 <= t < |s.threads| && k in s.threads[t].inProgress ==>
      StartedBy(steps, k, s.threads[t].inProgress[k])
  }

  lemma StartedStep(cfg: Config, steps: seq<Step>, s: State)
    requires steps != [] && WellFormed(cfg, steps[|steps| - 1]) && |s.threads| == cfg.numThreads
    requires KeysMatch(s) && AllStarted(steps[..|steps| - 1], s) && Next(cfg, s, steps[|steps| - 1]).Some?
    ensures AllStarted(steps, Next(cfg, s, steps[|steps| - 1]).value)
  {
    var n, s' := |steps| - 1, Next(cfg, s, steps[|steps| - 1]).value;
    forall t, k | 0 <= t < |s'.threads| && k in s'.threads[t].inProgress
      ensures StartedBy(steps, k, s'.threads[t].inProgress[k])
    {
      var it := s'.threads[t].inProgress[k];
      if k in s.threads[t].inProgress && it.firstSegment == s.threads[t].inProgress[k].firstSegment {
        assert StartedBy(steps[..n], k, s.threads[t].inProgress[k]);
        var i :| 0 <= i < n && IsRecvOf(steps[..n][i], k) && steps[..n][i].now == it.firstSegment;
        assert steps[i] == steps[..n][i];
      } else {
        assert IsRecvOf(steps[n], k) && steps[n].now == it.firstSegment;
      }
    }
  }

  lemma VisitFindsNothing(cfg: Config, steps: seq<Step>, s: State)
    requires steps != [] && Prompt(cfg, steps) && AllStarted(steps[..|steps| - 1], s)
    requires WellFormed(cfg, steps[|steps| - 1]) && |s.threads| == cfg.numThreads && steps[|steps| - 1].Gc?
    ensures Next(cfg, s, steps[|steps| - 1]).value.sh.expired == s.sh.expired
  {
    var n, last := |steps| - 1, steps[|steps| - 1];
    if last.key in s.threads[last.tid].inProgress {
      var it := s.threads[last.tid].inProgress[last.key];
      assert StartedBy(steps[..n], last.key, it);
      var i :| 0 <= i < n && IsRecvOf(steps[..n][i], last.key) && steps[..n][i].now == it.firstSegment;
      assert steps[i] == steps[..n][i];
    }
  }

  /** A prompt collector expires nothing. */
  lemma {:induction false} NothingExpires(cfg: Config, steps: seq<Step>)
    requires Legal(cfg, steps) && Run(cfg, steps).Some? && Prompt(cfg, steps)
    ensures AllStarted(steps, Run(cfg, steps).value) && Run(cfg, steps).value.sh.expired == []
  {
    if steps != [] {
      var before := steps[..|steps| - 1];
      NothingExpires(cfg, before);
      RunKeysMatch(cfg, before);
      StartedStep(cfg, steps, Run(cfg, before).value);
      if steps[|steps| - 1].Gc? { VisitFindsNothing(cfg, steps, Run(cfg, before).value); }
    }
  }

  /** The first datagram of a key that a run delivers. */
  lemma {:induction false} FirstIs(steps: seq<Step>, k: Key, i: nat)
    requires i < |steps| && IsRecvOf(steps[i], k) && forall j :: 0 <= j < i ==> !IsRecvOf(steps[j], k)
    ensures FirstOf(steps, k) == Some(steps[i].p.offset)
  {
    var n := |steps| - 1;
    if i < n {
      FirstIs(steps[..n], k, i);
    } else {
      NoFirst(steps[..n], k);
    }
  }

  lemma {:induction false} NoFirst(steps: seq<Step>, k: Key)
    requires forall j :: 0 <= j < |steps| ==> !IsRecvOf(steps[j], k)
    ensures FirstOf(steps, k) == None
  {
    if steps != [] { NoFirst(steps[..|steps| - 1], k); }
  }

  /** Input i is the frame of a fragment of k exactly when step i receives it. */
  ghost predicate Agree(withLB: bool, sent: Traffic, lbs: map<Key, LBFields>, k: Key, inputs: seq<Input>,
                        steps: seq<Step>)
  {
    && |steps| == |inputs|
    && (forall i, o :: 0 <= i < |inputs| ==>
          (FrameAt(withLB, sent, lbs, k, o, inputs[i]) <==> IsRecvOf(steps[i], k) && steps[i].p.offset == o))
    && forall i :: 0 <= i < |inputs| && inputs[i].Frame? ==> steps[i].Recv? && steps[i].tid == inputs[i].tid
  }

  lemma InputsAgree(cfg: Config, withLB: bool, sent: Traffic, lbs: map<Key, LBFields>, inputs: seq<Input>,
                    steps: seq<Step>, k: Key)
    requires Genuinely(cfg, withLB, sent, lbs, inputs) && Decodes(withLB, inputs, steps) && k in sent && k in lbs
    ensures Agree(withLB, sent, lbs, k, inputs, steps)
  {
    forall i, o | 0 <= i < |inputs|
      ensures FrameAt(withLB, sent, lbs, k, o, inputs[i]) <==> IsRecvOf(steps[i], k) && steps[i].p.offset == o
      ensures inputs[i].Frame? ==> steps[i].Recv? && steps[i].tid == inputs[i].tid
    {
      assert Decode(withLB, inputs[i]) == Some(steps[i]);
      if inputs[i].Frame? { FrameAtIff(withLB, sent, lbs, k, o, inputs[i]); }
    }
  }

  lemma IsPrompt(cfg: Config, withLB: bool, sent: Traffic, lbs: map<Key, LBFields>, inputs: seq<Input>,
                 steps: seq<Step>)
    requires Decodes(withLB, inputs, steps) && Honest(sent, steps)
    requires forall k :: k in sent ==> Agree(withLB, sent, lbs, k, inputs, steps)
    requires InTime(cfg, withLB, sent, lbs, inputs)
    ensures Prompt(cfg, steps)
  {
    forall i, j | 0 <= i < j < |steps| && steps[j].Gc? && IsRecvOf(steps[i], steps[j].key)
      ensures WaitedMs(steps[j].now - steps[i].now) <= cfg.timeoutMs
    {
      assert Decode(withLB, inputs[i]) == Some(steps[i]) && Decode(withLB, inputs[j]) == Some(steps[j]);
      assert HonestPacket(sent, steps[i].p) && Agree(withLB, sent, lbs, steps[j].key, inputs, steps);
      assert FrameThenVisit(withLB, sent, lbs, inputs[i], inputs[j], steps[i].p.offset);
    }
  }

  lemma OffsetArrives(withLB: bool, sent: Traffic, lbs: map<Key, LBFields>, inputs: seq<Input>, steps: seq<Step>,
                      k: Key, o: nat)
    requires Agree(withLB, sent, lbs, k, inputs, steps) && Honest(sent, steps) && k in sent && Sendable(sent[k])
    requires o in Offsets(sent[k]) ==> Arrives(withLB, sent, lbs, k, o, inputs, |inputs|)
    ensures o in Arrived(steps, k) <==> o in Offsets(sent[k])
  {
    ArrivedFrom(steps, k, o);
    if o in Arrived(steps, k) {
      var i :| 0 <= i < |steps| && IsRecvOf(steps[i], k) && steps[i].p.offset == o;
      FragmentOffset(k, sent[k], steps[i].p);
    }
    if o in Offsets(sent[k]) {
      var i :| 0 <= i < |inputs| && FrameAt(withLB, sent, lbs, k, o, inputs[i]);
      assert IsRecvOf(steps[i], k) && steps[i].p.offset == o;
    }
  }

  lemma ZeroArrives(withLB: bool, sent: Traffic, lbs: map<Key, LBFields>, inputs: seq<Input>, steps: seq<Step>,
                    k: Key, n: nat)
    requires Agree(withLB, sent, lbs, k, inputs, steps) && n <= |inputs|
    requires Arrives(withLB, sent, lbs, k, 0, inputs, n)
    ensures ZeroBy(steps, k, n)
  {
    var i :| 0 <= i < n && FrameAt(withLB, sent, lbs, k, 0, inputs[i]);
    assert IsRecvOf(steps[i], k) && steps[i].p.offset == 0;
  }

  /** Offset 0 of the key is among the first n steps. */
  ghost predicate ZeroBy(steps: seq<Step>, k: Key, n: nat)
    requires n <= |steps|
  {
    exists i :: 0 <= i < n && IsRecvOf(steps[i], k) && steps[i].p.offset == 0
  }

  /** The earliest datagram of the key is that of offset 0. */
  lemma {:induction false} ZeroComesFirst(steps: seq<Step>, k: Key, n: nat) returns (i: nat)
    requires n <= |steps| && ZeroBy(steps, k, n)
    requires forall j :: 0 <= j < |steps| && IsRecvOf(steps[j], k) ==> ZeroBy(steps, k, j + 1)
    ensures i < n && IsRecvOf(steps[i], k) && steps[i].p.offset == 0
    ensures forall j :: 0 <= j < i ==> !IsRecvOf(steps[j], k)
  {
    i :| 0 <= i < n && IsRecvOf(steps[i], k) && steps[i].p.offset == 0;
    if j :| 0 <= j < i && IsRecvOf(steps[j], k) {
      i := ZeroComesFirst(steps, k, j + 1);
    }
  }

  lemma ZeroByThen(withLB: bool, sent: Traffic, lbs: map<Key, LBFields>, route: Route, inputs: seq<Input>,
                   steps: seq<Step>, k: Key, j: nat)
    requires AllArrive(withLB, sent, lbs, route, inputs) && k in sent
    requires Agree(withLB, sent, lbs, k, inputs, steps) && j < |steps| && IsRecvOf(steps[j], k)
    ensures ZeroBy(steps, k, j + 1) && steps[j].tid == route[k]
  {
    assert FrameAt(withLB, sent, lbs, k, steps[j].p.offset, inputs[j]);
    ZeroArrives(withLB, sent, lbs, inputs, steps, k, j + 1);
  }

  lemma FirstIsZero(steps: seq<Step>, k: Key)
    requires ZeroBy(steps, k, |steps|)
    requires forall j :: 0 <= j < |steps| && IsRecvOf(steps[j], k) ==> ZeroBy(steps, k, j + 1)
    ensures FirstOf(steps, k) == Some(0)
  {
    var i := ZeroComesFirst(steps, k, |steps|);
    FirstIs(steps, k, i);
  }

  lemma OffsetsArrive(withLB: bool, sent: Traffic, lbs: map<Key, LBFields>, route: Route, inputs: seq<Input>,
                      steps: seq<Step>, k: Key)
    requires AllArrive(withLB, sent, lbs, route, inputs) && k in sent
    requires Agree(withLB, sent, lbs, k, inputs, steps) && Honest(sent, steps)
    ensures Arrived(steps, k) == Offsets(sent[k]) && ZeroBy(steps, k, |steps|)
  {
    forall o ensures o in Arrived(steps, k) <==> o in Offsets(sent[k]) {
      OffsetArrives(withLB, sent, lbs, inputs, steps, k, o);
    }
    StartIsAlignedDown(sent[k], 0);
    ZeroArrives(withLB, sent, lbs, inputs, steps, k, |inputs|);
  }

  /** All fragments of a key arrive, at one thread, and offset 0 before the others. */
  lemma KeyArrives(withLB: bool, sent: Traffic, lbs: map<Key, LBFields>, route: Route, inputs: seq<Input>,
                   steps: seq<Step>, k: Key)
    requires AllArrive(withLB, sent, lbs, route, inputs) && k in sent
    requires Agree(withLB, sent, lbs, k, inputs, steps) && Honest(sent, steps)
    ensures Arrived(steps, k) == Offsets(sent[k]) && FirstOf(steps, k) == Some(0) && Routed(steps, k, route[k])
  {
    OffsetsArrive(withLB, sent, lbs, route, inputs, steps, k);
    forall j | 0 <= j < |steps| && IsRecvOf(steps[j], k)
      ensures ZeroBy(steps, k, j + 1) && steps[j].tid == route[k]
    {
      ZeroByThen(withLB, sent, lbs, route, inputs, steps, k, j);
    }
    FirstIsZero(steps, k);
  }

  /** END TO END, COMPLETENESS. If the datagrams of some non-empty events all arrive,
      each once, those of an event at one thread and the one at offset 0 first, if the
      collector never comes later than the timeout and the queue always has room, then
      the user gets exactly the events that were sent, each once and whole, and nothing
      is left over. */
  lemma UserGetsEverything(cfg: Config, withLB: bool, sent: Traffic, lbs: map<Key, LBFields>, route: Route,
                           inputs: seq<Input>) returns (steps: seq<Step>)
    requires Genuinely(cfg, withLB, sent, lbs, inputs) && AllArrive(withLB, sent, lbs, route, inputs)
    requires forall i :: 0 <= i < |inputs| && inputs[i].Frame? ==> inputs[i].pushOk
    requires InTime(cfg, withLB, sent, lbs, inputs)
    ensures Decodes(withLB, inputs, steps) && Legal(cfg, steps) && Run(cfg, steps).Some?
    ensures var s := Run(cfg, steps).value; var q := Queued(s.sh);
      && (forall k :: k in sent <==> exists it :: it in q && it.key == k)
      && (forall it :: it in q ==> it.key in sent && it.event == sent[it.key].event)
      && (forall i, j :: 0 <= i < j < |q| ==> q[i].key != q[j].key)
      && ItemKeys(q) == ArrivalOrder(sent, steps)
      && (forall t :: 0 <= t < |s.threads| ==> s.threads[t].inProgress == map[]) && s.sh.displaced == []
  {
    steps := DrivesRun(cfg, withLB, sent, lbs, inputs);
    QueuedEventsAreSentEvents(cfg, sent, steps);
    forall k | k in sent ensures Agree(withLB, sent, lbs, k, inputs, steps) {
      InputsAgree(cfg, withLB, sent, lbs, inputs, steps, k);
    }
    IsPrompt(cfg, withLB, sent, lbs, inputs, steps);
    NothingExpires(cfg, steps);
    forall k | k in sent
      ensures Sendable(sent[k]) && Arrived(steps, k) == Offsets(sent[k]) && FirstOf(steps, k) == Some(0)
      ensures Traced(cfg, steps, k, sent[k], route[k])
    {
      KeyArrives(withLB, sent, lbs, route, inputs, steps, k);
      SomeArrives(steps, k, sent[k], route[k], cfg);
    }
    forall i | 0 <= i < |steps| && steps[i].Recv? ensures steps[i].pushOk {
      assert Decode(withLB, inputs[i]) == Some(steps[i]);
    }
    EverythingIsDelivered(cfg, sent, route, steps);
    KeysOfItems(Queued(Run(cfg, steps).value.sh));
  }

  /** The thread exists, because a datagram got there. */
  lemma SomeArrives(steps: seq<Step>, k: Key, e: Sent, t: nat, cfg: Config)
    requires Legal(cfg, steps) && FirstOf(steps, k).Some? && Routed(steps, k, t)
    ensures t < cfg.numThreads
  {
    if forall i :: 0 <= i < |steps| ==> !IsRecvOf(steps[i], k) {
      NoFirst(steps, k);
    } else {
      var i :| 0 <= i < |steps| && IsRecvOf(steps[i], k);
      assert WellFormed(cfg, steps[i]);
    }
  }

  lemma KeysOfItems(q: seq<Item>)
    ensures forall k :: k in ItemKeys(q) <==> exists it :: it in q && it.key == k
  {
    forall k ensures k in ItemKeys(q) <==> exists it :: it in q && it.key == k {
      if k in ItemKeys(q) {
        var i :| 0 <= i < |ItemKeys(q)| && ItemKeys(q)[i] == k;
        assert q[i] in q;
      }
      if it :| it in q && it.key == k {
        var i :| 0 <= i < |q| && q[i] == it;
        assert ItemKeys(q)[i] == k;
      }
    }
  }
}
