/** When an event completes. The state of a key depends only on the datagrams and
    collector visits of that key, and an event completes if and only if all its
    fragments arrive and the one at offset 0 comes first. */
module Completion {
  import opened Types
  import opened Segmentation
  import opened Reassembly
  import opened Assembly
  import opened Safety

  predicate IsRecvOf(step: Step, k: Key) {
    step.Recv? && step.p.key == k
  }

  /** The offsets of key k that a run delivers. */
  ghost function Arrived(steps: seq<Step>, k: Key): set<nat> {
    if steps == [] then {}
    else
      var last := steps[|steps| - 1];
      Arrived(steps[..|steps| - 1], k) + if IsRecvOf(last, k) then {last.p.offset} else {}
  }

  /** The offset of the first datagram of key k that a run delivers. */
  ghost function FirstOf(steps: seq<Step>, k: Key): Option<nat> {
    if steps == [] then None
    else
      var last, first := steps[|steps| - 1], FirstOf(steps[..|steps| - 1], k);
      if first.None? && IsRecvOf(last, k) then Some(last.p.offset) else first
  }

  /** The offsets of key k delivered since its latest offset 0. */
  ghost function Live(steps: seq<Step>, k: Key): set<nat> {
    if steps == [] then {}
    else
      var last, live := steps[|steps| - 1], Live(steps[..|steps| - 1], k);
      if !IsRecvOf(last, k) then live
      else if last.p.offset == 0 then {0}
      else live + {last.p.offset}
  }

  // ---- Hypotheses about one key -------------------------------------------

  ghost predicate FragmentsOf(steps: seq<Step>, k: Key, e: Sent) {
    forall i :: 0 <= i < |steps| && IsRecvOf(steps[i], k) ==> IsFragment(k, e, steps[i].p)
  }

  ghost predicate OnceFor(steps: seq<Step>, k: Key) {
    forall i, j :: 0 <= i < j < |steps| && IsRecvOf(steps[i], k) && IsRecvOf(steps[j], k) ==>
      steps[i].p.offset != steps[j].p.offset
  }

  /** All datagrams of the key reach the same receive thread. */
  ghost predicate Routed(steps: seq<Step>, k: Key, t: nat) {
    forall i :: 0 <= i < |steps| && IsRecvOf(steps[i], k) ==> steps[i].tid == t
  }

  ghost predicate NotExpired(sh: Shared, k: Key) {
    forall i :: 0 <= i < |sh.expired| ==> sh.expired[i].key != k
  }

  ghost predicate Traced(cfg: Config, steps: seq<Step>, k: Key, e: Sent, t: nat) {
    && Legal(cfg, steps) && Run(cfg, steps).Some? && t < cfg.numThreads
    && Sendable(e) && e.event != []
    && FragmentsOf(steps, k, e) && OnceFor(steps, k) && Routed(steps, k, t)
    && NotExpired(Run(cfg, steps).value.sh, k)
  }

  // ---- First arrivals -----------------------------------------------------

  lemma {:induction false} ArrivedFrom(steps: seq<Step>, k: Key, o: nat)
    ensures o in Arrived(steps, k) <==> exists i :: 0 <= i < |steps| && IsRecvOf(steps[i], k) && steps[i].p.offset == o
  {
    if steps != [] {
      var before := steps[..|steps| - 1];
      ArrivedFrom(before, k, o);
      if o in Arrived(before, k) {
        var i :| 0 <= i < |before| && IsRecvOf(before[i], k) && before[i].p.offset == o;
        assert steps[i] == before[i];
      }
    }
  }

  lemma OnceStep(steps: seq<Step>, k: Key)
    requires steps != [] && OnceFor(steps, k)
    ensures OnceFor(steps[..|steps| - 1], k)
    ensures IsRecvOf(steps[|steps| - 1], k) ==> steps[|steps| - 1].p.offset !in Arrived(steps[..|steps| - 1], k)
  {
    if IsRecvOf(steps[|steps| - 1], k) {
      ArrivedFrom(steps[..|steps| - 1], k, steps[|steps| - 1].p.offset);
    }
  }

  /** Whatever arrives before offset 0 does not survive it. */
  lemma {:induction false} LiveArrivals(steps: seq<Step>, k: Key)
    requires OnceFor(steps, k)
    ensures Live(steps, k) <= Arrived(steps, k)
    ensures match FirstOf(steps, k)
      case None => Arrived(steps, k) == {}
      case Some(f) =>
        && f in Arrived(steps, k)
        && (f == 0 || 0 !in Arrived(steps, k) ==> Live(steps, k) == Arrived(steps, k))
        && (f != 0 && 0 in Arrived(steps, k) ==> f !in Live(steps, k))
  {
    if steps != [] {
      OnceStep(steps, k);
      LiveArrivals(steps[..|steps| - 1], k);
    }
  }

  // ---- The state of one key -----------------------------------------------

  function Keys(fin: seq<Finish>): (ks: seq<Key>)
    ensures |ks| == |fin|
  {
    seq(|fin|, i requires 0 <= i < |fin| => fin[i].item.key)
  }

  function ItemKeys(items: seq<Item>): (ks: seq<Key>)
    ensures |ks| == |items|
  {
    seq(|items|, i requires 0 <= i < |items| => items[i].key)
  }

  ghost predicate KeysMatch(s: State) {
    forall t, k :: 0 <= t < |s.threads| && k in s.threads[t].inProgress ==> s.threads[t].inProgress[k].key == k
  }

  lemma {:induction false} RunKeysMatch(cfg: Config, steps: seq<Step>)
    requires Legal(cfg, steps) && Run(cfg, steps).Some?
    ensures KeysMatch(Run(cfg, steps).value)
  {
    if steps != [] {
      RunKeysMatch(cfg, steps[..|steps| - 1]);
    }
  }

  /** The map entry of key k at the thread it is routed to. */
  ghost predicate SlotState(th: Thread, k: Key, e: Sent, live: set<nat>)
    requires e.limit > 0
  {
    && (k in th.inProgress <==> live != {} && !(Offsets(e) <= live))
    && (k in th.inProgress ==> Holds(th.inProgress[k], k, e, live))
  }

  ghost predicate HistoryState(sh: Shared, k: Key, e: Sent, live: set<nat>, arrived: set<nat>)
    requires e.limit > 0
  {
    && (k in Keys(sh.finished) <==> Offsets(e) <= live)
    && (k in ItemKeys(sh.displaced) <==> live != arrived)
  }

  ghost predicate KeyState(s: State, k: Key, e: Sent, t: nat, live: set<nat>, arrived: set<nat>)
    requires e.limit > 0
  {
    && t < |s.threads|
    && (forall u :: 0 <= u < |s.threads| && u != t ==> k !in s.threads[u].inProgress)
    && SlotState(s.threads[t], k, e, live)
    && HistoryState(s.sh, k, e, live, arrived)
  }

  lemma AppendKey(fin: seq<Finish>, f: Finish)
    ensures Keys(fin + [f]) == Keys(fin) + [f.item.key]
  {
  }

  lemma AppendItemKey(items: seq<Item>, it: Item)
    ensures ItemKeys(items + [it]) == ItemKeys(items) + [it.key]
  {
  }

  /** The histories after a datagram, as sets of keys. */
  lemma ReceiveHistory(th: Thread, sh: Shared, p: Packet, now: int, a: Alloc, pushOk: bool, k: Key)
    requires InBounds(th, p, a, now)
    requires p.key in th.inProgress ==> th.inProgress[p.key].key == p.key
    ensures var (th', sh') := Receive(th, sh, p, now, a, pushOk);
      var it := Place(Target(th, p, a, now), p);
      && (k in Keys(sh'.finished) <==> k in Keys(sh.finished) || (it.curBytes == it.bytes && k == p.key))
      && (k in ItemKeys(sh'.displaced) <==>
          k in ItemKeys(sh.displaced) || (p.offset == 0 && p.key in th.inProgress && k == p.key))
      && sh'.expired == sh.expired
  {
    var it := Place(Target(th, p, a, now), p);
    assert it.key == p.key;
    var (th', sh') := Receive(th, sh, p, now, a, pushOk);
    AppendKey(sh.finished, Finish(it, pushOk));
    if p.key in th.inProgress { AppendItemKey(sh.displaced, th.inProgress[p.key]); }
    assert sh'.finished == if it.curBytes == it.bytes then sh.finished + [Finish(it, pushOk)] else sh.finished;
    assert sh.displaced + [] == sh.displaced;
    assert sh'.displaced == if p.offset == 0 && p.key in th.inProgress
                            then sh.displaced + [th.inProgress[p.key]] else sh.displaced;
  }

  /** What the item of a datagram holds once the datagram is in it. */
  lemma KeyPlaces(th: Thread, p: Packet, now: int, a: Alloc, e: Sent, live: set<nat>)
    requires IsFragment(p.key, e, p) && p.offset !in live && |a.contents| == p.length
    requires SlotState(th, p.key, e, live) && !(Offsets(e) <= live)
    ensures var live' := if p.offset == 0 then {0} else live + {p.offset};
      && InBounds(th, p, a, now)
      && Holds(Place(Target(th, p, a, now), p), p.key, e, live')
      && (Place(Target(th, p, a, now), p).curBytes == |e.event| <==> Offsets(e) <= live')
  {
    var got := if p.offset == 0 then {} else live;
    if !Attaches(th, p) {
      FreshHolds(p, p.key, e, a, now);
      assert got == {};
    }
    Absorbs(Target(th, p, a, now), p.key, e, got, p);
    assert got + {p.offset} == if p.offset == 0 then {0} else live + {p.offset};
    CountsAll(Place(Target(th, p, a, now), p), p.key, e, got + {p.offset});
  }

  lemma SlotReceives(th: Thread, sh: Shared, p: Packet, now: int, a: Alloc, pushOk: bool,
                     e: Sent, live: set<nat>, arrived: set<nat>)
    requires IsFragment(p.key, e, p) && p.offset !in arrived && live <= arrived && |a.contents| == p.length
    requires SlotState(th, p.key, e, live) && HistoryState(sh, p.key, e, live, arrived)
    requires Offsets(e) <= live ==> p.offset in live
    ensures InBounds(th, p, a, now)
    ensures var (th', sh') := Receive(th, sh, p, now, a, pushOk);
      var live' := if p.offset == 0 then {0} else live + {p.offset};
      SlotState(th', p.key, e, live') && HistoryState(sh', p.key, e, live', arrived + {p.offset})
  {
    KeyPlaces(th, p, now, a, e, live);
    ReceiveEffect(th, sh, p, now, a, pushOk);
    ReceiveHistory(th, sh, p, now, a, pushOk, p.key);
  }

  /** A datagram of key k arrives. */
  lemma KeyReceives(s: State, s': State, cfg: Config, step: Step, k: Key, e: Sent, live: set<nat>, arrived: set<nat>)
    requires WellFormed(cfg, step) && |s.threads| == cfg.numThreads && IsRecvOf(step, k)
    requires Next(cfg, s, step) == Some(s')
    requires IsFragment(k, e, step.p) && step.p.offset !in arrived && live <= arrived
    requires KeyState(s, k, e, step.tid, live, arrived)
    ensures KeyState(s', k, e, step.tid, if step.p.offset == 0 then {0} else live + {step.p.offset},
                     arrived + {step.p.offset})
  {
    FragmentOffset(k, e, step.p);
    SlotReceives(s.threads[step.tid], s.sh, step.p, step.now, step.a, step.pushOk, e, live, arrived);
  }

  /** Every other step leaves the state of key k alone, unless it expires k. */
  lemma KeyUntouched(s: State, s': State, cfg: Config, step: Step, k: Key, e: Sent, t: nat,
                     live: set<nat>, arrived: set<nat>)
    requires WellFormed(cfg, step) && |s.threads| == cfg.numThreads && !IsRecvOf(step, k)
    requires Next(cfg, s, step) == Some(s') && KeysMatch(s) && NotExpired(s'.sh, k)
    requires e.limit > 0 && KeyState(s, k, e, t, live, arrived)
    ensures KeyState(s', k, e, t, live, arrived)
  {
    if step.Recv? {
      var th, p := s.threads[step.tid], step.p;
      ReceiveEffect(th, s.sh, p, step.now, step.a, step.pushOk);
      ReceiveHistory(th, s.sh, p, step.now, step.a, step.pushOk, k);
      assert Place(Target(th, p, step.a, step.now), p).key == p.key;
    } else if step.Gc? {
      CollectExpires(s.threads[step.tid], s.sh, step.key, step.now, cfg.timeoutMs);
    }
  }

  lemma CollectExpires(th: Thread, sh: Shared, k: Key, now: int, timeoutMs: int)
    requires k in th.inProgress ==> th.inProgress[k].key == k
    ensures Stale(th, k, now, timeoutMs) ==> !NotExpired(Collect(th, sh, k, now, timeoutMs).1, k)
  {
    if Stale(th, k, now, timeoutMs) {
      assert Collect(th, sh, k, now, timeoutMs).1.expired[|sh.expired|] == th.inProgress[k];
    }
  }

  lemma ExpiredGrows(cfg: Config, s: State, step: Step)
    requires WellFormed(cfg, step) && |s.threads| == cfg.numThreads && Next(cfg, s, step).Some?
    ensures s.sh.expired <= Next(cfg, s, step).value.sh.expired
  {
  }

  lemma TracedPrefix(cfg: Config, steps: seq<Step>, k: Key, e: Sent, t: nat)
    requires steps != [] && Traced(cfg, steps, k, e, t)
    ensures Traced(cfg, steps[..|steps| - 1], k, e, t)
  {
    var last, before := steps[|steps| - 1], steps[..|steps| - 1];
    ExpiredGrows(cfg, Run(cfg, before).value, last);
    OnceStep(steps, k);
  }

  /** Between deliveries of k, its state is a function of the deliveries so far. */
  lemma {:induction false} KeyFollowsArrivals(cfg: Config, steps: seq<Step>, k: Key, e: Sent, t: nat)
    requires Traced(cfg, steps, k, e, t)
    ensures KeyState(Run(cfg, steps).value, k, e, t, Live(steps, k), Arrived(steps, k))
  {
    if steps == [] {
      StartIsAlignedDown(e, 0);
      assert 0 in Offsets(e);
    } else {
      var last, before := steps[|steps| - 1], steps[..|steps| - 1];
      var s, s' := Run(cfg, before).value, Run(cfg, steps).value;
      TracedPrefix(cfg, steps, k, e, t);
      OnceStep(steps, k);
      KeyFollowsArrivals(cfg, before, k, e, t);
      RunKeysMatch(cfg, before);
      LiveArrivals(before, k);
      if IsRecvOf(last, k) {
        KeyReceives(s, s', cfg, last, k, e, Live(before, k), Arrived(before, k));
      } else {
        KeyUntouched(s, s', cfg, last, k, e, t, Live(before, k), Arrived(before, k));
      }
    }
  }

  /** EXACT CHARACTERISATION. Whatever else the network carries, an event whose
      datagrams arrive at most once and that is not expired completes exactly when
      all of them arrive and offset 0 is the first to. It leaks a buffer exactly
      when offset 0 arrives, but not first. */
  lemma CompletesIffZeroFirst(cfg: Config, steps: seq<Step>, k: Key, e: Sent, t: nat)
    requires Traced(cfg, steps, k, e, t)
    ensures k in Keys(Run(cfg, steps).value.sh.finished)
      <==> Offsets(e) <= Arrived(steps, k) && FirstOf(steps, k) == Some(0)
    ensures k in ItemKeys(Run(cfg, steps).value.sh.displaced)
      <==> 0 in Arrived(steps, k) && FirstOf(steps, k) != Some(0)
  {
    KeyFollowsArrivals(cfg, steps, k, e, t);
    LiveArrivals(steps, k);
    StartIsAlignedDown(e, 0);
    assert 0 in Offsets(e);
    ArrivedAreOffsets(steps, k, e);
  }

  lemma ArrivedAreOffsets(steps: seq<Step>, k: Key, e: Sent)
    requires FragmentsOf(steps, k, e) && e.limit > 0
    ensures Arrived(steps, k) <= Offsets(e)
  {
    forall o | o in Arrived(steps, k) ensures o in Offsets(e) {
      ArrivedFrom(steps, k, o);
      var i :| 0 <= i < |steps| && IsRecvOf(steps[i], k) && steps[i].p.offset == o;
      FragmentOffset(k, e, steps[i].p);
    }
  }
}
