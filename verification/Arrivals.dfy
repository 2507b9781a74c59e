/** Runs with any number of copies of any datagram: what a thread holds of a key is
    determined, byte for byte, by what has arrived there since the entry was started. */
module Arrivals {
  import opened Types
  import opened Segmentation
  import opened Reassembly
  import opened Assembly
  import opened Safety

  /** The entry of a key at a thread: the offsets placed in it, in order and with their
      repetitions; when it was started; and the buffer it was started with. */
  datatype Entry = Entry(offsets: seq<nat>, started: int, base: seq<u8>, buffer: nat)

  /** The length of the fragment at an offset. */
  function Length(e: Sent, o: nat): nat
    requires o < |e.event|
  {
    Min(e.limit, |e.event| - o)
  }

  ghost predicate Within(e: Sent, offsets: seq<nat>) {
    forall i :: 0 <= i < |offsets| ==> offsets[i] < |e.event|
  }

  /** What the byte counter says: repeated fragments count again. */
  ghost function Weight(e: Sent, offsets: seq<nat>): nat
    requires Within(e, offsets)
  {
    if offsets == [] then 0
    else Weight(e, offsets[..|offsets| - 1]) + Length(e, offsets[|offsets| - 1])
  }

  /** What the buffer holds: the event where a fragment was placed, and elsewhere what
      it held before. */
  ghost function Filled(e: Sent, base: seq<u8>, offsets: seq<nat>): (b: seq<u8>)
    requires e.limit > 0 && |base| == |e.event|
    ensures |b| == |e.event|
    ensures forall i :: 0 <= i < |b| ==> b[i] == if Start(e, i) in offsets then e.event[i] else base[i]
  {
    seq(|base|, i requires 0 <= i < |base| => if Start(e, i) in offsets then e.event[i] else base[i])
  }

  ghost predicate Proper(e: Sent, en: Entry) {
    Within(e, en.offsets) && |en.base| == |e.event|
  }

  ghost function ItemOf(k: Key, e: Sent, en: Entry): Item
    requires Sendable(e) && Proper(e, en)
  {
    Item(k, |e.event|, Weight(e, en.offsets), |en.offsets|, Filled(e, en.base, en.offsets), en.buffer, en.started)
  }

  // ---- one key at one thread ------------------------------------------------------

  /** A datagram of the key: offset 0, or any when there is no entry, starts one. */
  function Grown(slot: Option<Entry>, p: Packet, now: int, a: Alloc): Entry {
    if slot.None? || p.offset == 0 then Entry([p.offset], now, a.contents, a.id)
    else slot.value.(offsets := slot.value.offsets + [p.offset])
  }

  ghost predicate Full(e: Sent, en: Entry) {
    Within(e, en.offsets) && Weight(e, en.offsets) == |e.event|
  }

  predicate Reaches(step: Step, t: nat, k: Key) {
    step.Recv? && step.tid == t && step.p.key == k
  }

  predicate Expires(step: Step, t: nat, k: Key, slot: Option<Entry>, timeoutMs: int) {
    step.Gc? && step.tid == t && step.key == k && slot.Some? && WaitedMs(step.now - slot.value.started) > timeoutMs
  }

  /** The entry after a step: a full one has left for the queue. */
  ghost function Advance(cfg: Config, e: Sent, t: nat, k: Key, slot: Option<Entry>, step: Step): Option<Entry> {
    if Reaches(step, t, k) then
      var en := Grown(slot, step.p, step.now, step.a);
      if Full(e, en) then None else Some(en)
    else if Expires(step, t, k, slot, cfg.timeoutMs) then None
    else slot
  }

  /** The entry after a run. */
  ghost function Slot(cfg: Config, e: Sent, steps: seq<Step>, t: nat, k: Key): Option<Entry> {
    if steps == [] then None
    else Advance(cfg, e, t, k, Slot(cfg, e, steps[..|steps| - 1], t, k), steps[|steps| - 1])
  }

  /** An entry that became full. */
  datatype Ending = Ending(tid: nat, key: Key, entry: Entry, queued: bool)

  /** The entries that become full in a run, in order. */
  ghost function Endings(cfg: Config, sent: Traffic, steps: seq<Step>): seq<Ending> {
    if steps == [] then []
    else
      var before, last := steps[..|steps| - 1], steps[|steps| - 1];
      if last.Recv? && last.p.key in sent then
        var k := last.p.key;
        var en := Grown(Slot(cfg, sent[k], before, last.tid, k), last.p, last.now, last.a);
        Endings(cfg, sent, before) + if Full(sent[k], en) then [Ending(last.tid, k, en, last.pushOk)] else []
      else Endings(cfg, sent, before)
  }

  // ---- one step ----------------------------------------------------------------------

  lemma FragmentLength(k: Key, e: Sent, p: Packet)
    requires IsFragment(k, e, p)
    ensures |p.payload| == Length(e, p.offset) > 0 && p.offset + |p.payload| <= |e.event|
  {
  }

  lemma WeightSnoc(e: Sent, offsets: seq<nat>, o: nat)
    requires Within(e, offsets) && o < |e.event|
    ensures Within(e, offsets + [o]) && Weight(e, offsets + [o]) == Weight(e, offsets) + Length(e, o)
  {
    assert (offsets + [o])[..|offsets|] == offsets;
  }

  lemma SnocHas(offsets: seq<nat>, o: nat, x: nat)
    ensures x in offsets + [o] <==> x in offsets || x == o
  {
  }

  lemma FillsAt(k: Key, e: Sent, base: seq<u8>, offsets: seq<nat>, p: Packet, i: nat)
    requires Sendable(e) && IsFragment(k, e, p) && |base| == |e.event| && i < |e.event|
    requires p.offset + |p.payload| <= |e.event|
    ensures Blit(Filled(e, base, offsets), p.offset, p.payload)[i] == Filled(e, base, offsets + [p.offset])[i]
  {
    FragmentOffset(k, e, p);
    StartUnique(e, i, p.offset);
    SnocHas(offsets, p.offset, Start(e, i));
  }

  lemma FillsFragment(k: Key, e: Sent, base: seq<u8>, offsets: seq<nat>, p: Packet)
    requires Sendable(e) && IsFragment(k, e, p) && |base| == |e.event|
    ensures p.offset + |p.payload| <= |e.event|
    ensures Blit(Filled(e, base, offsets), p.offset, p.payload) == Filled(e, base, offsets + [p.offset])
  {
    FragmentLength(k, e, p);
    var blit, after := Blit(Filled(e, base, offsets), p.offset, p.payload), Filled(e, base, offsets + [p.offset]);
    forall i | 0 <= i < |e.event| ensures blit[i] == after[i] { FillsAt(k, e, base, offsets, p, i); }
  }

  /** Placing a fragment, a first or a repeated copy of it, extends the entry by it. */
  lemma PlacesFragment(k: Key, e: Sent, en: Entry, p: Packet)
    requires Sendable(e) && Proper(e, en) && IsFragment(k, e, p)
    ensures var grown := en.(offsets := en.offsets + [p.offset]);
      && Proper(e, grown) && p.offset + |p.payload| <= |e.event|
      && Place(ItemOf(k, e, en), p) == ItemOf(k, e, grown)
  {
    FragmentLength(k, e, p);
    WeightSnoc(e, en.offsets, p.offset);
    FillsFragment(k, e, en.base, en.offsets, p);
  }

  lemma StartsEmpty(k: Key, e: Sent, p: Packet, a: Alloc, now: int)
    requires IsFragment(k, e, p) && |a.contents| == p.length
    ensures Proper(e, Entry([], now, a.contents, a.id))
    ensures FromHeader(p, a, now) == ItemOf(k, e, Entry([], now, a.contents, a.id))
  {
    assert Filled(e, a.contents, []) == a.contents;
  }

  /** The map holds the entry of the key, and nothing else of it. */
  ghost predicate Matches(th: Thread, k: Key, e: Sent, slot: Option<Entry>) {
    && Sendable(e) && (slot.Some? ==> Proper(e, slot.value))
    && (k in th.inProgress <==> slot.Some?)
    && (k in th.inProgress ==> th.inProgress[k] == ItemOf(k, e, slot.value))
  }

  /** A datagram goes to the entry that Grown describes. */
  lemma GrowsEntry(th: Thread, p: Packet, now: int, a: Alloc, e: Sent, slot: Option<Entry>)
    requires Matches(th, p.key, e, slot) && IsFragment(p.key, e, p) && |a.contents| == p.length
    ensures Proper(e, Grown(slot, p, now, a)) && InBounds(th, p, a, now)
    ensures Place(Target(th, p, a, now), p) == ItemOf(p.key, e, Grown(slot, p, now, a))
  {
    FragmentLength(p.key, e, p);
    if Attaches(th, p) {
      PlacesFragment(p.key, e, slot.value, p);
    } else {
      var en := Entry([], now, a.contents, a.id);
      StartsEmpty(p.key, e, p, a, now);
      PlacesFragment(p.key, e, en, p);
      assert [] + [p.offset] == [p.offset];
    }
  }

  lemma ReceiveMatches(th: Thread, sh: Shared, p: Packet, now: int, a: Alloc, pushOk: bool,
                       e: Sent, slot: Option<Entry>)
    requires Matches(th, p.key, e, slot) && IsFragment(p.key, e, p) && |a.contents| == p.length
    ensures InBounds(th, p, a, now)
    ensures var (th', sh') := Receive(th, sh, p, now, a, pushOk);
      var en := Grown(slot, p, now, a);
      && Proper(e, en)
      && Matches(th', p.key, e, if Full(e, en) then None else Some(en))
      && sh'.finished == sh.finished + if Full(e, en) then [Finish(ItemOf(p.key, e, en), pushOk)] else []
  {
    GrowsEntry(th, p, now, a, e, slot);
    ReceiveEffect(th, sh, p, now, a, pushOk);
  }

  lemma ReceiveLeavesOthers(th: Thread, sh: Shared, p: Packet, now: int, a: Alloc, pushOk: bool, k: Key)
    requires InBounds(th, p, a, now) && Target(th, p, a, now).key == p.key && k != p.key
    ensures var th' := Receive(th, sh, p, now, a, pushOk).0;
      && (k in th'.inProgress <==> k in th.inProgress)
      && (k in th.inProgress ==> th'.inProgress[k] == th.inProgress[k])
  {
  }

  lemma CollectMatches(th: Thread, sh: Shared, k: Key, now: int, timeoutMs: int, e: Sent, slot: Option<Entry>)
    requires Matches(th, k, e, slot)
    ensures var (th', sh') := Collect(th, sh, k, now, timeoutMs);
      && Matches(th', k, e, if slot.Some? && WaitedMs(now - slot.value.started) > timeoutMs then None else slot)
      && sh'.finished == sh.finished
  {
  }

  lemma CollectLeavesOthers(th: Thread, sh: Shared, key: Key, now: int, timeoutMs: int, k: Key)
    requires k != key
    ensures var (th', sh') := Collect(th, sh, key, now, timeoutMs);
      && (k in th'.inProgress <==> k in th.inProgress)
      && (k in th.inProgress ==> th'.inProgress[k] == th.inProgress[k])
  {
  }

  // ---- runs ----------------------------------------------------------------------------

  ghost predicate AllSendable(sent: Traffic) {
    forall k :: k in sent ==> Sendable(sent[k])
  }

  ghost predicate SlotsMatch(cfg: Config, sent: Traffic, steps: seq<Step>, s: State) {
    && (forall t, k :: 0 <= t < |s.threads| && k in sent ==>
          Matches(s.threads[t], k, sent[k], Slot(cfg, sent[k], steps, t, k)))
    && (forall t, k :: 0 <= t < |s.threads| && k in s.threads[t].inProgress ==> k in sent)
  }

  ghost predicate IsEnding(sent: Traffic, f: Finish, end: Ending) {
    && end.key in sent && Sendable(sent[end.key]) && Proper(sent[end.key], end.entry)
    && Full(sent[end.key], end.entry) && f == Finish(ItemOf(end.key, sent[end.key], end.entry), end.queued)
  }

  ghost predicate EndingsMatch(sent: Traffic, ends: seq<Ending>, fin: seq<Finish>) {
    |fin| == |ends| && forall i :: 0 <= i < |ends| ==> IsEnding(sent, fin[i], ends[i])
  }

  /** What a datagram leaves of a key at a thread. */
  lemma RecvSlot(cfg: Config, sent: Traffic, steps: seq<Step>, s: State, t: nat, k: Key)
    requires steps != [] && WellFormed(cfg, steps[|steps| - 1]) && |s.threads| == cfg.numThreads
    requires steps[|steps| - 1].Recv? && HonestPacket(sent, steps[|steps| - 1].p)
    requires SlotsMatch(cfg, sent, steps[..|steps| - 1], s) && t < |s.threads|
    requires Next(cfg, s, steps[|steps| - 1]).Some?
    ensures var th := Next(cfg, s, steps[|steps| - 1]).value.threads[t];
      && (k in sent ==> Matches(th, k, sent[k], Slot(cfg, sent[k], steps, t, k)))
      && (k in th.inProgress ==> k in sent)
  {
    var before, step := steps[..|steps| - 1], steps[|steps| - 1];
    var p, th := step.p, s.threads[step.tid];
    if k in sent { assert Matches(s.threads[t], k, sent[k], Slot(cfg, sent[k], before, t, k)); }
    if t == step.tid {
      var slot := Slot(cfg, sent[p.key], before, t, p.key);
      assert Matches(th, p.key, sent[p.key], slot);
      GrowsEntry(th, p, step.now, step.a, sent[p.key], slot);
      if k == p.key {
        ReceiveMatches(th, s.sh, p, step.now, step.a, step.pushOk, sent[k], slot);
      } else {
        ReceiveLeavesOthers(th, s.sh, p, step.now, step.a, step.pushOk, k);
      }
    }
  }

  lemma RecvEndings(cfg: Config, sent: Traffic, steps: seq<Step>, s: State)
    requires steps != [] && WellFormed(cfg, steps[|steps| - 1]) && |s.threads| == cfg.numThreads
    requires steps[|steps| - 1].Recv? && HonestPacket(sent, steps[|steps| - 1].p)
    requires SlotsMatch(cfg, sent, steps[..|steps| - 1], s)
    requires EndingsMatch(sent, Endings(cfg, sent, steps[..|steps| - 1]), s.sh.finished)
    ensures Next(cfg, s, steps[|steps| - 1]).Some?
    ensures EndingsMatch(sent, Endings(cfg, sent, steps), Next(cfg, s, steps[|steps| - 1]).value.sh.finished)
  {
    var before, step := steps[..|steps| - 1], steps[|steps| - 1];
    var k := step.p.key;
    var slot := Slot(cfg, sent[k], before, step.tid, k);
    assert Matches(s.threads[step.tid], k, sent[k], slot);
    ReceiveMatches(s.threads[step.tid], s.sh, step.p, step.now, step.a, step.pushOk, sent[k], slot);
  }

  lemma RecvDetermined(cfg: Config, sent: Traffic, steps: seq<Step>, s: State)
    requires steps != [] && WellFormed(cfg, steps[|steps| - 1]) && |s.threads| == cfg.numThreads
    requires steps[|steps| - 1].Recv? && HonestPacket(sent, steps[|steps| - 1].p)
    requires SlotsMatch(cfg, sent, steps[..|steps| - 1], s)
    requires EndingsMatch(sent, Endings(cfg, sent, steps[..|steps| - 1]), s.sh.finished)
    ensures Next(cfg, s, steps[|steps| - 1]).Some?
    ensures var s' := Next(cfg, s, steps[|steps| - 1]).value;
      SlotsMatch(cfg, sent, steps, s') && EndingsMatch(sent, Endings(cfg, sent, steps), s'.sh.finished)
  {
    RecvEndings(cfg, sent, steps, s);
    var s' := Next(cfg, s, steps[|steps| - 1]).value;
    forall t, k | 0 <= t < |s'.threads|
      ensures k in sent ==> Matches(s'.threads[t], k, sent[k], Slot(cfg, sent[k], steps, t, k))
      ensures k in s'.threads[t].inProgress ==> k in sent
    {
      RecvSlot(cfg, sent, steps, s, t, k);
    }
  }

  lemma OtherDetermined(cfg: Config, sent: Traffic, steps: seq<Step>, s: State)
    requires steps != [] && WellFormed(cfg, steps[|steps| - 1]) && |s.threads| == cfg.numThreads
    requires !steps[|steps| - 1].Recv?
    requires SlotsMatch(cfg, sent, steps[..|steps| - 1], s)
    ensures Next(cfg, s, steps[|steps| - 1]).Some?
    ensures var s' := Next(cfg, s, steps[|steps| - 1]).value;
      SlotsMatch(cfg, sent, steps, s') && s'.sh.finished == s.sh.finished
  {
    var before, step := steps[..|steps| - 1], steps[|steps| - 1];
    var s' := Next(cfg, s, step).value;
    forall t, k | 0 <= t < |s'.threads|
      ensures k in sent ==> Matches(s'.threads[t], k, sent[k], Slot(cfg, sent[k], steps, t, k))
      ensures k in s'.threads[t].inProgress ==> k in sent
    {
      if k in sent { assert Matches(s.threads[t], k, sent[k], Slot(cfg, sent[k], before, t, k)); }
      if step.Gc? && step.tid == t {
        if step.key != k {
          CollectLeavesOthers(s.threads[t], s.sh, step.key, step.now, cfg.timeoutMs, k);
        } else if k in sent {
          CollectMatches(s.threads[t], s.sh, k, step.now, cfg.timeoutMs, sent[k], Slot(cfg, sent[k], before, t, k));
        }
      }
    }
  }

  /** DETERMINED BY ARRIVALS. However often datagrams are repeated, no copy leaves its
      buffer; every thread holds of every key exactly the entry its arrivals make; and
      what finishes is, byte for byte, what the endings say. */
  lemma {:induction false} RunIsDetermined(cfg: Config, sent: Traffic, steps: seq<Step>)
    requires Legal(cfg, steps) && Honest(sent, steps) && AllSendable(sent)
    ensures Run(cfg, steps).Some?
    ensures SlotsMatch(cfg, sent, steps, Run(cfg, steps).value)
    ensures EndingsMatch(sent, Endings(cfg, sent, steps), Run(cfg, steps).value.sh.finished)
  {
    if steps != [] {
      var before, last := steps[..|steps| - 1], steps[|steps| - 1];
      RunIsDetermined(cfg, sent, before);
      if last.Recv? {
        RecvDetermined(cfg, sent, steps, Run(cfg, before).value);
      } else {
        OtherDetermined(cfg, sent, steps, Run(cfg, before).value);
      }
    }
  }
}
