/** What repeated datagrams do. Bytes are counted, not tracked, so a repetition can
    make an entry full too early, or miss its total for good, or finish again. */
module Duplicates {
  import opened Types
  import opened Arithmetic
  import opened Segmentation
  import opened Reassembly
  import opened Assembly
  import opened Safety
  import opened Arrivals

  predicate Distinct(offsets: seq<nat>) {
    forall i, j :: 0 <= i < j < |offsets| ==> offsets[i] != offsets[j]
  }

  function ToSet(offsets: seq<nat>): set<nat> {
    set o | o in offsets
  }

  ghost predicate Aligned(e: Sent, offsets: seq<nat>)
    requires e.limit > 0
  {
    forall i :: 0 <= i < |offsets| ==> offsets[i] in Offsets(e)
  }

  // ---- counting -----------------------------------------------------------------------

  /** A start of a fragment is where some fragment is. */
  lemma StartHasFragment(e: Sent, o: nat) returns (p: Packet)
    requires Sendable(e) && o in Offsets(e)
    ensures IsFragment(Key(0, 0), e, p) && p.offset == o && |p.payload| == Length(e, o)
  {
    StartIsAlignedDown(e, o);
    p := FragmentAt(Key(0, 0), e, o);
  }

  lemma RepeatedOffset(e: Sent, before: seq<nat>, o: nat)
    requires Sendable(e) && o in before
    ensures ToSet(before + [o]) == ToSet(before) && !Distinct(before + [o])
  {
    var i :| 0 <= i < |before| && before[i] == o;
    assert (before + [o])[i] == (before + [o])[|before|];
  }

  lemma NewOffset(e: Sent, before: seq<nat>, o: nat)
    requires Sendable(e) && o in Offsets(e) && o !in before
    ensures |Cover(e, ToSet(before + [o]))| == |Cover(e, ToSet(before))| + Length(e, o)
    ensures Distinct(before + [o]) <==> Distinct(before)
  {
    var p := StartHasFragment(e, o);
    CoverGrows(Key(0, 0), e, ToSet(before), p);
    assert ToSet(before + [o]) == ToSet(before) + {o};
    assert forall i :: 0 <= i < |before| ==> (before + [o])[i] == before[i] && before[i] in before;
  }

  /** The counter is the number of bytes covered exactly when nothing is repeated. */
  lemma {:induction false} WeightOfCover(e: Sent, offsets: seq<nat>)
    requires Sendable(e) && Aligned(e, offsets)
    ensures Within(e, offsets) && |Cover(e, ToSet(offsets))| <= Weight(e, offsets)
    ensures |Cover(e, ToSet(offsets))| == Weight(e, offsets) <==> Distinct(offsets)
  {
    if offsets == [] {
      assert Cover(e, {}) == {};
    } else {
      var before, o := offsets[..|offsets| - 1], offsets[|offsets| - 1];
      assert offsets == before + [o];
      WeightOfCover(e, before);
      if o in before { RepeatedOffset(e, before, o); } else { NewOffset(e, before, o); }
    }
  }

  /** Every byte of the event lies in one of the fragments. */
  ghost predicate Everywhere(e: Sent, got: set<nat>)
    requires e.limit > 0
  {
    forall i: nat :: i < |e.event| ==> Start(e, i) in got
  }

  lemma CoverIsAll(e: Sent, got: set<nat>)
    requires e.limit > 0
    ensures |Cover(e, got)| == |e.event| <==> Everywhere(e, got)
  {
    var all := Span(0, |e.event|);
    if |Cover(e, got)| == |e.event| {
      SubsetFull(Cover(e, got), all);
      forall i: nat | i < |e.event| ensures Start(e, i) in got { assert i in all && i in Cover(e, got); }
    }
    if Everywhere(e, got) { assert Cover(e, got) == all; }
  }

  /** WHEN A FULL BUFFER IS THE EVENT. When the byte count has reached the total, the
      buffer is the event whatever it held before if and only if no fragment was
      placed twice. */
  lemma FullIsEventIffDistinct(e: Sent, offsets: seq<nat>)
    requires Sendable(e) && Aligned(e, offsets) && Within(e, offsets) && Weight(e, offsets) == |e.event|
    ensures (forall base: seq<u8> :: |base| == |e.event| ==> Filled(e, base, offsets) == e.event) <==> Distinct(offsets)
  {
    WeightOfCover(e, offsets);
    CoverIsAll(e, ToSet(offsets));
    if Distinct(offsets) {
      forall base: seq<u8> | |base| == |e.event| ensures Filled(e, base, offsets) == e.event {
        assert forall i: nat :: i < |e.event| ==> Start(e, i) in ToSet(offsets);
        FullIsEventIff(e, base, offsets);
      }
    } else {
      var base := Spoiled(e);
      var i: nat :| i < |e.event| && Start(e, i) !in ToSet(offsets);
      assert Filled(e, base, offsets)[i] == base[i] != e.event[i];
    }
  }

  /** A buffer that agrees with the event nowhere. */
  function Spoiled(e: Sent): (b: seq<u8>)
    ensures |b| == |e.event| && forall i :: 0 <= i < |b| ==> b[i] != e.event[i]
  {
    seq(|e.event|, i requires 0 <= i < |e.event| => if e.event[i] == 0 then 1 else 0)
  }

  /** For one buffer: a full entry is the event exactly when the buffer happened to hold
      the right bytes wherever no fragment was placed. */
  lemma FullIsEventIff(e: Sent, base: seq<u8>, offsets: seq<nat>)
    requires e.limit > 0 && |base| == |e.event|
    ensures Filled(e, base, offsets) == e.event
      <==> forall i :: 0 <= i < |e.event| && Start(e, i) !in offsets ==> base[i] == e.event[i]
  {
    if forall i :: 0 <= i < |e.event| && Start(e, i) !in offsets ==> base[i] == e.event[i] {
      assert forall i :: 0 <= i < |e.event| ==> Filled(e, base, offsets)[i] == e.event[i];
    } else {
      var i :| 0 <= i < |e.event| && Start(e, i) !in offsets && base[i] != e.event[i];
      assert Filled(e, base, offsets)[i] != e.event[i];
    }
  }

  // ---- whole runs ----------------------------------------------------------------------

  lemma {:induction false} SlotIsAligned(cfg: Config, sent: Traffic, steps: seq<Step>, t: nat, k: Key)
    requires Honest(sent, steps) && k in sent && Sendable(sent[k])
    ensures Slot(cfg, sent[k], steps, t, k).Some? ==> Aligned(sent[k], Slot(cfg, sent[k], steps, t, k).value.offsets)
  {
    if steps != [] {
      SlotIsAligned(cfg, sent, steps[..|steps| - 1], t, k);
      var last := steps[|steps| - 1];
      if Reaches(last, t, k) { FragmentOffset(k, sent[k], last.p); }
    }
  }

  lemma {:induction false} EndingsAreAligned(cfg: Config, sent: Traffic, steps: seq<Step>, i: nat)
    requires Honest(sent, steps) && AllSendable(sent) && i < |Endings(cfg, sent, steps)|
    ensures var end := Endings(cfg, sent, steps)[i];
      end.key in sent && Full(sent[end.key], end.entry) && Aligned(sent[end.key], end.entry.offsets)
  {
    var before, last := steps[..|steps| - 1], steps[|steps| - 1];
    if i < |Endings(cfg, sent, before)| {
      EndingsAreAligned(cfg, sent, before, i);
    } else {
      SlotIsAligned(cfg, sent, before, last.tid, last.p.key);
      FragmentOffset(last.p.key, sent[last.p.key], last.p);
    }
  }

  /** The same step, but for what a buffer that it allocates happens to hold. */
  predicate SameStep(x: Step, y: Step) {
    if x.Recv? then y.Recv? && y == x.(a := Alloc(x.a.id, y.a.contents)) else y == x
  }

  /** The same run over other memory: each allocation on its own may hold anything. */
  ghost predicate SameButMemory(steps: seq<Step>, other: seq<Step>) {
    |other| == |steps| && forall i :: 0 <= i < |steps| ==> SameStep(steps[i], other[i])
  }

  lemma SameIsHonest(sent: Traffic, steps: seq<Step>, other: seq<Step>)
    requires SameButMemory(steps, other) && Honest(sent, steps)
    ensures Honest(sent, other)
  {
    forall i | 0 <= i < |other| && other[i].Recv? ensures HonestPacket(sent, other[i].p) {
      assert SameStep(steps[i], other[i]);
    }
  }

  lemma SameBefore(steps: seq<Step>, other: seq<Step>)
    requires SameButMemory(steps, other) && steps != []
    ensures SameButMemory(steps[..|steps| - 1], other[..|steps| - 1])
    ensures SameStep(steps[|steps| - 1], other[|steps| - 1])
  {
  }

  ghost predicate SameSlot(x: Option<Entry>, y: Option<Entry>) {
    if x.Some? then y.Some? && y.value == x.value.(base := y.value.base) else y.None?
  }

  /** Other memory changes what buffers hold, and nothing else about the entries. */
  lemma {:induction false} SlotOfSame(cfg: Config, e: Sent, steps: seq<Step>, other: seq<Step>, t: nat, k: Key)
    requires SameButMemory(steps, other)
    ensures SameSlot(Slot(cfg, e, steps, t, k), Slot(cfg, e, other, t, k))
  {
    if steps != [] {
      SameBefore(steps, other);
      SlotOfSame(cfg, e, steps[..|steps| - 1], other[..|steps| - 1], t, k);
    }
  }

  ghost predicate SameEnding(x: Ending, y: Ending) {
    y == x.(entry := x.entry.(base := y.entry.base))
  }

  lemma {:induction false} EndingsOfSame(cfg: Config, sent: Traffic, steps: seq<Step>, other: seq<Step>)
    requires SameButMemory(steps, other)
    ensures var ends, ends' := Endings(cfg, sent, steps), Endings(cfg, sent, other);
      |ends'| == |ends| && forall i :: 0 <= i < |ends| ==> SameEnding(ends[i], ends'[i])
  {
    if steps != [] {
      var before, last := steps[..|steps| - 1], steps[|steps| - 1];
      SameBefore(steps, other);
      EndingsOfSame(cfg, sent, before, other[..|steps| - 1]);
      if last.Recv? && last.p.key in sent {
        SlotOfSame(cfg, sent[last.p.key], before, other[..|steps| - 1], last.tid, last.p.key);
      }
    }
  }

  /** Every buffer that a datagram of the key could start an entry with holds c. */
  ghost predicate AllHold(steps: seq<Step>, k: Key, c: seq<u8>) {
    forall i :: 0 <= i < |steps| && steps[i].Recv? && steps[i].p.key == k ==> steps[i].a.contents == c
  }

  lemma {:induction false} SlotStartsFrom(cfg: Config, e: Sent, steps: seq<Step>, t: nat, k: Key, c: seq<u8>)
    requires AllHold(steps, k, c)
    ensures Slot(cfg, e, steps, t, k).Some? ==> Slot(cfg, e, steps, t, k).value.base == c
  {
    if steps != [] { SlotStartsFrom(cfg, e, steps[..|steps| - 1], t, k, c); }
  }

  lemma {:induction false} EndingsStartFrom(cfg: Config, sent: Traffic, steps: seq<Step>, k: Key, c: seq<u8>)
    requires AllHold(steps, k, c)
    ensures forall i :: 0 <= i < |Endings(cfg, sent, steps)| && Endings(cfg, sent, steps)[i].key == k ==>
      Endings(cfg, sent, steps)[i].entry.base == c
  {
    if steps != [] {
      var before, last := steps[..|steps| - 1], steps[|steps| - 1];
      EndingsStartFrom(cfg, sent, before, k, c);
      if last.Recv? && last.p.key in sent && last.p.key == k {
        SlotStartsFrom(cfg, sent[k], before, last.tid, k, c);
      }
    }
  }

  /** The same run, with every such buffer holding c. */
  function Refilled(steps: seq<Step>, k: Key, c: seq<u8>): (r: seq<Step>)
    ensures |r| == |steps|
  {
    seq(|steps|, i requires 0 <= i < |steps| =>
      if steps[i].Recv? && steps[i].p.key == k then steps[i].(a := Alloc(steps[i].a.id, c)) else steps[i])
  }

  lemma RefilledIsSame(cfg: Config, sent: Traffic, steps: seq<Step>, k: Key, c: seq<u8>)
    requires Legal(cfg, steps) && Honest(sent, steps) && k in sent && |c| == |sent[k].event|
    ensures SameButMemory(steps, Refilled(steps, k, c)) && Legal(cfg, Refilled(steps, k, c))
    ensures AllHold(Refilled(steps, k, c), k, c)
  {
    forall i | 0 <= i < |steps| ensures WellFormed(cfg, Refilled(steps, k, c)[i]) {
      assert WellFormed(cfg, steps[i]) && (steps[i].Recv? ==> HonestPacket(sent, steps[i].p));
    }
  }

  /** What finishes under the key in this run is the event. */
  ghost predicate Right(cfg: Config, steps: seq<Step>, k: Key, e: Sent)
    requires Legal(cfg, steps)
  {
    Run(cfg, steps).Some? && FinishedRight(Run(cfg, steps).value.sh.finished, k, e)
  }

  ghost predicate FinishedRight(fin: seq<Finish>, k: Key, e: Sent) {
    forall i :: 0 <= i < |fin| && fin[i].item.key == k ==> fin[i].item.event == e.event
  }

  /** Over any memory, what finishes under the key is the event that was sent. */
  ghost predicate AlwaysRight(cfg: Config, sent: Traffic, steps: seq<Step>, k: Key)
    requires k in sent
  {
    forall other :: SameButMemory(steps, other) && Legal(cfg, other) ==> Right(cfg, other, k, sent[k])
  }

  /** No entry of the key that became full had a fragment placed in it twice. */
  ghost predicate NoneRepeated(cfg: Config, sent: Traffic, steps: seq<Step>, k: Key) {
    var ends := Endings(cfg, sent, steps);
    forall i :: 0 <= i < |ends| && ends[i].key == k ==> Distinct(ends[i].entry.offsets)
  }

  /** The buffer of an entry held the right bytes wherever no fragment was placed. */
  ghost predicate HeldRight(e: Sent, en: Entry)
    requires e.limit > 0
  {
    && |en.base| == |e.event|
    && forall i :: 0 <= i < |e.event| && Start(e, i) !in en.offsets ==> en.base[i] == e.event[i]
  }

  lemma EndingIsProper(cfg: Config, sent: Traffic, steps: seq<Step>, i: nat)
    requires Legal(cfg, steps) && Honest(sent, steps) && AllSendable(sent) && i < |Endings(cfg, sent, steps)|
    ensures var end := Endings(cfg, sent, steps)[i];
      && end.key in sent && Proper(sent[end.key], end.entry) && Full(sent[end.key], end.entry)
      && Aligned(sent[end.key], end.entry.offsets)
  {
    RunIsDetermined(cfg, sent, steps);
    EndingsAreAligned(cfg, sent, steps, i);
    assert IsEnding(sent, Run(cfg, steps).value.sh.finished[i], Endings(cfg, sent, steps)[i]);
  }

  ghost predicate AllHeldRight(ends: seq<Ending>, k: Key, e: Sent)
    requires e.limit > 0
  {
    forall i :: 0 <= i < |ends| && ends[i].key == k ==> HeldRight(e, ends[i].entry)
  }

  lemma FinishIsRightIff(sent: Traffic, f: Finish, end: Ending)
    requires IsEnding(sent, f, end)
    ensures f.item.key == end.key
    ensures f.item.event == sent[end.key].event <==> HeldRight(sent[end.key], end.entry)
  {
    FullIsEventIff(sent[end.key], end.entry.base, end.entry.offsets);
  }

  lemma EachIsRightIff(sent: Traffic, fin: seq<Finish>, ends: seq<Ending>, k: Key)
    requires EndingsMatch(sent, ends, fin) && k in sent && Sendable(sent[k])
    ensures FinishedRight(fin, k, sent[k]) <==> AllHeldRight(ends, k, sent[k])
  {
    forall i | 0 <= i < |ends|
      ensures fin[i].item.key == ends[i].key
      ensures ends[i].key == k ==> (fin[i].item.event == sent[k].event <==> HeldRight(sent[k], ends[i].entry))
    {
      assert IsEnding(sent, fin[i], ends[i]);
      FinishIsRightIff(sent, fin[i], ends[i]);
    }
  }

  /** WHEN THIS RUN IS RIGHT. With the memory it has, what finishes under a key is the
      event if and only if each full entry's buffer held the right bytes wherever no
      fragment was placed. */
  lemma RightIffHeldRight(cfg: Config, sent: Traffic, steps: seq<Step>, k: Key)
    requires Legal(cfg, steps) && Honest(sent, steps) && AllSendable(sent) && k in sent
    ensures Right(cfg, steps, k, sent[k]) <==> AllHeldRight(Endings(cfg, sent, steps), k, sent[k])
  {
    RunIsDetermined(cfg, sent, steps);
    EachIsRightIff(sent, Run(cfg, steps).value.sh.finished, Endings(cfg, sent, steps), k);
  }

  /** Without repetitions the memory does not matter. */
  lemma DistinctIsRight(cfg: Config, sent: Traffic, steps: seq<Step>, k: Key)
    requires Legal(cfg, steps) && Honest(sent, steps) && AllSendable(sent) && k in sent
    requires NoneRepeated(cfg, sent, steps, k)
    ensures Right(cfg, steps, k, sent[k])
  {
    var ends := Endings(cfg, sent, steps);
    forall i | 0 <= i < |ends| && ends[i].key == k
      ensures HeldRight(sent[k], ends[i].entry)
    {
      EndingIsProper(cfg, sent, steps, i);
      FullIsEventIffDistinct(sent[k], ends[i].entry.offsets);
      FullIsEventIff(sent[k], ends[i].entry.base, ends[i].entry.offsets);
    }
    RightIffHeldRight(cfg, sent, steps, k);
  }

  lemma RepetitionsStay(cfg: Config, sent: Traffic, steps: seq<Step>, other: seq<Step>, k: Key)
    requires SameButMemory(steps, other)
    ensures NoneRepeated(cfg, sent, other, k) <==> NoneRepeated(cfg, sent, steps, k)
  {
    var ends, ends' := Endings(cfg, sent, steps), Endings(cfg, sent, other);
    EndingsOfSame(cfg, sent, steps, other);
    forall i | 0 <= i < |ends| ensures ends'[i].key == ends[i].key && ends'[i].entry.offsets == ends[i].entry.offsets {
      assert SameEnding(ends[i], ends'[i]);
    }
  }

  /** With a repetition, some memory makes the run wrong. */
  lemma RepeatedGoesWrong(cfg: Config, sent: Traffic, steps: seq<Step>, k: Key) returns (other: seq<Step>)
    requires Legal(cfg, steps) && Honest(sent, steps) && AllSendable(sent) && k in sent
    requires !NoneRepeated(cfg, sent, steps, k)
    ensures SameButMemory(steps, other) && Legal(cfg, other) && !Right(cfg, other, k, sent[k])
  {
    var e := sent[k];
    var i :| 0 <= i < |Endings(cfg, sent, steps)| && Endings(cfg, sent, steps)[i].key == k
      && !Distinct(Endings(cfg, sent, steps)[i].entry.offsets);
    var offsets := Endings(cfg, sent, steps)[i].entry.offsets;
    EndingIsProper(cfg, sent, steps, i);
    FullIsEventIffDistinct(e, offsets);
    var c: seq<u8> :| |c| == |e.event| && Filled(e, c, offsets) != e.event;
    other := Refilled(steps, k, c);
    RefilledIsSame(cfg, sent, steps, k, c);
    SameIsHonest(sent, steps, other);
    EndingsOfSame(cfg, sent, steps, other);
    EndingsStartFrom(cfg, sent, other, k, c);
    assert SameEnding(Endings(cfg, sent, steps)[i], Endings(cfg, sent, other)[i]);
    FullIsEventIff(e, c, offsets);
    RightIffHeldRight(cfg, sent, other, k);
  }

  /** WHEN REPETITIONS ARE HARMLESS. Whatever arrives, however often, what finishes
      under a key is the event that was sent, over any memory, this run's own among
      them, if and only if no entry of the key that became full had a fragment placed
      in it twice. */
  lemma RightIffNoneRepeated(cfg: Config, sent: Traffic, steps: seq<Step>, k: Key)
    requires Legal(cfg, steps) && Honest(sent, steps) && AllSendable(sent) && k in sent
    ensures AlwaysRight(cfg, sent, steps, k) <==> NoneRepeated(cfg, sent, steps, k)
    ensures NoneRepeated(cfg, sent, steps, k) ==> Right(cfg, steps, k, sent[k])
  {
    if NoneRepeated(cfg, sent, steps, k) {
      forall other | SameButMemory(steps, other) && Legal(cfg, other) ensures Right(cfg, other, k, sent[k]) {
        SameIsHonest(sent, steps, other);
        RepetitionsStay(cfg, sent, steps, other, k);
        DistinctIsRight(cfg, sent, other, k);
      }
      DistinctIsRight(cfg, sent, steps, k);
    } else {
      var other := RepeatedGoesWrong(cfg, sent, steps, k);
    }
  }

  // ---- an input ------------------------------------------------------------------------

  /** Cut into single bytes, every offset counts one. */
  lemma {:induction false} SingleBytes(e: Sent, offsets: seq<nat>)
    requires e.limit == 1 && Within(e, offsets)
    ensures Weight(e, offsets) == |offsets|
  {
    if offsets != [] { SingleBytes(e, offsets[..|offsets| - 1]); }
  }

  /** The first fragment, the second, and the second again, of a three-byte event cut
      into single bytes. */
  function Repeated(k: Key, e: Sent, contents: seq<u8>): seq<Step>
    requires |e.event| == 3 && e.limit == 1
  {
    var p0, p1 := FragmentAt(k, e, 0), FragmentAt(k, e, 1);
    [Recv(0, p0, 0, Alloc(0, contents), true), Recv(0, p1, 0, Alloc(1, contents), true),
     Recv(0, p1, 0, Alloc(2, contents), true)]
  }

  lemma RepeatedStarts(cfg: Config, sent: Traffic, steps: seq<Step>, k: Key)
    requires k in sent && |sent[k].event| == 3 && sent[k].limit == 1
    requires |steps| == 1 && Reaches(steps[0], 0, k) && steps[0].p.offset == 0
    ensures Slot(cfg, sent[k], steps, 0, k) == Some(Entry([0], steps[0].now, steps[0].a.contents, steps[0].a.id))
    ensures Endings(cfg, sent, steps) == []
  {
    SingleBytes(sent[k], [0]);
    assert steps[..0] == [];
    assert Slot(cfg, sent[k], [], 0, k) == None && Endings(cfg, sent, []) == [];
  }

  lemma RepeatedAttaches(cfg: Config, sent: Traffic, steps: seq<Step>, k: Key, en: Entry)
    requires k in sent && |sent[k].event| == 3 && sent[k].limit == 1
    requires steps != [] && Slot(cfg, sent[k], steps[..|steps| - 1], 0, k) == Some(en) && Within(sent[k], en.offsets)
    requires Reaches(steps[|steps| - 1], 0, k) && steps[|steps| - 1].p.offset == 1
    ensures var grown := en.(offsets := en.offsets + [1]);
      && Slot(cfg, sent[k], steps, 0, k) == (if |en.offsets| == 2 then None else Some(grown))
      && Endings(cfg, sent, steps) == Endings(cfg, sent, steps[..|steps| - 1])
          + if |en.offsets| == 2 then [Ending(0, k, grown, steps[|steps| - 1].pushOk)] else []
  {
    SingleBytes(sent[k], en.offsets + [1]);
  }

  lemma RepeatedEndsOnce(cfg: Config, sent: Traffic, k: Key, contents: seq<u8>)
    requires k in sent && |sent[k].event| == 3 && sent[k].limit == 1
    ensures Endings(cfg, sent, Repeated(k, sent[k], contents))
      == [Ending(0, k, Entry([0, 1, 1], 0, contents, 0), true)]
  {
    var steps := Repeated(k, sent[k], contents);
    assert steps[..2][..1] == steps[..1];
    RepeatedStarts(cfg, sent, steps[..1], k);
    RepeatedAttaches(cfg, sent, steps[..2], k, Entry([0], 0, contents, 0));
    assert [0] + [1] == [0, 1] && [0, 1] + [1] == [0, 1, 1];
    RepeatedAttaches(cfg, sent, steps, k, Entry([0, 1], 0, contents, 0));
  }

  /** The buffer that three copies of single bytes leave. */
  lemma RepeatedFills(e: Sent, base: seq<u8>)
    requires |e.event| == 3 && e.limit == 1 && |base| == 3
    ensures Filled(e, base, [0, 1, 1]) == [e.event[0], e.event[1], base[2]]
  {
    assert Start(e, 0) == 0 && Start(e, 1) == 1 && Start(e, 2) == 2;
  }

  /** A DUPLICATE CORRUPTS. Every datagram is genuine and the event finishes, with the
      last byte of the buffer it was given. */
  lemma DuplicateCorrupts(k: Key, e: Sent, contents: seq<u8>)
    requires |e.event| == 3 && e.limit == 1 && |contents| == 3
    ensures var steps := Repeated(k, e, contents);
      && Legal(Config(1, 500), steps) && Honest(map[k := e], steps) && Run(Config(1, 500), steps).Some?
      && |Run(Config(1, 500), steps).value.sh.finished| == 1
      && Run(Config(1, 500), steps).value.sh.finished[0].item.event == [e.event[0], e.event[1], contents[2]]
  {
    var steps, sent, cfg := Repeated(k, e, contents), map[k := e], Config(1, 500);
    RunIsDetermined(cfg, sent, steps);
    RepeatedEndsOnce(cfg, sent, k, contents);
    RepeatedFills(e, contents);
    assert IsEnding(sent, Run(cfg, steps).value.sh.finished[0], Endings(cfg, sent, steps)[0]);
  }
}
