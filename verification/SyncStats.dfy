/** Sync statistics: sends counted by the workers, taken by the sync thread at every
    tick, and kept in a ring from which the event rate is computed. */
module SyncStats {
  import opened Types
  import opened Arithmetic
  import opened Sequences

  /** SendStats: when the period began, and the events sent in it. */
  datatype Record = Record(start: u64, events: u64)

  /** The sync thread: between ticks, after taking the start time, and after taking
      the count as well. */
  datatype Pc = Between | Started(start: u64) | Taken(rec: Record)

  /** records, ticks, sends and taken are history: everything pushed, the time of every
      tick, the number of sends counted, and what that was each time it was taken. */
  datatype State = State(
    start: u64, inCurrent: u64, pc: Pc, ring: seq<Record>,
    records: seq<Record>, ticks: seq<u64>, sends: nat, taken: seq<nat>)

  datatype Step =
    | Send             // a worker: eventsInCurrentSync++
    | Tick(now: u64)   // exchange the start time, or set it the first time
    | Take             // exchange the count
    | Push             // onto the ring

  predicate Enabled(s: State, step: Step) {
    match step
    case Send => true
    case Tick(now) => s.pc == Between && now > 0
    case Take => s.pc.Started?
    case Push => s.pc.Taken?
  }

  function Next(s: State, capacity: nat, step: Step): State
    requires Enabled(s, step)
  {
    match step
    case Send => s.(inCurrent := (s.inCurrent + 1) % 0x1_0000_0000_0000_0000, sends := s.sends + 1)
    case Tick(now) =>
      var t := s.(start := now, ticks := s.ticks + [now]);
      if s.start != 0 then t.(pc := Started(s.start)) else t
    case Take => s.(pc := Taken(Record(s.pc.start, s.inCurrent)), inCurrent := 0, taken := s.taken + [s.sends])
    case Push => s.(pc := Between, ring := PushBack(s.ring, capacity, s.pc.rec), records := s.records + [s.pc.rec])
  }

  function Init(): State {
    State(0, 0, Between, [], [], [], 0, [])
  }

  ghost function Run(capacity: nat, steps: seq<Step>): Option<State> {
    if steps == [] then Some(Init())
    else
      match Run(capacity, steps[..|steps| - 1])
      case None => None
      case Some(s) => if Enabled(s, steps[|steps| - 1]) then Some(Next(s, capacity, steps[|steps| - 1])) else None
  }

  function Sum(rs: seq<Record>): nat {
    if rs == [] then 0 else Sum(rs[..|rs| - 1]) + rs[|rs| - 1].events
  }

  function InHand(pc: Pc): nat {
    if pc.Taken? then pc.rec.events else 0
  }

  // ---- conservation -----------------------------------------------------------------

  lemma {:induction false} SumSplits(rs: seq<Record>, i: nat)
    requires i <= |rs|
    ensures Sum(rs) == Sum(rs[..i]) + Sum(rs[i..])
  {
    if i < |rs| {
      var n := |rs| - 1;
      SumSplits(rs[..n], i);
      assert rs[..n][..i] == rs[..i] && rs[i..][..n - i] == rs[..n][i..];
    } else {
      assert rs[..i] == rs && rs[i..] == [];
    }
  }

  lemma SumSnoc(rs: seq<Record>, r: Record)
    ensures Sum(rs + [r]) == Sum(rs) + r.events
  {
    assert (rs + [r])[..|rs|] == rs;
  }

  /** Every send is in a record, in the record being made, or in the current count. */
  predicate Conserved(s: State) {
    s.sends < TWO_64 ==> s.sends == Sum(s.records) + InHand(s.pc) + s.inCurrent
  }

  /** Record i starts at tick i; the tick under way is not recorded yet. */
  ghost predicate Tiled(s: State) {
    && (s.start == 0 <==> s.ticks == [])
    && (s.ticks != [] ==> s.start == s.ticks[|s.ticks| - 1])
    && |s.ticks| == (if s.ticks == [] then 0 else |s.records| + 1 + (if s.pc == Between then 0 else 1))
    && (s.ticks == [] ==> s.records == [] && s.pc == Between)
    && (forall i :: 0 <= i < |s.records| ==> s.records[i].start == s.ticks[i])
    && (s.pc.Started? ==> s.pc.start == s.ticks[|s.records|])
    && (s.pc.Taken? ==> s.pc.rec.start == s.ticks[|s.records|])
  }

  /** The records up to one sum up to the sends counted when it was taken. */
  ghost predicate Marked(s: State) {
    && |s.taken| == |s.records| + (if s.pc.Taken? then 1 else 0)
    && (s.sends < TWO_64 ==> forall i :: 0 <= i < |s.taken| ==> s.taken[i] == Recorded(s, i))
  }

  function Recorded(s: State, i: nat): nat {
    if i < |s.records| then Sum(s.records[..i + 1]) else Sum(s.records) + InHand(s.pc)
  }

  ghost predicate Inv(s: State, capacity: nat) {
    Conserved(s) && Tiled(s) && Marked(s) && s.ring == Window(s.records, capacity)
  }

  lemma ConservedStep(s: State, capacity: nat, step: Step)
    requires Conserved(s) && Enabled(s, step)
    ensures Conserved(Next(s, capacity, step))
  {
    if step.Push? { SumSnoc(s.records, s.pc.rec); }
  }

  lemma TiledStep(s: State, capacity: nat, step: Step)
    requires Tiled(s) && Enabled(s, step)
    ensures Tiled(Next(s, capacity, step))
  {
  }

  lemma RecordedStays(s: State, capacity: nat, step: Step, i: nat)
    requires Marked(s) && Enabled(s, step) && i < |s.taken|
    ensures Recorded(Next(s, capacity, step), i) == Recorded(s, i)
  {
    if step.Push? {
      TakeOfMore(s.records, s.pc.rec, i + 1);
      SumSnoc(s.records, s.pc.rec);
    }
  }

  lemma MarkedStep(s: State, capacity: nat, step: Step)
    requires Conserved(s) && Marked(s) && Enabled(s, step)
    ensures Marked(Next(s, capacity, step))
  {
    forall i | 0 <= i < |s.taken| ensures Recorded(Next(s, capacity, step), i) == Recorded(s, i) {
      RecordedStays(s, capacity, step, i);
    }
  }

  lemma InvStep(s: State, capacity: nat, step: Step)
    requires Inv(s, capacity) && Enabled(s, step)
    ensures Inv(Next(s, capacity, step), capacity)
  {
    ConservedStep(s, capacity, step);
    TiledStep(s, capacity, step);
    MarkedStep(s, capacity, step);
    if step.Push? { PushKeepsWindow(s.records, capacity, s.pc.rec); }
  }

  lemma NothingYet(s: State, capacity: nat)
    requires s.start == 0 && s.inCurrent == 0 && s.sends == 0 && s.pc == Between
    requires s.ring == s.records == [] && s.ticks == [] && s.taken == []
    ensures Conserved(s) && Tiled(s) && Marked(s) && s.ring == Window(s.records, capacity)
  {
  }

  lemma InitInv(capacity: nat)
    ensures Inv(Init(), capacity)
  {
    NothingYet(Init(), capacity);
  }

  lemma {:induction false} RunInv(capacity: nat, steps: seq<Step>)
    requires Run(capacity, steps).Some?
    ensures Inv(Run(capacity, steps).value, capacity)
  {
    if steps == [] {
      InitInv(capacity);
    } else {
      RunInv(capacity, steps[..|steps| - 1]);
      InvStep(Run(capacity, steps[..|steps| - 1]).value, capacity, steps[|steps| - 1]);
    }
  }

  // ---- main results -----------------------------------------------------------------

  /** NOTHING IS LOST. Under any interleaving, and below 2^64 sends, the sends counted
      are those in all records ever pushed, in the one being pushed, and in the
      current period. */
  lemma {:induction false} SendsAreConserved(capacity: nat, steps: seq<Step>)
    requires Run(capacity, steps).Some?
    ensures var s := Run(capacity, steps).value;
      s.sends < TWO_64 ==> s.sends == Sum(s.records) + InHand(s.pc) + s.inCurrent
  {
    RunInv(capacity, steps);
  }

  /** NO GAP. Record i begins at tick i and ends where record i + 1 begins: the first
      tick only starts the clock, and every later tick makes one record. */
  lemma RecordsTileTime(capacity: nat, steps: seq<Step>, i: nat)
    requires Run(capacity, steps).Some? && i < |Run(capacity, steps).value.records|
    ensures var s := Run(capacity, steps).value;
      && i + 1 < |s.ticks| && s.records[i].start == s.ticks[i]
      && (if i + 1 < |s.records| then s.records[i + 1].start
          else if s.pc == Between then s.start
          else if s.pc.Started? then s.pc.start else s.pc.rec.start) == s.ticks[i + 1]
  {
    RunInv(capacity, steps);
  }

  /** THE WINDOW. The ring holds the last records, and their sum is the number of
      sends counted from the taking before the oldest of them to the last taking. */
  lemma RingSumIsWindowOfSends(capacity: nat, steps: seq<Step>)
    requires Run(capacity, steps).Some? && Run(capacity, steps).value.sends < TWO_64
    requires var s := Run(capacity, steps).value; s.records != [] && !s.pc.Taken?
    ensures var s := Run(capacity, steps).value; var n := |s.records| - |s.ring|;
      && |s.ring| == (if |s.records| <= capacity then |s.records| else capacity) && s.ring == s.records[n..]
      && n <= |s.taken| == |s.records|
      && Sum(s.ring) + (if n == 0 then 0 else s.taken[n - 1]) == s.taken[|s.taken| - 1]
  {
    RunInv(capacity, steps);
    var s := Run(capacity, steps).value;
    var n := |s.records| - |s.ring|;
    SumSplits(s.records, n);
    assert Recorded(s, |s.taken| - 1) == Sum(s.records) by { assert s.records[..|s.records|] == s.records; }
    assert n > 0 ==> s.taken[n - 1] == Recorded(s, n - 1) == Sum(s.records[..n]);
  }

  // ---- the rate ------------------------------------------------------------------------

  /** std::round of a number that is not negative. */
  function Round(x: real): int {
    (x + 0.5).Floor
  }

  /** The nearest integer; a half goes up. */
  lemma RoundIsNearest(x: real, n: int)
    ensures Round(x) == n <==> x - 0.5 < n as real <= x + 0.5
  {
  }

  /** Walk the ring and add up the events. */
  method Total(ring: seq<Record>) returns (total: u64)
    ensures total == Sum(ring) % 0x1_0000_0000_0000_0000
  {
    total := 0;
    for i := 0 to |ring|
      invariant total == Sum(ring[..i]) % 0x1_0000_0000_0000_0000
    {
      assert ring[..i + 1][..i] == ring[..i];
      AddModulo64(Sum(ring[..i]), ring[i].events);
      total := (total + ring[i].events) % 0x1_0000_0000_0000_0000;
    }
    assert ring[..|ring|] == ring;
  }

  /** The product that eventRate divides, in 64 bits. */
  function Scaled(sends: nat): u64 {
    sends * 1_000_000_000 % 0x1_0000_0000_0000_0000
  }

  /** THE PRODUCT IS RIGHT exactly up to 18446744073 sends. */
  lemma ScaledIsExactIff(sends: nat)
    ensures Scaled(sends) == sends * 1_000_000_000 <==> sends <= 18_446_744_073
  {
    if sends <= 18_446_744_073 { NoModulo64(sends * 1_000_000_000); }
  }

  lemma ScaledOfWrapped(sends: nat)
    ensures Scaled(sends % 0x1_0000_0000_0000_0000) == Scaled(sends)
  {
    var wrapped := sends % 0x1_0000_0000_0000_0000;
    var rounds := sends / 0x1_0000_0000_0000_0000;
    assert sends * 1_000_000_000 == wrapped * 1_000_000_000 + (rounds * 1_000_000_000) * 0x1_0000_0000_0000_0000;
    WholeRounds64(wrapped * 1_000_000_000, rounds * 1_000_000_000);
  }

  /** eventRate: the sends in the ring, over the time since its oldest record began;
      1 while the ring is empty. None stands for a rate that does not fit 32 bits, or is
      no number because no time has passed: C++ leaves its conversion undefined. */
  method EventRate(ring: seq<Record>, now: u64) returns (rate: Option<u32>)
    ensures ring == [] ==> rate == Some(1)
    ensures ring != [] && now == ring[0].start ==> rate == None
    ensures ring != [] && now != ring[0].start ==>
      var hz := Round(Scaled(Sum(ring)) as real / Since(now, ring[0].start) as real);
      rate == if 0 <= hz < TWO_32 then Some(hz) else None
  {
    if ring == [] { return Some(1); }
    var total := Total(ring);
    ScaledOfWrapped(Sum(ring));
    var timeDiff := Since(now, ring[0].start);
    if timeDiff == 0 { return None; }
    var hz := Round(Scaled(total) as real / timeDiff as real);
    return if 0 <= hz < TWO_32 then Some(hz) else None;
  }
}
