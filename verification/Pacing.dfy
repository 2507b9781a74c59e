/** Rate limiting between events: the sleep computed from the event's size, and the
    busy wait on a microsecond clock. Times are reals, in microseconds, and a rate is
    in bits per microsecond: rateGbps * 1000. */
module Pacing {
  import opened Types
  import opened Arithmetic

  function BitsOf(bytes: u32): nat {
    8 * (bytes as int)
  }

  /** bytes * 8 is computed in 32 bits. */
  function WireBits(bytes: u32): (b: u32) {
    BitsOf(bytes) % 0x1_0000_0000
  }

  /** How long bits take at the rate that is set. */
  function Usecs(bits: nat, rate: real): real
    requires rate > 0.0
  {
    bits as real / rate
  }

  /** interEventSleepUsec: the conversion to an integer drops the fraction. */
  function SleepUsec(bytes: u32, rate: real): int
    requires rate > 0.0
  {
    Usecs(WireBits(bytes), rate).Floor
  }

  /** The wait in numbers: eight bits a byte, cut to 32 bits, over the rate. */
  lemma SleepIs(bytes: u32, rate: real)
    requires rate > 0.0
    ensures SleepUsec(bytes, rate) == ((8 * (bytes as int) % 0x1_0000_0000) as real / rate).Floor
    ensures Paced(bytes, rate) <==> 8 * (bytes as int) < 0x1_0000_0000 && rate <= (8 * (bytes as int)) as real
  {
  }

  /** Having popped an event at t, the dispatcher may pop the next one at next. */
  predicate Allows(bytes: u32, rate: real, t: real, next: real)
    requires rate > 0.0
  {
    next >= t && (SleepUsec(bytes, rate) > 0 ==> (next - t).Floor > SleepUsec(bytes, rate))
  }

  /** An event the limiter sees: its bits are not cut off, and they take at least a
      microsecond at the rate that is set. */
  predicate Paced(bytes: u32, rate: real) {
    BitsOf(bytes) < TWO_32 && rate <= BitsOf(bytes) as real
  }

  /** Comparing times is comparing bits. */
  lemma UsecsCompare(bits: nat, rate: real, x: real)
    requires rate > 0.0
    ensures Usecs(bits, rate) < x <==> bits as real < rate * x
    ensures rate * Usecs(bits, rate) == bits as real
  {
    var r, y := rate, Usecs(bits, rate);
    assert r * y == bits as real;
    if y < x { assert r * (x - y) > 0.0; }
    if y > x { assert r * (y - x) > 0.0; }
  }

  /** An event takes at least a microsecond when it has the bits for one. */
  lemma PacedTakesTime(bytes: u32, rate: real)
    requires rate > 0.0
    ensures Paced(bytes, rate) <==> BitsOf(bytes) < TWO_32 && Usecs(BitsOf(bytes), rate) >= 1.0
  {
    UsecsCompare(BitsOf(bytes), rate, 1.0);
  }

  lemma FloorGap(x: real, gap: real)
    requires x >= 1.0 && (x.Floor > 0 ==> gap.Floor > x.Floor)
    ensures x < gap
  {
  }

  lemma GapIsLongEnough(bytes: u32, rate: real, t: real, next: real)
    requires rate > 0.0 && Paced(bytes, rate) && Allows(bytes, rate, t, next)
    ensures Usecs(BitsOf(bytes), rate) < next - t
  {
    PacedTakesTime(bytes, rate);
    assert WireBits(bytes) == BitsOf(bytes);
    FloorGap(Usecs(BitsOf(bytes), rate), next - t);
  }

  /** EXACTLY THE PACED EVENTS. The wait after an event keeps the rate, whatever the
      clock does, if and only if the event has fewer than 2^32 bits and at least one
      microsecond's worth of them. */
  lemma PacedIff(bytes: u32, rate: real)
    requires rate > 0.0
    ensures Paced(bytes, rate) <==>
      forall t, next :: Allows(bytes, rate, t, next) ==> BitsOf(bytes) as real < rate * (next - t)
  {
    if Paced(bytes, rate) {
      forall t, next | Allows(bytes, rate, t, next)
        ensures BitsOf(bytes) as real < rate * (next - t)
      {
        GapIsLongEnough(bytes, rate, t, next);
        UsecsCompare(BitsOf(bytes), rate, next - t);
      }
    } else {
      var next := Shortfall(bytes, rate);
      UsecsCompare(BitsOf(bytes), rate, next - 0.0);
      assert Allows(bytes, rate, 0.0, next);
    }
  }

  /** A gap that the code allows and that is too short. */
  lemma Shortfall(bytes: u32, rate: real) returns (next: real)
    requires rate > 0.0 && !Paced(bytes, rate)
    ensures Allows(bytes, rate, 0.0, next) && Usecs(BitsOf(bytes), rate) >= next
  {
    PacedTakesTime(bytes, rate);
    var s := SleepUsec(bytes, rate);
    if s <= 0 {
      next := 0.0;
    } else {
      next := s as real + 1.0;
      assert next.Floor == s + 1;
      CutIsTooMuch(bytes, rate);
    }
  }

  /** An event whose bits are cut off to something that is still waited for loses
      more than a microsecond's worth. */
  lemma CutIsTooMuch(bytes: u32, rate: real)
    requires rate > 0.0 && BitsOf(bytes) >= TWO_32 && Usecs(WireBits(bytes), rate) >= 1.0
    ensures Usecs(BitsOf(bytes), rate) >= Usecs(WireBits(bytes), rate) + 1.0
  {
    var w, b := WireBits(bytes), BitsOf(bytes);
    assert w < TWO_32 && w + TWO_32 <= b;
    UsecsCompare(w, rate, 1.0);
    UsecsCompare(b, rate, Usecs(w, rate) + 1.0);
    UsecsCompare(w, rate, 0.0);
  }

  // ---- runs -------------------------------------------------------------------

  function Bits(events: seq<u32>): nat {
    if events == [] then 0 else Bits(events[..|events| - 1]) + BitsOf(events[|events| - 1])
  }

  /** The events too short for the limiter to wait after. */
  function Short(events: seq<u32>, rate: real): nat {
    if events == [] then 0
    else Short(events[..|events| - 1], rate) + if Paced(events[|events| - 1], rate) then 0 else 1
  }

  /** times[i] is when event i was popped. */
  ghost predicate Schedule(events: seq<u32>, rate: real, times: seq<real>)
    requires rate > 0.0
  {
    && |times| == |events| + 1
    && forall i :: 0 <= i < |events| ==> Allows(events[i], rate, times[i], times[i + 1])
  }

  /** The time the events take at the rate that is set. */
  function Duration(events: seq<u32>, rate: real): real
    requires rate > 0.0
  {
    if events == [] then 0.0
    else Duration(events[..|events| - 1], rate) + Usecs(BitsOf(events[|events| - 1]), rate)
  }

  lemma {:induction false} DurationOfBits(events: seq<u32>, rate: real)
    requires rate > 0.0
    ensures rate * Duration(events, rate) == Bits(events) as real
  {
    if events == [] {
    } else {
      var n := |events| - 1;
      DurationOfBits(events[..n], rate);
      UsecsCompare(BitsOf(events[n]), rate, 0.0);
      Distribute(rate, Duration(events[..n], rate), Usecs(BitsOf(events[n]), rate));
    }
  }

  lemma Scale(r: real, x: real, b: real, y: real)
    requires r > 0.0 && r * x == b && x < y
    ensures b < r * y
  {
    assert r * (y - x) > 0.0;
  }

  lemma {:induction false} TimeIsKept(events: seq<u32>, rate: real, times: seq<real>)
    requires rate > 0.0 && Schedule(events, rate, times) && events != []
    requires forall i :: 0 <= i < |events| ==> BitsOf(events[i]) < TWO_32
    ensures Duration(events, rate) < times[|events|] - times[0] + Short(events, rate) as real
  {
    var n := |events| - 1;
    if n > 0 {
      assert Schedule(events[..n], rate, times[..n + 1]);
      TimeIsKept(events[..n], rate, times[..n + 1]);
    } else {
      assert events[..n] == [];
    }
    PacedTakesTime(events[n], rate);
    if Paced(events[n], rate) { GapIsLongEnough(events[n], rate, times[n], times[n + 1]); }
  }

  lemma DurationBounds(events: seq<u32>, rate: real, y: real)
    requires rate > 0.0 && Duration(events, rate) < y
    ensures Bits(events) as real < rate * y
  {
    DurationOfBits(events, rate);
    Scale(rate, Duration(events, rate), Bits(events) as real, y);
  }

  /** PACING. For events below 2^29 bytes, what is dispatched before any moment of
      popping stays below the rate times the time since the first pop, plus one
      microsecond's worth for each event too short to be waited for. */
  lemma RateIsKept(events: seq<u32>, rate: real, times: seq<real>) returns (allowance: real)
    requires rate > 0.0 && Schedule(events, rate, times) && events != []
    requires forall i :: 0 <= i < |events| ==> BitsOf(events[i]) < TWO_32
    ensures allowance == times[|events|] - times[0] + Short(events, rate) as real
    ensures Bits(events) as real < rate * allowance
  {
    allowance := times[|events|] - times[0] + Short(events, rate) as real;
    TimeIsKept(events, rate, times);
    DurationBounds(events, rate, allowance);
  }

  /** With no short event the bound is the rate itself, for every prefix. */
  lemma {:induction false} RateIsKeptForLongEvents(events: seq<u32>, rate: real, times: seq<real>, k: nat)
    returns (elapsed: real)
    requires rate > 0.0 && Schedule(events, rate, times) && 0 < k <= |events|
    requires forall i :: 0 <= i < |events| ==> Paced(events[i], rate)
    ensures elapsed == times[k] - times[0] && Bits(events[..k]) as real < rate * elapsed
  {
    elapsed := times[k] - times[0];
    assert Schedule(events[..k], rate, times[..k + 1]);
    NoneShort(events[..k], rate);
    TimeIsKept(events[..k], rate, times[..k + 1]);
    DurationBounds(events[..k], rate, elapsed);
  }

  lemma {:induction false} NoneShort(events: seq<u32>, rate: real)
    requires forall i :: 0 <= i < |events| ==> Paced(events[i], rate)
    ensures Short(events, rate) == 0
  {
    if events != [] { NoneShort(events[..|events| - 1], rate); }
  }

  // ---- the loops ----------------------------------------------------------------

  /** busyWaitUsecs, over the readings that the clock will give from position i on:
      stop at the first that is more than usecs away. */
  method BusyWait(tp: real, usecs: int, clock: seq<real>, i: nat) returns (j: nat)
    requires i <= |clock|
    ensures i <= j <= |clock|
    ensures j < |clock| ==> (clock[j] - tp).Floor > usecs
    ensures forall m :: i <= m < j ==> (clock[m] - tp).Floor <= usecs
  {
    j := i;
    while j < |clock|
      invariant i <= j <= |clock|
      invariant forall m :: i <= m < j ==> (clock[m] - tp).Floor <= usecs
    {
      if (clock[j] - tp).Floor > usecs { break; }
      j := j + 1;
    }
  }

  ghost predicate Monotone(clock: seq<real>) {
    forall i, j :: 0 <= i <= j < |clock| ==> clock[i] <= clock[j]
  }

  /** Having popped an event at reading i, the dispatcher pops the next one at reading j:
      at once if there is nothing to wait for, else at the first reading that is more
      than the wait away. */
  predicate PopsNext(clock: seq<real>, i: nat, j: nat, wait: int)
    requires i < |clock| && j < |clock|
  {
    if wait <= 0 then j == i
    else i <= j && (clock[j] - clock[i]).Floor > wait && forall m :: i <= m < j ==> (clock[m] - clock[i]).Floor <= wait
  }

  /** No reading from i on is more than the wait away. */
  predicate NeverPops(clock: seq<real>, i: nat, wait: int)
    requires i < |clock|
  {
    wait > 0 && forall m :: i <= m < |clock| ==> (clock[m] - clock[i]).Floor <= wait
  }

  /** Event k is popped at reading at[k]; the readings begin with the first. */
  ghost predicate PoppedAt(events: seq<u32>, rate: real, clock: seq<real>, at: seq<nat>)
    requires rate > 0.0
  {
    && |at| <= |events| + 1 && (forall k :: 0 <= k < |at| ==> at[k] < |clock|) && (at != [] ==> at[0] == 0)
    && forall k :: 0 <= k < |at| - 1 ==> PopsNext(clock, at[k], at[k + 1], SleepUsec(events[k], rate))
  }

  /** The loop has popped everything, or the clock does not bring it any further. */
  ghost predicate Ended(events: seq<u32>, rate: real, clock: seq<real>, at: seq<nat>)
    requires rate > 0.0 && PoppedAt(events, rate, clock, at)
  {
    || |at| == |events| + 1
    || if at == [] then clock == [] else NeverPops(clock, at[|at| - 1], SleepUsec(events[|at| - 1], rate))
  }

  lemma PopsAllow(events: seq<u32>, rate: real, clock: seq<real>, at: seq<nat>, times: seq<real>)
    requires rate > 0.0 && Monotone(clock) && PoppedAt(events, rate, clock, at) && at != []
    requires |times| == |at| && forall k :: 0 <= k < |at| ==> times[k] == clock[at[k]]
    ensures Schedule(events[..|at| - 1], rate, times)
  {
    forall k | 0 <= k < |at| - 1 ensures Allows(events[k], rate, times[k], times[k + 1]) {
      assert PopsNext(clock, at[k], at[k + 1], SleepUsec(events[k], rate));
      assert clock[at[k]] <= clock[at[k + 1]];
    }
  }

  lemma PopsSnoc(events: seq<u32>, rate: real, clock: seq<real>, at: seq<nat>, next: nat)
    requires rate > 0.0 && PoppedAt(events, rate, clock, at) && 0 < |at| <= |events| && next < |clock|
    requires PopsNext(clock, at[|at| - 1], next, SleepUsec(events[|at| - 1], rate))
    ensures PoppedAt(events, rate, clock, at + [next])
  {
    var more := at + [next];
    forall k | 0 <= k < |more| - 1 ensures PopsNext(clock, more[k], more[k + 1], SleepUsec(events[k], rate)) {
      if k < |at| - 1 { assert more[k + 1] == at[k + 1]; }
    }
  }

  /** The wait after an event that was popped at reading i; j is the reading at which the
      loop comes back, if there is one. */
  method Wait(bytes: u32, rate: real, clock: seq<real>, i: nat) returns (j: nat)
    requires rate > 0.0 && i < |clock|
    ensures j <= |clock|
    ensures if j < |clock| then PopsNext(clock, i, j, SleepUsec(bytes, rate))
            else NeverPops(clock, i, SleepUsec(bytes, rate))
  {
    var sleep := SleepUsec(bytes, rate);
    j := i;
    if sleep > 0 { j := BusyWait(clock[i], sleep, clock, i); }
  }

  /** The dispatching loop with rate limiting on and smoothing off, until the events or
      the clock readings run out. times is when each event was popped, and then when the
      loop came back for another; at says which readings these are. */
  method Dispatch(events: seq<u32>, rateGbps: real, clock: seq<real>) returns (times: seq<real>, at: seq<nat>)
    requires rateGbps > 0.0 && Monotone(clock)
    ensures PoppedAt(events, rateGbps * 1000.0, clock, at) && Ended(events, rateGbps * 1000.0, clock, at)
    ensures |times| == |at| && forall k :: 0 <= k < |at| ==> times[k] == clock[at[k]]
    ensures times != [] ==> Schedule(events[..|times| - 1], rateGbps * 1000.0, times)
  {
    var rate := rateGbps * 1000.0;
    times, at := [], [];
    if clock == [] { return; }
    times, at := [clock[0]], [0];
    for k := 0 to |events|
      invariant |times| == |at| == k + 1 && PoppedAt(events, rate, clock, at)
      invariant forall i :: 0 <= i < |at| ==> times[i] == clock[at[i]]
    {
      var next := Wait(events[k], rate, clock, at[k]);
      if next >= |clock| { break; }
      PopsSnoc(events, rate, clock, at, next);
      times, at := times + [clock[next]], at + [next];
    }
    PopsAllow(events, rate, clock, at, times);
  }
}
