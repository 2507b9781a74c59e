/** UDP ports: the range reported to the control plane, the ports a reassembler
    listens on, and their assignment to receive threads. */
module Ports {
  import opened Types
  import opened Arithmetic
  import opened Sequences

  const MAX_SOURCES := 16384

  function Pow2(k: nat): (p: nat)
    ensures p > 0
  {
    if k == 0 then 1 else 2 * Pow2(k - 1)
  }

  lemma {:induction false} Pow2Grows(a: nat, b: nat)
    requires a < b
    ensures 2 * Pow2(a) <= Pow2(b)
  {
    if a + 1 < b { Pow2Grows(a, b - 1); }
  }

  /** The port range is the least exponent whose power of two covers the sources,
      within the enumeration the control plane knows. */
  ghost predicate IsPortRange(sources: int, k: nat) {
    if sources > MAX_SOURCES then k == 14
    else k <= 14 && Pow2(k) >= sources && (k > 0 ==> Pow2(k - 1) < sources)
  }

  /** get_PortRange. */
  method GetPortRange(sourceCount: int) returns (k: nat)
    ensures IsPortRange(sourceCount, k)
  {
    Pow2Of14();
    if sourceCount < 2 { return 0; }
    if sourceCount > MAX_SOURCES { return 14; }
    var maxCount, iteration := 2, 1;
    while sourceCount > maxCount
      invariant 1 <= iteration <= 14 && maxCount == Pow2(iteration) && Pow2(iteration - 1) < sourceCount
      decreases 14 - iteration
    {
      iteration := iteration + 1;
      maxCount := 2 * maxCount;
      if iteration > 14 { Pow2Grows(14, iteration); }
    }
    return iteration;
  }

  lemma Pow2Of14()
    ensures Pow2(13) == 8192 && Pow2(14) == MAX_SOURCES
  {
    assert Pow2(4) == 16 && Pow2(8) == 256 && Pow2(12) == 4096;
  }

  /** No other range fits. */
  lemma PortRangeIsUnique(sources: int, j: nat, k: nat)
    requires IsPortRange(sources, j) && IsPortRange(sources, k)
    ensures j == k
  {
    Pow2Of14();
    if j < k {
      if j < k - 1 { Pow2Grows(j, k - 1); }
    } else if k < j {
      if k < j - 1 { Pow2Grows(k, j - 1); }
    }
  }

  /** numRecvPorts: 2 << (portRange - 1), or one port. */
  method NumRecvPorts(portRange: int) returns (n: nat)
    requires portRange <= 14
    ensures n == if portRange > 0 then Pow2(portRange) else 1
  {
    if portRange > 0 {
      n := 2;
      for shift := 0 to portRange - 1
        invariant n == Pow2(shift + 1)
      {
        n := 2 * n;
      }
    } else {
      n := 1;
    }
  }

  /** THE RANGE SURVIVES. What a worker registers is the range it was given: the
      number of ports it listens on maps back to it. */
  method RegisteredRange(portRange: nat) returns (k: nat)
    requires portRange <= 14
    ensures k == portRange
  {
    var n := NumRecvPorts(portRange);
    k := GetPortRange(n);
    RangeFitsItself(portRange);
    PortRangeIsUnique(n, portRange, k);
  }

  lemma RangeFitsItself(k: nat)
    requires k <= 14
    ensures IsPortRange(Pow2(k), k)
  {
    if k > 0 { Pow2Grows(k - 1, k); }
  }

  // ---- ports and threads -----------------------------------------------------------

  /** The ports below limit whose index is j modulo the number of threads, in order. */
  function PortsOf(dataPort: u16, threads: nat, limit: nat, j: nat): seq<int>
    requires threads > 0
  {
    if limit == 0 then []
    else PortsOf(dataPort, threads, limit - 1, j) + if (limit - 1) % threads == j then [dataPort + (limit - 1)] else []
  }

  /** Where the inner loop stops that starts at port i and thread j. */
  function DealRound(i: nat, j: nat, numRecvPorts: nat, threads: nat): nat
    decreases threads - j
  {
    if i < numRecvPorts && j < threads then DealRound(i + 1, j + 1, numRecvPorts, threads) else i
  }

  /** Where the outer loop is after some rounds. */
  function DealtAfter(rounds: nat, numRecvPorts: nat, threads: nat): nat {
    if rounds == 0 then 0
    else
      var i := DealtAfter(rounds - 1, numRecvPorts, threads);
      if i < numRecvPorts then DealRound(i, 0, numRecvPorts, threads) else i
  }

  lemma {:induction false} RoundAdvances(i: nat, j: nat, numRecvPorts: nat, threads: nat)
    requires i < numRecvPorts
    ensures DealRound(i, j, numRecvPorts, threads) >= i
    ensures DealRound(i, j, numRecvPorts, threads) > i <==> j < threads
    decreases threads - j
  {
    if j < threads && i + 1 < numRecvPorts { RoundAdvances(i + 1, j + 1, numRecvPorts, threads); }
  }

  lemma {:induction false} RoundsAdvance(rounds: nat, numRecvPorts: nat, threads: nat)
    ensures threads > 0 ==> DealtAfter(rounds, numRecvPorts, threads) >= Least(rounds, numRecvPorts)
    ensures threads == 0 ==> DealtAfter(rounds, numRecvPorts, threads) == 0
  {
    if rounds > 0 {
      RoundsAdvance(rounds - 1, numRecvPorts, threads);
      var i := DealtAfter(rounds - 1, numRecvPorts, threads);
      if i < numRecvPorts { RoundAdvances(i, 0, numRecvPorts, threads); }
    }
  }

  function Least(a: nat, b: nat): nat {
    if a < b then a else b
  }

  /** WHEN THE PORTS ARE ALL DEALT. The outer loop ends after some number of rounds if
      and only if there is a thread, or no port. */
  lemma AssignmentEndsIff(numRecvPorts: nat, threads: nat)
    ensures (exists rounds: nat :: DealtAfter(rounds, numRecvPorts, threads) >= numRecvPorts)
      <==> threads > 0 || numRecvPorts == 0
  {
    if threads > 0 || numRecvPorts == 0 {
      RoundsAdvance(numRecvPorts, numRecvPorts, threads);
      assert DealtAfter(numRecvPorts, numRecvPorts, threads) >= numRecvPorts;
    } else {
      forall rounds: nat ensures DealtAfter(rounds, numRecvPorts, threads) < numRecvPorts {
        RoundsAdvance(rounds, numRecvPorts, threads);
      }
    }
  }

  /** assignPortsToThreads, where the outer loop ends. */
  method AssignPortsToThreads(dataPort: u16, numRecvPorts: nat, threadsToPorts: array<seq<int>>)
    requires threadsToPorts.Length > 0
    requires forall j :: 0 <= j < threadsToPorts.Length ==> threadsToPorts[j] == []
    modifies threadsToPorts
    ensures forall j :: 0 <= j < threadsToPorts.Length ==>
      threadsToPorts[j] == PortsOf(dataPort, threadsToPorts.Length, numRecvPorts, j)
  {
    var threads := threadsToPorts.Length;
    var i := 0;
    ghost var rounds := 0;
    while i < numRecvPorts
      invariant i <= numRecvPorts && (i == threads * rounds || i == numRecvPorts)
      invariant forall j :: 0 <= j < threads ==> threadsToPorts[j] == PortsOf(dataPort, threads, i, j)
    {
      var j := 0;
      while i < numRecvPorts && j < threads
        invariant i <= numRecvPorts && j <= threads && i == threads * rounds + j
        invariant forall m :: 0 <= m < threads ==> threadsToPorts[m] == PortsOf(dataPort, threads, i, m)
      {
        ModUnique(i, threads, rounds, j);
        threadsToPorts[j] := threadsToPorts[j] + [dataPort + i];
        i, j := i + 1, j + 1;
      }
      rounds := rounds + 1;
    }
  }

  /** A thread's ports are in increasing order, and so without repetition. */
  lemma {:induction false} PortsIncrease(dataPort: u16, threads: nat, limit: nat, j: nat)
    requires threads > 0
    ensures forall p :: p in PortsOf(dataPort, threads, limit, j) ==> dataPort <= p < dataPort + limit
    ensures Increasing(PortsOf(dataPort, threads, limit, j))
  {
    if limit > 0 {
      PortsIncrease(dataPort, threads, limit - 1, j);
      IncreasingGrows(PortsOf(dataPort, threads, limit - 1, j), dataPort + (limit - 1));
      NextPort(dataPort, threads, limit, j);
    }
  }

  lemma NextPort(dataPort: u16, threads: nat, limit: nat, j: nat)
    requires threads > 0 && limit > 0
    ensures PortsOf(dataPort, threads, limit, j)
      == if (limit - 1) % threads == j then PortsOf(dataPort, threads, limit - 1, j) + [dataPort + (limit - 1)]
         else PortsOf(dataPort, threads, limit - 1, j)
  {
  }

  lemma OneMorePort(had: seq<int>, has: seq<int>, mine: bool, x: int, p: int)
    requires has == if mine then had + [x] else had
    ensures p in has <==> p in had || (mine && p == x)
  {
  }

  lemma LastPort(dataPort: u16, threads: nat, limit: nat, j: nat)
    requires threads > 0 && limit > 0
    ensures dataPort + (limit - 1) in PortsOf(dataPort, threads, limit, j) <==> (limit - 1) % threads == j
  {
    PortsIncrease(dataPort, threads, limit - 1, j);
    NextPort(dataPort, threads, limit, j);
  }

  lemma EarlierPort(dataPort: u16, threads: nat, limit: nat, i: nat, j: nat)
    requires threads > 0 && i < limit - 1
    ensures dataPort + i in PortsOf(dataPort, threads, limit, j)
      <==> dataPort + i in PortsOf(dataPort, threads, limit - 1, j)
  {
    NextPort(dataPort, threads, limit, j);
    OneMorePort(PortsOf(dataPort, threads, limit - 1, j), PortsOf(dataPort, threads, limit, j),
                (limit - 1) % threads == j, dataPort + (limit - 1), dataPort + i);
  }

  /** DEALT OUT. Port dataPort + i goes to thread i modulo the number of threads and
      to no other. */
  lemma {:induction false} PortsAreDealtOut(dataPort: u16, threads: nat, limit: nat, i: nat, j: nat)
    requires threads > 0 && i < limit
    ensures dataPort + i in PortsOf(dataPort, threads, limit, j) <==> i % threads == j
  {
    if i < limit - 1 {
      EarlierPort(dataPort, threads, limit, i, j);
      PortsAreDealtOut(dataPort, threads, limit - 1, i, j);
    } else {
      LastPort(dataPort, threads, limit, j);
    }
  }

  /** EVENLY. A thread has at most one port more than any after it, and exactly one
      more when the last round stopped between them. */
  lemma {:induction false} PortsAreEven(dataPort: u16, threads: nat, limit: nat, j: nat, k: nat)
    requires threads > 0 && j <= k < threads
    ensures |PortsOf(dataPort, threads, limit, j)|
      == |PortsOf(dataPort, threads, limit, k)| + if j < limit % threads <= k then 1 else 0
  {
    if limit == 0 {
      ModUnique(0, threads, 0, 0);
    } else {
      PortsAreEven(dataPort, threads, limit - 1, j, k);
      NextModulo(limit - 1, threads);
    }
  }

  /** In the first two rounds the counts can be read off. */
  lemma {:induction false} FirstRounds(dataPort: u16, threads: nat, limit: nat, j: nat)
    requires threads > 0 && j < threads && limit <= 2 * threads
    ensures |PortsOf(dataPort, threads, limit, j)|
      == if limit <= j then 0 else if limit <= threads + j then 1 else 2
  {
    if limit > 0 {
      FirstRounds(dataPort, threads, limit - 1, j);
      if limit - 1 < threads {
        ModUnique(limit - 1, threads, 0, limit - 1);
      } else {
        ModUnique(limit - 1, threads, 1, limit - 1 - threads);
      }
    }
  }

  /** THE DEFAULT RANGE. When the range is derived from the number of threads, every
      thread has one or two ports; beyond 16384 threads some have none. */
  lemma DefaultRangeServesAll(dataPort: u16, threads: nat, k: nat, j: nat)
    requires threads > 0 && IsPortRange(threads, k) && j < threads
    ensures |PortsOf(dataPort, threads, Pow2(k), j)|
      == if Pow2(k) <= j then 0 else if Pow2(k) <= threads + j then 1 else 2
    ensures threads <= MAX_SOURCES ==> 1 <= |PortsOf(dataPort, threads, Pow2(k), j)| <= 2
  {
    FirstRounds(dataPort, threads, Pow2(k), j);
  }
}
