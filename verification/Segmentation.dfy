/** What the segmenter cuts an event into, independently of how it is sent. */
module Segmentation {
  import opened Types
  import opened Arithmetic
  import opened Wire

  /** An event is identified by its number and the id of its data source. */
  datatype Key = Key(eventNum: u64, dataId: u16)

  /** One datagram past the load balancer: the RE header and the event segment.
      length is the length of the whole event. */
  datatype Packet = Packet(key: Key, offset: u32, length: u32, payload: seq<u8>)

  /** An event as it was handed to a segmenter whose payload limit is limit. */
  datatype Sent = Sent(event: seq<u8>, limit: nat)

  ghost predicate Sendable(e: Sent) {
    |e.event| < TWO_32 && e.limit > 0
  }

  function Min(a: int, b: int): int {
    if a <= b then a else b
  }

  /** The fragment that starts at a byte offset. */
  function FragmentAt(k: Key, e: Sent, off: nat): Packet
    requires Sendable(e) && off < |e.event|
  {
    Packet(k, off, |e.event|, e.event[off..Min(off + e.limit, |e.event|)])
  }

  /** How many fragments of at most m bytes an event of n bytes needs. */
  function NumBuffers(n: nat, m: nat): nat
    requires m > 0
  {
    if n == 0 then 0 else 1 + NumBuffers(n - Min(n, m), m)
  }

  /** The fragments from an offset to the end of the event. */
  function CutFrom(k: Key, e: Sent, off: nat): (ps: seq<Packet>)
    requires Sendable(e) && off <= |e.event|
    ensures |ps| == NumBuffers(|e.event| - off, e.limit)
    decreases |e.event| - off
  {
    if off == |e.event| then []
    else [FragmentAt(k, e, off)] + CutFrom(k, e, Min(off + e.limit, |e.event|))
  }

  /** The datagrams of an event, in the order they are sent. */
  function Cut(k: Key, e: Sent): seq<Packet>
    requires Sendable(e)
  {
    CutFrom(k, e, 0)
  }

  /** The fast integer ceiling of _send counts the fragments. */
  lemma {:induction false} CeilingCounts(n: nat, m: nat)
    requires m > 0
    ensures NumBuffers(n, m) == (n + m - 1) / m
  {
    if n == 0 {
      ModUnique(m - 1, m, 0, m - 1);
    } else if n <= m {
      ModUnique(n + m - 1, m, 1, n - 1);
      assert NumBuffers(n - n, m) == 0;
    } else {
      CeilingCounts(n - m, m);
      ModUnique(n + m - 1, m, (n - 1) / m + 1, (n - 1) % m) by {
        assert n - 1 == m * ((n - 1) / m) + (n - 1) % m;
        assert m * ((n - 1) / m + 1) == m * ((n - 1) / m) + m;
      }
    }
  }

  /** The fragments, described without the loop: aligned, inside the event, and
      holding exactly the bytes of the event at their offset. */
  ghost predicate IsFragment(k: Key, e: Sent, p: Packet) {
    && p.key == k && p.length == |e.event| && Sendable(e)
    && p.offset < |e.event| && p.offset % e.limit == 0
    && p.payload == e.event[p.offset..Min(p.offset + e.limit, |e.event|)]
  }

  ghost predicate InOrder(ps: seq<Packet>) {
    forall i, j :: 0 <= i < j < |ps| ==> ps[i].offset < ps[j].offset
  }

  /** Aligned offsets are a whole limit apart. */
  lemma AlignedGap(a: nat, b: nat, m: nat)
    requires m > 0 && a % m == 0 && b % m == 0 && a < b
    ensures a + m <= b
  {
    var x, y := a / m, b / m;
    assert a == m * x && b == m * y;
    assert x >= y ==> m * x >= m * y;
    assert m * (x + 1) <= m * y;
  }

  lemma NextAligned(off: nat, m: nat)
    requires m > 0 && off % m == 0
    ensures (off + m) % m == 0
  {
    assert m * (off / m + 1) == m * (off / m) + m;
    ModUnique(off + m, m, off / m + 1, 0);
  }

  lemma {:induction false} CutFromIsFragments(k: Key, e: Sent, off: nat)
    requires Sendable(e) && off <= |e.event|
    requires off % e.limit == 0 || off == |e.event|
    ensures forall p :: p in CutFrom(k, e, off) <==> IsFragment(k, e, p) && p.offset >= off
    decreases |e.event| - off
  {
    if off < |e.event| {
      var next := Min(off + e.limit, |e.event|);
      NextAligned(off, e.limit);
      CutFromIsFragments(k, e, next);
      forall p ensures p in CutFrom(k, e, off) <==> IsFragment(k, e, p) && p.offset >= off {
        assert p in CutFrom(k, e, off) <==> p == FragmentAt(k, e, off) || p in CutFrom(k, e, next);
        if IsFragment(k, e, p) && p.offset > off { AlignedGap(off, p.offset, e.limit); }
      }
    }
  }

  lemma {:induction false} CutFromIncreases(k: Key, e: Sent, off: nat)
    requires Sendable(e) && off <= |e.event|
    ensures InOrder(CutFrom(k, e, off))
    ensures forall p :: p in CutFrom(k, e, off) ==> p.offset >= off
    decreases |e.event| - off
  {
    if off < |e.event| {
      CutFromIncreases(k, e, Min(off + e.limit, |e.event|));
    }
  }

  lemma NextMultiple(i: nat, m: nat)
    requires i > 0
    ensures i * m == m + (i - 1) * m
  {
  }

  lemma CutStep(k: Key, e: Sent, off: nat, i: nat)
    requires Sendable(e) && off <= |e.event| && 0 < i < NumBuffers(|e.event| - off, e.limit)
    ensures off + e.limit < |e.event| && i - 1 < NumBuffers(|e.event| - (off + e.limit), e.limit)
    ensures CutFrom(k, e, off)[i] == CutFrom(k, e, off + e.limit)[i - 1]
  {
  }

  /** Fragment i of a cut starts i limits further on. */
  lemma {:induction false} CutAt(k: Key, e: Sent, off: nat, i: nat)
    requires Sendable(e) && off <= |e.event| && i < NumBuffers(|e.event| - off, e.limit)
    ensures off + i * e.limit < |e.event| && CutFrom(k, e, off)[i] == FragmentAt(k, e, off + i * e.limit)
    decreases i
  {
    if i > 0 {
      var next := Min(off + e.limit, |e.event|);
      NextMultiple(i, e.limit);
      CutAt(k, e, next, i - 1);
      CutStep(k, e, off, i);
      assert next == off + e.limit;
    }
  }

  /** The cut consists of the aligned fragments, each exactly once. */
  lemma CutIsFragments(k: Key, e: Sent)
    requires Sendable(e)
    ensures forall p :: p in Cut(k, e) <==> IsFragment(k, e, p)
    ensures InOrder(Cut(k, e))
  {
    ModUnique(0, e.limit, 0, 0);
    CutFromIsFragments(k, e, 0);
    CutFromIncreases(k, e, 0);
  }

  function Payloads(ps: seq<Packet>): seq<u8> {
    if ps == [] then [] else ps[0].payload + Payloads(ps[1..])
  }

  /** Each segment starts where the one before it ended, from a to b. */
  ghost predicate Contiguous(ps: seq<Packet>, a: nat, b: nat) {
    if ps == [] then a == b
    else ps[0].offset == a && ps[0].payload != [] && Contiguous(ps[1..], a + |ps[0].payload|, b)
  }

  lemma {:induction false} CutFromTiles(k: Key, e: Sent, off: nat)
    requires Sendable(e) && off <= |e.event|
    ensures Payloads(CutFrom(k, e, off)) == e.event[off..]
    ensures Contiguous(CutFrom(k, e, off), off, |e.event|)
    decreases |e.event| - off
  {
    if off < |e.event| {
      var next := Min(off + e.limit, |e.event|);
      CutFromTiles(k, e, next);
      assert CutFrom(k, e, off)[1..] == CutFrom(k, e, next);
      assert e.event[off..] == e.event[off..next] + e.event[next..];
    }
  }

  /** Fragments are non-empty and contiguous, and together they are the event. */
  lemma CutTilesEvent(k: Key, e: Sent)
    requires Sendable(e)
    ensures Payloads(Cut(k, e)) == e.event
    ensures Contiguous(Cut(k, e), 0, |e.event|)
  {
    CutFromTiles(k, e, 0);
    assert e.event[0..] == e.event;
  }

  // ---- Sizes --------------------------------------------------------------

  const RECV_BUFFER_SIZE: nat := 9000
  const UDP_HDRLEN: nat := 8

  function IPHeaderLength(v6: bool): nat { if v6 then 40 else 20 }

  function TotalHeaderLength(v6: bool): nat { IPHeaderLength(v6) + UDP_HDRLEN + LB_LEN + RE_LEN }

  datatype MtuError = TooLong | TooShort

  /** The payload limit, for an MTU that the sanity checks let through. */
  function MaxPayload(mtu: nat, v6: bool): Result<nat, MtuError> {
    if mtu > 9000 then Err(TooLong)
    else if mtu <= TotalHeaderLength(v6) then Err(TooShort)
    else Ok(mtu - TotalHeaderLength(v6))
  }

  /** WHICH MTUS LEAVE ROOM, and how much: up to 9000 bytes, and more than the 64 bytes of
      headers over IPv4 or the 84 bytes over IPv6. */
  lemma MaxPayloadIff(mtu: nat, v6: bool, n: nat)
    ensures MaxPayload(mtu, v6) == Ok(n) <==> mtu <= 9000 && n > 0 && mtu == n + if v6 then 84 else 64
    ensures MaxPayload(mtu, v6) == Err(TooLong) <==> mtu > 9000
    ensures MaxPayload(mtu, v6) == Err(TooShort) <==> mtu <= if v6 then 84 else 64
    ensures IPHeaderLength(v6) == (if v6 then 40 else 20) && UDP_HDRLEN == 8 && RECV_BUFFER_SIZE == 9000
  {
  }

  function HeaderOf(p: Packet): REFields {
    REFields(p.key.dataId, p.offset, p.length, p.key.eventNum)
  }

  /** A datagram as it leaves the segmenter. */
  function Datagram(lb: LBFields, p: Packet): (d: seq<u8>)
    ensures |d| == LB_LEN + RE_LEN + |p.payload|
  {
    LBBytes(lb) + REBytes(HeaderOf(p)) + p.payload
  }

  /** No IP packet exceeds the MTU, some packet reaches it when the event is at
      least as long as the limit, and no datagram overruns the receive buffer. */
  lemma DatagramsFitMtu(mtu: nat, v6: bool, k: Key, event: seq<u8>, lb: LBFields)
    requires MaxPayload(mtu, v6).Ok? && |event| < TWO_32
    ensures var ps := Cut(k, Sent(event, MaxPayload(mtu, v6).value));
      && (forall p :: p in ps ==>
            IPHeaderLength(v6) + UDP_HDRLEN + |Datagram(lb, p)| <= mtu && |Datagram(lb, p)| <= RECV_BUFFER_SIZE)
      && (|event| >= MaxPayload(mtu, v6).value ==>
            exists p :: p in ps && IPHeaderLength(v6) + UDP_HDRLEN + |Datagram(lb, p)| == mtu)
  {
    var e := Sent(event, MaxPayload(mtu, v6).value);
    CutIsFragments(k, e);
    if |event| >= e.limit {
      ModUnique(0, e.limit, 0, 0);
      var p := FragmentAt(k, e, 0);
      assert IsFragment(k, e, p);
      assert p in Cut(k, e) && |p.payload| == e.limit;
    }
  }

  // ---- Receiving the bytes ------------------------------------------------

  datatype Received = Undersized | BadHeader | Good(p: Packet)

  /** Where the RE header of a frame starts. */
  function Skip(withLBHeader: bool): nat {
    if withLBHeader then LB_LEN else 0
  }

  /** How the receive thread reads a frame: with withLBHeader the RE header is
      looked for behind the 16 bytes of a load-balancer header. */
  function Parse(withLBHeader: bool, d: seq<u8>): Received {
    var skip := Skip(withLBHeader);
    if |d| < skip + RE_LEN then Undersized
    else if !REValid(d[skip..]) then BadHeader
    else
      var f := REParse(d[skip..]);
      Good(Packet(Key(f.eventNum, f.dataId), f.bufferOffset, f.bufferLength, d[skip + RE_LEN..]))
  }

  /** READ EXACTLY WHAT WAS WRITTEN. A frame is read as a packet if and only if, behind
      the load balancer's header, it is that packet's header followed by its payload. */
  lemma ParseIffWritten(withLBHeader: bool, d: seq<u8>, p: Packet)
    requires |d| >= Skip(withLBHeader) + RE_LEN
    ensures Parse(withLBHeader, d) == Good(p) <==> d[Skip(withLBHeader)..] == REBytes(HeaderOf(p)) + p.payload
  {
    var w := d[Skip(withLBHeader)..];
    assert w[RE_LEN..] == d[Skip(withLBHeader) + RE_LEN..] && w == w[..RE_LEN] + w[RE_LEN..];
    if Parse(withLBHeader, d) == Good(p) {
      REParseIsInjective(w[..RE_LEN]);
      ParseOfPrefix(w);
    }
    if w == REBytes(HeaderOf(p)) + p.payload {
      RERoundTrip(HeaderOf(p), p.payload);
      assert w[RE_LEN..] == p.payload;
    }
  }

  lemma ParseOfPrefix(w: seq<u8>)
    requires |w| >= RE_LEN
    ensures REValid(w[..RE_LEN]) == REValid(w) && REParse(w[..RE_LEN]) == REParse(w)
  {
    var h := w[..RE_LEN];
    assert h[2..4] == w[2..4] && h[4..8] == w[4..8] && h[8..12] == w[8..12] && h[12..20] == w[12..20];
  }

  /** The flag only says whether the balancer stripped its header: either way
      the same frame is read. */
  lemma ParseStripsLB(d: seq<u8>)
    requires |d| >= LB_LEN
    ensures Parse(true, d) == Parse(false, d[LB_LEN..])
  {
    if |d| >= LB_LEN + RE_LEN {
      assert d[LB_LEN..][RE_LEN..] == d[LB_LEN + RE_LEN..];
      assert d[LB_LEN..][0..] == d[LB_LEN..];
    }
  }

  /** What the segmenter writes, the reassembler reads, with or without a load
      balancer in between. */
  lemma DatagramParses(lb: LBFields, p: Packet)
    ensures Parse(true, Datagram(lb, p)) == Good(p)
    ensures Parse(false, Datagram(lb, p)[LB_LEN..]) == Good(p)
  {
    var d := Datagram(lb, p);
    RERoundTrip(HeaderOf(p), p.payload);
    assert d[LB_LEN..] == REBytes(HeaderOf(p)) + p.payload;
    assert d[LB_LEN + RE_LEN..] == p.payload;
    ParseStripsLB(d);
  }
}
