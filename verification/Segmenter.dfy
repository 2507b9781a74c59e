/** The loops that cut events: _send of the segmenter, in its three send modes,
    and the packet generator of scripts/scapy/snifgen.py. */
module Segmenter {
  import opened Types
  import opened Sequences
  import opened Wire
  import opened Segmentation

  /** How the compiled-in and selected optimisations make _send hand datagrams
      to the kernel. */
  datatype SendMode = Sendmsg | Sendmmsg | Liburing

  /** An io_uring submission; only the last one of an event carries a callback. */
  datatype Sqe = Sqe(datagram: seq<u8>, callback: Option<nat>)

  /** What the kernel answers: the sendmsg call that fails (a number past the
      last call when none does), and the message count that sendmmsg reports
      (-1 for an error). */
  datatype Kernel = Kernel(failAt: nat, accepted: int)

  datatype SendError = SocketError

  /** Randomise the 8 least significant bits of a clock sample. */
  function AddClockEntropy(now: u64, lsb: u8): (t: u64)
    ensures t / 256 == now / 256 && t % 256 == lsb
  {
    now / 256 * 256 + lsb
  }

  /** The same load-balancer header in front of every fragment. */
  function Datagrams(lb: LBFields, ps: seq<Packet>): (ds: seq<seq<u8>>)
    ensures |ds| == |ps|
  {
    if ps == [] then [] else [Datagram(lb, ps[0])] + Datagrams(lb, ps[1..])
  }

  /** Submissions for datagrams of which the last carries the callback. */
  function Sqes(ds: seq<seq<u8>>, callback: Option<nat>): (s: seq<Sqe>)
    ensures |s| == |ds|
  {
    if ds == [] then [] else Sqes(ds[..|ds| - 1], None) + [Sqe(ds[|ds| - 1], callback)]
  }

  /** Where the fragments of an event start, and at last its end. */
  function FragmentOffsets(e: Sent, off: nat): (offs: seq<nat>)
    requires Sendable(e) && off <= |e.event|
    ensures |offs| == NumBuffers(|e.event| - off, e.limit) + 1 && offs[0] == off
    decreases |e.event| - off
  {
    if off == |e.event| then [off] else [off] + FragmentOffsets(e, Min(off + e.limit, |e.event|))
  }

  /** ds[i] is the datagram of the fragment at offs[i]. */
  ghost predicate PlannedAt(lb: LBFields, k: Key, e: Sent, ds: seq<seq<u8>>, offs: seq<nat>, i: nat)
    requires Sendable(e) && i < |ds| && |offs| == |ds| + 1
  {
    && offs[i] < |e.event| && offs[i + 1] == Min(offs[i] + e.limit, |e.event|)
    && ds[i] == Datagram(lb, FragmentAt(k, e, offs[i]))
  }

  ghost predicate Plan(lb: LBFields, k: Key, e: Sent, ds: seq<seq<u8>>, offs: seq<nat>)
    requires Sendable(e)
  {
    && |offs| == |ds| + 1 && offs[|ds|] == |e.event|
    && forall i :: 0 <= i < |ds| ==> PlannedAt(lb, k, e, ds, offs, i)
  }

  lemma PlanEnds(lb: LBFields, k: Key, e: Sent, ds: seq<seq<u8>>, offs: seq<nat>, i: nat)
    requires Sendable(e) && Plan(lb, k, e, ds, offs) && i <= |ds| && offs[i] >= |e.event|
    ensures i == |ds|
  {
    assert i < |ds| ==> PlannedAt(lb, k, e, ds, offs, i);
  }

  lemma {:induction false} CutIsPlan(lb: LBFields, k: Key, e: Sent, off: nat)
    requires Sendable(e) && off <= |e.event|
    ensures Plan(lb, k, e, Datagrams(lb, CutFrom(k, e, off)), FragmentOffsets(e, off))
    decreases |e.event| - off
  {
    if off < |e.event| {
      var next := Min(off + e.limit, |e.event|);
      var ds, offs := Datagrams(lb, CutFrom(k, e, off)), FragmentOffsets(e, off);
      CutIsPlan(lb, k, e, next);
      assert CutFrom(k, e, off)[1..] == CutFrom(k, e, next);
      assert ds[1..] == Datagrams(lb, CutFrom(k, e, next)) && offs[1..] == FragmentOffsets(e, next);
      forall i | 0 <= i < |ds| ensures PlannedAt(lb, k, e, ds, offs, i) {
        if i > 0 { assert PlannedAt(lb, k, e, ds[1..], offs[1..], i - 1); }
      }
    }
  }

  lemma SqesGrow(ds: seq<seq<u8>>, d: seq<u8>, callback: Option<nat>)
    ensures Sqes(ds + [d], callback) == Sqes(ds, None) + [Sqe(d, callback)]
  {
    assert (ds + [d])[..|ds|] == ds;
  }

  /** How many of n datagrams are handed over: sendmsg stops at its first failure. */
  function Handed(mode: SendMode, kernel: Kernel, n: nat): nat {
    if mode == Sendmsg then Min(n, kernel.failAt + 1) else n
  }

  /** What is reported and counted for n datagrams; a sendmmsg error counts one more
      than the buffers, and submissions to a ring are counted in 32 bits. */
  predicate Booked(mode: SendMode, kernel: Kernel, n: nat, ok: bool, errors: nat, errors': nat,
                   outstanding: u32, outstanding': u32) {
    match mode
    case Sendmsg =>
      (ok <==> n <= kernel.failAt) && errors' == errors + (if ok then 0 else 1) && outstanding' == outstanding
    case Sendmmsg =>
      (ok <==> kernel.accepted == n) && errors' == errors + n - kernel.accepted && outstanding' == outstanding
    case Liburing =>
      ok && errors' == errors && outstanding' == (outstanding + n) % 0x1_0000_0000
  }

  /** What the bytes of a datagram say: version and slot, port or entropy, tick; data id,
      offset, event length and event number; and the bytes of the event at the offset. */
  ghost predicate Says(d: seq<u8>, v3: bool, entropy: u16, tick: nat, k: Key, event: seq<u8>) {
    && |d| >= 36 && d[..4] == [0x4C, 0x42, if v3 then 3 else 2, 1]
    && FromBE(d[4..6]) == (if v3 then tick % 0x1_0000 else 0)
    && FromBE(d[6..8]) == entropy && FromBE(d[8..16]) == tick
    && d[16..18] == [0x10, 0] && FromBE(d[18..20]) == k.dataId && FromBE(d[24..28]) == |event|
    && FromBE(d[28..36]) == k.eventNum
    && var off := FromBE(d[20..24]);
       off + |d| - 36 <= |event| && d[36..] == event[off..off + |d| - 36]
  }

  lemma HeaderParts(version: u8, entropy: u16, tick: u64)
    ensures var lb := LBBytes(LBFor(version, entropy, tick));
      && lb[..4] == [0x4C, 0x42, if version == 3 then 3 else 2, 1]
      && lb[4..6] == BE(if version == 3 then tick % 0x1_0000 else 0, 2)
      && lb[6..8] == BE(entropy, 2) && lb[8..16] == BE(tick, 8)
  {
    TwoBytes(0);
  }

  lemma HeaderSays(version: u8, entropy: u16, tick: u64, rest: seq<u8>)
    ensures var d := LBBytes(LBFor(version, entropy, tick)) + rest;
      && d[..4] == [0x4C, 0x42, if version == 3 then 3 else 2, 1]
      && FromBE(d[4..6]) == (if version == 3 then tick % 0x1_0000 else 0)
      && FromBE(d[6..8]) == entropy && FromBE(d[8..16]) == tick
  {
    var lb := LBBytes(LBFor(version, entropy, tick));
    HeaderParts(version, entropy, tick);
    Widths();
    FieldRoundTrip(entropy, 2);
    FieldRoundTrip(tick, 8);
    FieldRoundTrip(if version == 3 then tick % 0x1_0000 else 0, 2);
    PartsOfPrefix(lb, rest);
  }

  lemma PartsOfPrefix(lb: seq<u8>, rest: seq<u8>)
    requires |lb| == LB_LEN
    ensures (lb + rest)[..4] == lb[..4] && (lb + rest)[4..6] == lb[4..6]
    ensures (lb + rest)[6..8] == lb[6..8] && (lb + rest)[8..16] == lb[8..16]
  {
  }

  lemma FieldsSay(lb: seq<u8>, f: REFields, payload: seq<u8>)
    requires |lb| == LB_LEN
    ensures var d := lb + (REBytes(f) + payload);
      && d[16..18] == [0x10, 0] && FromBE(d[18..20]) == f.dataId && FromBE(d[20..24]) == f.bufferOffset
      && FromBE(d[24..28]) == f.bufferLength && FromBE(d[28..36]) == f.eventNum && d[36..] == payload
  {
    RERoundTrip(f, payload);
    var w := REBytes(f) + payload;
    var d := lb + w;
    assert d[16..18] == w[0..2] && d[18..20] == w[2..4] && d[20..24] == w[4..8];
    assert d[24..28] == w[8..12] && d[28..36] == w[12..20] && d[36..] == w[20..] == payload;
  }

  /** Every planned datagram says so. */
  lemma {:induction false} PlanSays(version: u8, entropy: u16, tick: u64, k: Key, e: Sent, ds: seq<seq<u8>>,
                                    offs: seq<nat>, d: seq<u8>)
    requires Sendable(e) && Plan(LBFor(version, entropy, tick), k, e, ds, offs) && d in ds
    ensures Says(d, version == 3, entropy, tick, k, e.event)
  {
    var lb := LBFor(version, entropy, tick);
    var i :| 0 <= i < |ds| && ds[i] == d;
    assert PlannedAt(lb, k, e, ds, offs, i);
    var p := FragmentAt(k, e, offs[i]);
    assert d == LBBytes(lb) + (REBytes(HeaderOf(p)) + p.payload);
    HeaderSays(version, entropy, tick, REBytes(HeaderOf(p)) + p.payload);
    FieldsSay(LBBytes(lb), HeaderOf(p), p.payload);
  }

  /** Only the last submission carries the callback. */
  lemma {:induction false} SqeAt(ds: seq<seq<u8>>, callback: Option<nat>, i: nat)
    requires i < |ds|
    ensures Sqes(ds, callback)[i] == Sqe(ds[i], if i == |ds| - 1 then callback else None)
  {
    if i < |ds| - 1 { SqeAt(ds[..|ds| - 1], None, i); }
  }

  /** What is sent of an event carries the entropy and the tick that were chosen. */
  lemma SentSays(version: u8, entropy: u16, tick: u64, k: Key, e: Sent, out: seq<seq<u8>>)
    requires Sendable(e) && out <= Datagrams(LBFor(version, entropy, tick), Cut(k, e))
    ensures forall d :: d in out ==> |d| >= 36 && FromBE(d[6..8]) == entropy
    ensures forall d :: d in out ==> |d| >= 36 && FromBE(d[8..16]) == tick
    ensures forall d :: d in out ==> |d| >= 36 && Says(d, version == 3, entropy, FromBE(d[8..16]), k, e.event)
  {
    var lb := LBFor(version, entropy, tick);
    CutIsPlan(lb, k, e, 0);
    forall d | d in out ensures Says(d, version == 3, entropy, tick, k, e.event) {
      PlanSays(version, entropy, tick, k, e, Datagrams(lb, Cut(k, e)), FragmentOffsets(e, 0), d);
    }
  }

  lemma {:induction false} DatagramsAt(lb: LBFields, ps: seq<Packet>, i: nat)
    requires i < |ps|
    ensures Datagrams(lb, ps)[i] == Datagram(lb, ps[i])
  {
    if i > 0 { DatagramsAt(lb, ps[1..], i - 1); }
  }

  /** Datagram i says that it is the one at i limits into the event, and carries all that
      fits. */
  ghost predicate SaysOffset(d: seq<u8>, i: nat, limit: nat, len: nat) {
    |d| >= 36 && FromBE(d[20..24]) == i * limit && |d| - 36 == Min(limit, len - i * limit)
  }

  lemma FragmentSays(lb: LBFields, k: Key, e: Sent, off: nat)
    requires Sendable(e) && off < |e.event|
    ensures var d := Datagram(lb, FragmentAt(k, e, off));
      |d| >= 36 && FromBE(d[20..24]) == off && |d| - 36 == Min(e.limit, |e.event| - off)
  {
    var p := FragmentAt(k, e, off);
    assert Datagram(lb, p) == LBBytes(lb) + (REBytes(HeaderOf(p)) + p.payload);
    FieldsSay(LBBytes(lb), HeaderOf(p), p.payload);
  }

  lemma SentAt(lb: LBFields, k: Key, e: Sent, i: nat)
    requires Sendable(e) && i < NumBuffers(|e.event|, e.limit)
    ensures SaysOffset(Datagrams(lb, Cut(k, e))[i], i, e.limit, |e.event|)
  {
    var off := i * e.limit;
    DatagramsAt(lb, Cut(k, e), i);
    CutAt(k, e, 0, i);
    FragmentSays(lb, k, e, off);
  }

  lemma SentOffsets(lb: LBFields, k: Key, e: Sent, out: seq<seq<u8>>)
    requires Sendable(e) && out <= Datagrams(lb, Cut(k, e))
    ensures forall i :: 0 <= i < |out| ==> SaysOffset(out[i], i, e.limit, |e.event|)
  {
    forall i | 0 <= i < |out| ensures SaysOffset(out[i], i, e.limit, |e.event|) { SentAt(lb, k, e, i); }
  }

  class SendThread {
    const maxPldLen: nat
    const lbHdrVersion: u8
    const addEntropy: bool
    var msgCnt: nat
    var errCnt: nat
    var eventsInCurrentSync: nat
    var outstandingSends: u32
    var ring: seq<Sqe>

    constructor (maxPldLen: nat, lbHdrVersion: u8, addEntropy: bool)
      ensures this.maxPldLen == maxPldLen && this.lbHdrVersion == lbHdrVersion && this.addEntropy == addEntropy
      ensures msgCnt == errCnt == eventsInCurrentSync == outstandingSends == 0 && ring == []
    {
      this.maxPldLen, this.lbHdrVersion, this.addEntropy := maxPldLen, lbHdrVersion, addEntropy;
      msgCnt, errCnt, eventsInCurrentSync, outstandingSends, ring := 0, 0, 0, 0, [];
    }

    /** The load-balancer header of an event: one clock sample and one entropy
        value serve all its fragments. */
    function EventHeader(now: u64, lsb: u8, entropy: u16, drawn: u16): LBFields {
      LBFor(lbHdrVersion, if entropy == 0 then drawn else entropy,
            if addEntropy then AddClockEntropy(now, lsb) else now)
    }

    /** Round up without a branch. */
    method BufferCount(bytes: nat) returns (n: nat)
      requires maxPldLen > 0
      ensures n == NumBuffers(bytes, maxPldLen)
    {
      CeilingCounts(bytes, maxPldLen);
      n := (bytes + maxPldLen - 1) / maxPldLen;
    }

    /** What _send sets out to send. */
    function Planned(event: seq<u8>, k: Key, lb: LBFields): (ds: seq<seq<u8>>)
      requires |event| < TWO_32 && maxPldLen > 0
      ensures |ds| == NumBuffers(|event|, maxPldLen)
    {
      Datagrams(lb, Cut(k, Sent(event, maxPldLen)))
    }

    /** The headers and segment of one datagram, gathered as the iovec is. */
    method Gather(event: seq<u8>, k: Key, ent: u16, tick: u64, off: u32, len: nat) returns (d: seq<u8>)
      requires |event| < TWO_32 && off + len <= |event|
      ensures d == Datagram(LBFor(lbHdrVersion, ent, tick), Packet(k, off, |event|, event[off..off + len]))
    {
      var hdr := new LBREHdr(lbHdrVersion);
      assert hdr.raw[16..18] == [0x10, 0] && hdr.raw[4..6] == [0, 0];
      hdr.SetRE(k.dataId, off, |event|, k.eventNum);
      hdr.SetLB(ent, tick);
      d := hdr.raw[..] + event[off..off + len];
    }

    /** The next datagram of a plan. */
    method Next(event: seq<u8>, k: Key, ent: u16, tick: u64, off: u32, len: nat,
                ghost ds: seq<seq<u8>>, ghost offs: seq<nat>, ghost i: nat)
      returns (d: seq<u8>)
      requires |event| < TWO_32 && maxPldLen > 0 && off < |event| && len == Min(maxPldLen, |event| - off)
      requires Plan(LBFor(lbHdrVersion, ent, tick), k, Sent(event, maxPldLen), ds, offs) && i < |offs| && off == offs[i]
      ensures i < |ds| && d == ds[i] && off + len == offs[i + 1]
    {
      assert PlannedAt(LBFor(lbHdrVersion, ent, tick), k, Sent(event, maxPldLen), ds, offs, i);
      d := Gather(event, k, ent, tick, off, len);
    }

    /** Into the sendmmsg vector, or onto the ring; sendmsg keeps nothing. out is what
        was handed over before. */
    method HandOver(datagram: seq<u8>, callback: Option<nat>, mode: SendMode, mmsgvec: array<seq<u8>>,
                    packetIndex: nat, ring: seq<Sqe>, ghost out: seq<seq<u8>>)
      returns (nextIndex: nat, queued: seq<Sqe>)
      requires mode == Sendmmsg ==> packetIndex == |out| < mmsgvec.Length && mmsgvec[..|out|] == out
      requires mode == Liburing ==> ring == Sqes(out, None)
      modifies mmsgvec
      ensures mode == Sendmmsg ==> nextIndex == |out| + 1 && mmsgvec[..|out| + 1] == out + [datagram]
      ensures mode == Liburing ==> queued == Sqes(out + [datagram], callback)
    {
      nextIndex, queued := packetIndex, ring;
      if mode == Sendmmsg {
        mmsgvec[packetIndex] := datagram;
        nextIndex := packetIndex + 1;
      } else if mode == Liburing {
        SqesGrow(out, datagram, callback);
        queued := queued + [Sqe(datagram, callback)];
      }
    }

    /** What has been handed over so far. */
    ghost predicate Kept(mode: SendMode, mmsgvec: array<seq<u8>>, packetIndex: nat, queued: seq<Sqe>,
                         out: seq<seq<u8>>, callback: Option<nat>)
      reads mmsgvec
    {
      && (mode == Sendmmsg ==> packetIndex == |out| <= mmsgvec.Length && mmsgvec[..|out|] == out)
      && (mode == Liburing ==> queued == Sqes(out, callback))
    }

    /** Break the event up into datagrams. Each goes into the sendmmsg vector, onto
        the ring, or to sendmsg at once, and the loop stops where sendmsg fails. */
    method Fragment(event: seq<u8>, k: Key, ent: u16, tick: u64, callback: Option<nat>,
                    mode: SendMode, failAt: nat, mmsgvec: array<seq<u8>>,
                    ghost ds: seq<seq<u8>>, ghost offs: seq<nat>)
      returns (out: seq<seq<u8>>, queued: seq<Sqe>)
      requires |event| < TWO_32 && maxPldLen > 0
      requires Plan(LBFor(lbHdrVersion, ent, tick), k, Sent(event, maxPldLen), ds, offs) && offs[0] == 0
      requires mode == Sendmmsg ==> mmsgvec.Length == |ds|
      modifies mmsgvec
      ensures out <= ds && |out| == if mode == Sendmsg then Min(|ds|, failAt + 1) else |ds|
      ensures mode == Sendmmsg ==> mmsgvec[..] == out
      ensures mode == Liburing ==> queued == Sqes(out, callback)
    {
      var bytes := |event|;
      var packetIndex := 0;
      var curOffset := 0;
      var curLen := if bytes <= maxPldLen then bytes else maxPldLen;
      out, queued := [], [];
      while curOffset < bytes
        invariant curOffset <= bytes && curLen == Min(maxPldLen, bytes - curOffset)
        invariant |out| <= |ds| && curOffset == offs[|out|]
        invariant out <= ds
        invariant mode == Sendmsg ==> failAt >= |out|
        invariant Kept(mode, mmsgvec, packetIndex, queued, out, if curOffset < bytes then None else callback)
        decreases bytes - curOffset
      {
        var datagram := Next(event, k, ent, tick, curOffset, curLen, ds, offs, |out|);
        curOffset := curOffset + curLen;
        curLen := if bytes > curOffset + maxPldLen then maxPldLen else bytes - curOffset;
        packetIndex, queued := HandOver(datagram, if curOffset >= bytes then callback else None, mode, mmsgvec,
                                        packetIndex, queued, out);
        PrefixGrows(out, ds);
        out := out + [datagram];
        if mode == Sendmsg && failAt == |out| - 1 { return; }
      }
      PlanEnds(LBFor(lbHdrVersion, ent, tick), k, Sent(event, maxPldLen), ds, offs, |out|);
    }

    /** The datagrams of an event are those of its cut. */
    method FragmentAll(event: seq<u8>, k: Key, ent: u16, tick: u64, callback: Option<nat>,
                       mode: SendMode, failAt: nat, mmsgvec: array<seq<u8>>)
      returns (out: seq<seq<u8>>, queued: seq<Sqe>)
      requires |event| < TWO_32 && maxPldLen > 0
      requires mode == Sendmmsg ==> mmsgvec.Length == NumBuffers(|event|, maxPldLen)
      modifies mmsgvec
      ensures var ds := Planned(event, k, LBFor(lbHdrVersion, ent, tick));
        out <= ds && |out| == if mode == Sendmsg then Min(|ds|, failAt + 1) else |ds|
      ensures mode == Sendmmsg ==> mmsgvec[..] == out
      ensures mode == Liburing ==> queued == Sqes(out, callback)
    {
      ghost var lb, e := LBFor(lbHdrVersion, ent, tick), Sent(event, maxPldLen);
      CutIsPlan(lb, k, e, 0);
      out, queued := Fragment(event, k, ent, tick, callback, mode, failAt, mmsgvec,
                              Datagrams(lb, Cut(k, e)), FragmentOffsets(e, 0));
    }

    /** What follows the loop: the sendmmsg call, the counters, the error to report. */
    method Account(mode: SendMode, kernel: Kernel, numBuffers: nat, sent: nat, queued: seq<Sqe>)
      returns (r: Result<int, SendError>)
      requires sent == Handed(mode, kernel, numBuffers)
      requires mode == Sendmmsg ==> -1 <= kernel.accepted <= numBuffers
      modifies this
      ensures Booked(mode, kernel, numBuffers, r.Ok?, old(errCnt), errCnt, old(outstandingSends), outstandingSends)
      ensures msgCnt == old(msgCnt) + sent
      ensures eventsInCurrentSync == old(eventsInCurrentSync) + (if r.Ok? then 1 else 0)
      ensures ring == old(ring) + (if mode == Liburing then queued else [])
    {
      msgCnt := msgCnt + sent;
      if mode == Sendmsg && kernel.failAt < numBuffers {
        errCnt := errCnt + 1;
        return Err(SocketError);
      }
      if mode == Sendmmsg {
        if kernel.accepted != numBuffers {
          errCnt := errCnt + (numBuffers - kernel.accepted);
          return Err(SocketError);
        }
      } else if mode == Liburing {
        ring := ring + queued;
        outstandingSends := (outstandingSends + numBuffers) % 0x1_0000_0000;
      }
      eventsInCurrentSync := eventsInCurrentSync + 1;
      return Ok(0);
    }

    /** Hand the datagrams over and keep the books. */
    method Deliver(event: seq<u8>, k: Key, ent: u16, tick: u64, callback: Option<nat>, mode: SendMode,
                   kernel: Kernel)
      returns (out: seq<seq<u8>>, r: Result<int, SendError>)
      requires |event| < TWO_32 && maxPldLen > 0
      requires mode == Sendmmsg ==> -1 <= kernel.accepted <= NumBuffers(|event|, maxPldLen)
      modifies this
      ensures var ds := Planned(event, k, LBFor(lbHdrVersion, ent, tick)); out <= ds && (r.Ok? ==> out == ds)
      ensures |out| == Handed(mode, kernel, NumBuffers(|event|, maxPldLen))
      ensures Booked(mode, kernel, NumBuffers(|event|, maxPldLen), r.Ok?, old(errCnt), errCnt,
                     old(outstandingSends), outstandingSends)
      ensures msgCnt == old(msgCnt) + |out|
      ensures eventsInCurrentSync == old(eventsInCurrentSync) + (if r.Ok? then 1 else 0)
      ensures ring == old(ring) + (if mode == Liburing then Sqes(out, callback) else [])
    {
      var numBuffers := BufferCount(|event|);
      var mmsgvec := new seq<u8>[if mode == Sendmmsg then numBuffers else 0](_ => []);
      var queued;
      out, queued := FragmentAll(event, k, ent, tick, callback, mode, kernel.failAt, mmsgvec);
      r := Account(mode, kernel, numBuffers, |out|, queued);
    }

    /** Send the planned datagrams and account for them. */
    method Transmit(event: seq<u8>, k: Key, ent: u16, tick: u64, callback: Option<nat>, mode: SendMode,
                    kernel: Kernel)
      returns (out: seq<seq<u8>>, r: Result<int, SendError>)
      requires |event| < TWO_32 && maxPldLen > 0
      requires mode == Sendmmsg ==> -1 <= kernel.accepted <= NumBuffers(|event|, maxPldLen)
      modifies this
      ensures var ds := Planned(event, k, LBFor(lbHdrVersion, ent, tick)); out <= ds && (r.Ok? ==> out == ds)
      ensures var n := NumBuffers(|event|, maxPldLen);
        match mode
        case Sendmsg =>
          && |out| == Min(n, kernel.failAt + 1) && (r.Ok? <==> n <= kernel.failAt)
          && errCnt == old(errCnt) + (if n <= kernel.failAt then 0 else 1)
          && outstandingSends == old(outstandingSends)
        case Sendmmsg =>
          && |out| == n && (r.Ok? <==> kernel.accepted == n)
          && errCnt == old(errCnt) + n - kernel.accepted && outstandingSends == old(outstandingSends)
        case Liburing =>
          && |out| == n && r.Ok? && errCnt == old(errCnt)
          && outstandingSends == (old(outstandingSends) + n) % 0x1_0000_0000
      ensures msgCnt == old(msgCnt) + |out|
      ensures eventsInCurrentSync == old(eventsInCurrentSync) + (if r.Ok? then 1 else 0)
      ensures ring == old(ring) + (if mode == Liburing then Sqes(out, callback) else [])
    {
      out, r := Deliver(event, k, ent, tick, callback, mode, kernel);
    }

    /** Fragment and send an event. out is every datagram handed to the kernel, in
        order: the same list in every mode, which sendmsg leaves at its first
        failure. now, lsb and drawn are the clock sample and random draws. */
    method Send(event: seq<u8>, k: Key, entropy: u16, now: u64, lsb: u8, drawn: u16,
                callback: Option<nat>, mode: SendMode, kernel: Kernel)
      returns (out: seq<seq<u8>>, r: Result<int, SendError>)
      requires |event| < TWO_32 && maxPldLen > 0
      requires mode == Sendmmsg ==> -1 <= kernel.accepted <= NumBuffers(|event|, maxPldLen)
      modifies this
      ensures var ds := Planned(event, k, EventHeader(now, lsb, entropy, drawn)); out <= ds && (r.Ok? ==> out == ds)
      ensures var n := NumBuffers(|event|, maxPldLen);
        match mode
        case Sendmsg =>
          && |out| == Min(n, kernel.failAt + 1) && (r.Ok? <==> n <= kernel.failAt)
          && errCnt == old(errCnt) + (if n <= kernel.failAt then 0 else 1)
          && outstandingSends == old(outstandingSends)
        case Sendmmsg =>
          && |out| == n && (r.Ok? <==> kernel.accepted == n)
          && errCnt == old(errCnt) + n - kernel.accepted && outstandingSends == old(outstandingSends)
        case Liburing =>
          && |out| == n && r.Ok? && errCnt == old(errCnt)
          && outstandingSends == (old(outstandingSends) + n) % 0x1_0000_0000
      ensures msgCnt == old(msgCnt) + |out|
      ensures eventsInCurrentSync == old(eventsInCurrentSync) + (if r.Ok? then 1 else 0)
      ensures ring == old(ring) + (if mode == Liburing then Sqes(out, callback) else [])
      ensures forall d :: d in out ==> |d| >= 36 && FromBE(d[6..8]) == if entropy != 0 then entropy else drawn
      ensures forall d :: d in out ==> |d| >= 36 && if addEntropy
        then FromBE(d[8..16]) / 0x100 == now / 0x100 && FromBE(d[8..16]) % 0x100 == lsb else FromBE(d[8..16]) == now
      ensures forall d :: d in out ==>
        |d| >= 36 && Says(d, lbHdrVersion == 3, if entropy != 0 then entropy else drawn, FromBE(d[8..16]), k, event)
      ensures forall i :: 0 <= i < |out| ==> SaysOffset(out[i], i, maxPldLen, |event|)
    {
      var tick := if addEntropy then AddClockEntropy(now, lsb) else now;
      var ent := if entropy == 0 then drawn else entropy;
      out, r := Transmit(event, k, ent, tick, callback, mode, kernel);
      SentSays(lbHdrVersion, ent, tick, k, Sent(event, maxPldLen), out);
      SentOffsets(LBFor(lbHdrVersion, ent, tick), k, Sent(event, maxPldLen), out);
    }
  }

  // ---- snifgen.py ---------------------------------------------------------

  /** segment_offset and segment_end in the loop of genLBREPkt and genREPkt. */
  datatype Segment = Segment(offset: nat, end: nat)

  /** The two variables after a number of turns, for a payload of len bytes. */
  function SegmentAfter(len: nat, maxSegmentLen: nat, turns: nat): Segment {
    if turns == 0 then Segment(0, if len < maxSegmentLen then len else maxSegmentLen)
    else
      var s := SegmentAfter(len, maxSegmentLen, turns - 1);
      Segment(s.end, if s.end + maxSegmentLen < len then s.end + maxSegmentLen else len)
  }

  /** With a limit the loop leaves as many bytes as that many fragments do. */
  lemma {:induction false} TurnsAdvance(len: nat, maxSegmentLen: nat, turns: nat)
    requires maxSegmentLen > 0 && turns <= NumBuffers(len, maxSegmentLen)
    ensures var s := SegmentAfter(len, maxSegmentLen, turns);
      && s.offset <= len && s.end == Min(s.offset + maxSegmentLen, len)
      && NumBuffers(len - s.offset, maxSegmentLen) == NumBuffers(len, maxSegmentLen) - turns
  {
    if turns > 0 { TurnsAdvance(len, maxSegmentLen, turns - 1); }
  }

  /** Without a limit no turn moves either variable. */
  lemma {:induction false} TurnsWithoutLimit(len: nat, turns: nat)
    requires len > 0
    ensures SegmentAfter(len, 0, turns) == Segment(0, 0)
  {
    if turns > 0 { TurnsWithoutLimit(len, turns - 1); }
  }

  /** WHEN THE GENERATOR'S LOOP ENDS. Some turn brings segment_offset to the end of the
      payload if and only if the limit is positive or there is no payload; with a
      limit that is the turn after as many fragments as the segmenter makes. */
  lemma GeneratorEndsIff(len: nat, maxSegmentLen: nat)
    ensures (exists turns: nat :: SegmentAfter(len, maxSegmentLen, turns).offset >= len)
      <==> maxSegmentLen > 0 || len == 0
    ensures maxSegmentLen > 0 ==> forall turns: nat ::
      turns <= NumBuffers(len, maxSegmentLen) ==>
        (SegmentAfter(len, maxSegmentLen, turns).offset >= len <==> turns == NumBuffers(len, maxSegmentLen))
  {
    if maxSegmentLen > 0 {
      forall turns: nat | turns <= NumBuffers(len, maxSegmentLen)
        ensures SegmentAfter(len, maxSegmentLen, turns).offset >= len <==> turns == NumBuffers(len, maxSegmentLen)
      {
        TurnsAdvance(len, maxSegmentLen, turns);
      }
      assert SegmentAfter(len, maxSegmentLen, NumBuffers(len, maxSegmentLen)).offset >= len;
    } else if len == 0 {
      assert SegmentAfter(len, maxSegmentLen, 0).offset >= len;
    } else {
      forall turns: nat ensures SegmentAfter(len, maxSegmentLen, turns).offset < len { TurnsWithoutLimit(len, turns); }
    }
  }

  /** genLBREPkt and genREPkt: the loop over segment_offset and segment_end.
      With a limit of zero and a payload the script never leaves the loop. */
  method GenPackets(k: Key, payload: seq<u8>, maxSegmentLen: nat) returns (pkts: seq<Packet>)
    requires |payload| < TWO_32
    requires maxSegmentLen > 0 || payload == []
    ensures maxSegmentLen > 0 ==> pkts == Cut(k, Sent(payload, maxSegmentLen))
    ensures payload == [] ==> pkts == []
  {
    pkts := [];
    var offset := 0;
    var end := if |payload| < maxSegmentLen then |payload| else maxSegmentLen;
    while offset < |payload|
      invariant offset <= |payload| && end == Min(offset + maxSegmentLen, |payload|)
      invariant maxSegmentLen > 0 ==>
        pkts + CutFrom(k, Sent(payload, maxSegmentLen), offset) == Cut(k, Sent(payload, maxSegmentLen))
      invariant payload == [] ==> pkts == []
      decreases |payload| - offset
    {
      var pkt := Packet(k, offset, |payload|, payload[offset..end]);
      offset := end;
      end := end + maxSegmentLen;
      end := if end < |payload| then end else |payload|;
      pkts := pkts + [pkt];
    }
  }

  /** The generator and the segmenter agree on an MTU only as long as the event
      is not cut: the generator subtracts the LB and RE headers from its MTU, the
      segmenter the IP and UDP headers as well. */
  lemma SameMtuCutsDifferently(k: Key, payload: seq<u8>, mtu: nat, v6: bool)
    requires MaxPayload(mtu, v6).Ok? && |payload| < TWO_32
    ensures Cut(k, Sent(payload, MaxPayload(mtu, v6).value)) == Cut(k, Sent(payload, mtu - LB_LEN - RE_LEN))
      <==> |payload| <= MaxPayload(mtu, v6).value
  {
    var m1, m2 := MaxPayload(mtu, v6).value, mtu - LB_LEN - RE_LEN;
    var a, b := Cut(k, Sent(payload, m1)), Cut(k, Sent(payload, m2));
    if |payload| > m1 {
      assert |a[0].payload| == m1 && |b[0].payload| > m1;
    } else if payload != [] {
      assert a == [FragmentAt(k, Sent(payload, m1), 0)] + CutFrom(k, Sent(payload, m1), |payload|);
      assert b == [FragmentAt(k, Sent(payload, m2), 0)] + CutFrom(k, Sent(payload, m2), |payload|);
    }
  }
}
