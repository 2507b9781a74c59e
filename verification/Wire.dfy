/** The wire formats of include/e2sarHeaders.hpp: packed structures whose fields
    are stored most significant byte first. */
module Wire {
  import opened Types
  import opened Arithmetic

  // ---- Big-endian numbers -------------------------------------------------

  function Pow256(w: nat): (p: nat)
    ensures p > 0
  {
    if w == 0 then 1 else 256 * Pow256(w - 1)
  }

  /** The w bytes that htobe16/32/64 leave in memory; a wider n is truncated,
      as the assignment to the field is. */
  function BE(n: nat, w: nat): (b: seq<u8>)
    ensures |b| == w
  {
    if w == 0 then [] else BE(n / 256, w - 1) + [n % 256]
  }

  /** be16toh/be32toh/be64toh applied to bytes in memory. */
  function FromBE(b: seq<u8>): nat {
    if b == [] then 0 else FromBE(b[..|b| - 1]) * 256 + b[|b| - 1]
  }

  lemma ModSplit(n: nat, p: nat)
    requires p > 0
    ensures (n / 256) % p * 256 + n % 256 == n % (256 * p)
  {
    var q, r := n / 256, n % 256;
    var a, b := q / p, q % p;
    assert n == 256 * p * a + (256 * b + r) by {
      assert n == 256 * q + r && q == p * a + b;
      assert 256 * (p * a) == 256 * p * a;
    }
    assert 0 <= 256 * b + r < 256 * p;
    ModUnique(n, 256 * p, a, 256 * b + r);
  }

  /** Reading back what was stored loses exactly the truncated high bytes. */
  lemma {:induction false} BEDecodes(n: nat, w: nat)
    ensures FromBE(BE(n, w)) == n % Pow256(w)
  {
    if w > 0 {
      assert BE(n, w)[..w - 1] == BE(n / 256, w - 1);
      BEDecodes(n / 256, w - 1);
      ModSplit(n, Pow256(w - 1));
    }
  }

  /** Every byte string is the encoding of the number it decodes to. */
  lemma {:induction false} BEEncodes(b: seq<u8>)
    ensures BE(FromBE(b), |b|) == b
    ensures FromBE(b) < Pow256(|b|)
  {
    if b != [] {
      var hi := b[..|b| - 1];
      BEEncodes(hi);
      ModUnique(FromBE(b), 256, FromBE(hi), b[|b| - 1]);
    }
  }

  lemma Widths()
    ensures Pow256(2) == TWO_16 && Pow256(4) == TWO_32 && Pow256(8) == TWO_64
  {
    assert Pow256(1) == 256 && Pow256(2) == 0x1_0000 && Pow256(3) == 0x100_0000;
    assert Pow256(4) == TWO_32 && Pow256(5) == 0x100_0000_0000;
    assert Pow256(6) == 0x1_0000_0000_0000 && Pow256(7) == 0x100_0000_0000_0000;
  }

  lemma FieldRoundTrip(n: nat, w: nat)
    requires n < Pow256(w)
    ensures FromBE(BE(n, w)) == n
  {
    BEDecodes(n, w);
  }

  /** The unsigned field of w bytes at an offset of a received frame. */
  function Field(d: seq<u8>, at: nat, w: nat): (n: nat)
    requires at + w <= |d|
    ensures n < Pow256(w)
  {
    BEEncodes(d[at..at + w]);
    FromBE(d[at..at + w])
  }

  /** The bytes of a field, one by one, the most significant first. */
  lemma TwoBytes(n: u16)
    ensures BE(n, 2) == [n / 0x100, n % 0x100]
  {
    assert BE(n / 256, 1) == BE(n / 256 / 256, 0) + [n / 256 % 256];
  }

  lemma FourBytes(n: u32)
    ensures BE(n, 4) == [n / 0x100_0000, n / 0x1_0000 % 0x100, n / 0x100 % 0x100, n % 0x100]
  {
    TwoBytes(n / 0x1_0000);
    assert n / 256 / 256 == n / 0x1_0000;
    assert BE(n, 4) == BE(n / 256 / 256, 2) + [n / 256 % 256] + [n % 256];
  }

  lemma EightBytes(n: u64)
    ensures BE(n, 8)
      == [n / 0x100_0000_0000_0000, n / 0x1_0000_0000_0000 % 0x100, n / 0x100_0000_0000 % 0x100,
          n / 0x1_0000_0000 % 0x100, n / 0x100_0000 % 0x100, n / 0x1_0000 % 0x100, n / 0x100 % 0x100, n % 0x100]
  {
    var m := n / 0x1_0000_0000;
    FourBytes(m);
    var n1, n2, n3 := n / 256, n / 256 / 256, n / 256 / 256 / 256;
    assert n2 == n / 0x1_0000 && n3 == n / 0x100_0000 && n3 / 256 == m;
    assert BE(n, 8) == BE(m, 4) + [n3 % 256] + [n2 % 256] + [n1 % 256] + [n % 256] by {
      assert BE(n3, 5) == BE(m, 4) + [n3 % 256];
      assert BE(n2, 6) == BE(n3, 5) + [n2 % 256];
      assert BE(n1, 7) == BE(n2, 6) + [n1 % 256];
    }
    assert m / 0x100_0000 == n / 0x100_0000_0000_0000 && m / 0x1_0000 == n / 0x1_0000_0000_0000;
    assert m / 0x100 == n / 0x100_0000_0000;
  }

  // ---- Headers as byte strings --------------------------------------------

  const RE_LEN: nat := 20
  const LB_LEN: nat := 16
  const SYNC_LEN: nat := 28

  /** The reassembly header in host byte order. */
  datatype REFields = REFields(dataId: u16, bufferOffset: u32, bufferLength: u32, eventNum: u64)

  function REBytes(f: REFields): (b: seq<u8>)
    ensures |b| == RE_LEN
  {
    [0x10, 0] + BE(f.dataId, 2) + BE(f.bufferOffset, 4) + BE(f.bufferLength, 4) + BE(f.eventNum, 8)
  }

  /** validate(): version nibble 1 over a zero nibble, then a zero byte. */
  predicate REValid(d: seq<u8>)
    requires |d| >= RE_LEN
  {
    d[0] == 0x10 && d[1] == 0
  }

  function REParse(d: seq<u8>): REFields
    requires |d| >= RE_LEN
  {
    Widths();
    REFields(Field(d, 2, 2), Field(d, 4, 4), Field(d, 8, 4), Field(d, 12, 8))
  }

  /** THE RE HEADER, byte by byte. */
  lemma REBytesAre(f: REFields)
    ensures var (id, off, len, num) := (f.dataId, f.bufferOffset, f.bufferLength, f.eventNum);
      REBytes(f)
      == [0x10, 0, id / 0x100, id % 0x100,
          off / 0x100_0000, off / 0x1_0000 % 0x100, off / 0x100 % 0x100, off % 0x100,
          len / 0x100_0000, len / 0x1_0000 % 0x100, len / 0x100 % 0x100, len % 0x100,
          num / 0x100_0000_0000_0000, num / 0x1_0000_0000_0000 % 0x100, num / 0x100_0000_0000 % 0x100,
          num / 0x1_0000_0000 % 0x100, num / 0x100_0000 % 0x100, num / 0x1_0000 % 0x100, num / 0x100 % 0x100,
          num % 0x100]
  {
    TwoBytes(f.dataId);
    FourBytes(f.bufferOffset);
    FourBytes(f.bufferLength);
    EightBytes(f.eventNum);
  }

  /** Where the fields are behind a load-balancer header. */
  lemma REParts(d: seq<u8>, lb: seq<u8>, f: REFields)
    requires d == lb + REBytes(f) && |lb| == LB_LEN
    ensures d[16..20] == [0x10, 0, f.dataId / 0x100, f.dataId % 0x100]
    ensures d[20..24] == [f.bufferOffset / 0x100_0000, f.bufferOffset / 0x1_0000 % 0x100,
                          f.bufferOffset / 0x100 % 0x100, f.bufferOffset % 0x100]
    ensures d[24..28] == [f.bufferLength / 0x100_0000, f.bufferLength / 0x1_0000 % 0x100,
                          f.bufferLength / 0x100 % 0x100, f.bufferLength % 0x100]
    ensures d[28..36] == [f.eventNum / 0x100_0000_0000_0000, f.eventNum / 0x1_0000_0000_0000 % 0x100,
                          f.eventNum / 0x100_0000_0000 % 0x100, f.eventNum / 0x1_0000_0000 % 0x100,
                          f.eventNum / 0x100_0000 % 0x100, f.eventNum / 0x1_0000 % 0x100,
                          f.eventNum / 0x100 % 0x100, f.eventNum % 0x100]
  {
    TwoBytes(f.dataId);
    FourBytes(f.bufferOffset);
    FourBytes(f.bufferLength);
    EightBytes(f.eventNum);
    assert d[18..20] == BE(f.dataId, 2) && d[16..18] == [0x10, 0] && d[16..20] == d[16..18] + d[18..20];
    assert d[20..24] == BE(f.bufferOffset, 4) && d[24..28] == BE(f.bufferLength, 4);
    assert d[28..36] == BE(f.eventNum, 8);
  }

  /** Writing then reading the header returns every field and validates,
      whatever payload follows it. */
  lemma RERoundTrip(f: REFields, payload: seq<u8>)
    ensures REValid(REBytes(f) + payload)
    ensures REParse(REBytes(f) + payload) == f
  {
    var d := REBytes(f) + payload;
    assert d[2..4] == BE(f.dataId, 2);
    assert d[4..8] == BE(f.bufferOffset, 4);
    assert d[8..12] == BE(f.bufferLength, 4);
    assert d[12..20] == BE(f.eventNum, 8);
    Widths();
    FieldRoundTrip(f.dataId, 2);
    FieldRoundTrip(f.bufferOffset, 4);
    FieldRoundTrip(f.bufferLength, 4);
    FieldRoundTrip(f.eventNum, 8);
  }

  /** Conversely a header that validates is the one written from its fields, so
      no two byte strings that validate carry the same fields. */
  lemma REParseIsInjective(d: seq<u8>)
    requires |d| == RE_LEN && REValid(d)
    ensures REBytes(REParse(d)) == d
  {
    BEEncodes(d[2..4]);
    BEEncodes(d[4..8]);
    BEEncodes(d[8..12]);
    BEEncodes(d[12..20]);
    assert d == d[..2] + d[2..4] + d[4..8] + d[8..12] + d[12..20];
  }

  /** The load-balancer header, in the two versions the segmenter can emit. */
  datatype LBFields =
    | LBv2(entropy: u16, eventNum: u64)
    | LBv3(slotSelect: u16, portSelect: u16, tick: u64)

  function LBBytes(f: LBFields): (b: seq<u8>)
    ensures |b| == LB_LEN
  {
    match f
    case LBv2(entropy, eventNum) =>
      [0x4C, 0x42, 2, 1, 0, 0] + BE(entropy, 2) + BE(eventNum, 8)
    case LBv3(slot, port, tick) =>
      [0x4C, 0x42, 3, 1] + BE(slot, 2) + BE(port, 2) + BE(tick, 8)
  }

  /** check_version() picks the union member, and its getters read the fields. */
  function LBParse(d: seq<u8>): Option<LBFields>
    requires |d| >= LB_LEN
  {
    Widths();
    if d[2] == 2 then Some(LBv2(Field(d, 6, 2), Field(d, 8, 8)))
    else if d[2] == 3 then Some(LBv3(Field(d, 4, 2), Field(d, 6, 2), Field(d, 8, 8)))
    else None
  }

  lemma LBRoundTrip(f: LBFields, rest: seq<u8>)
    ensures LBParse(LBBytes(f) + rest) == Some(f)
  {
    var d := LBBytes(f) + rest;
    Widths();
    match f
    case LBv2(entropy, eventNum) =>
      FieldRoundTrip(entropy, 2);
      FieldRoundTrip(eventNum, 8);
      assert d[6..8] == BE(entropy, 2);
      assert d[8..16] == BE(eventNum, 8);
    case LBv3(slot, port, tick) =>
      FieldRoundTrip(slot, 2);
      FieldRoundTrip(port, 2);
      FieldRoundTrip(tick, 8);
      assert d[4..6] == BE(slot, 2);
      assert d[6..8] == BE(port, 2);
      assert d[8..16] == BE(tick, 8);
  }

  datatype SyncFields = SyncFields(eventSrcId: u32, eventNumber: u64, avgEventRateHz: u32, unixTimeNano: u64)

  function SyncBytes(f: SyncFields): (b: seq<u8>)
    ensures |b| == SYNC_LEN
  {
    [0x4C, 0x43, 2, 0] + BE(f.eventSrcId, 4) + BE(f.eventNumber, 8) + BE(f.avgEventRateHz, 4)
      + BE(f.unixTimeNano, 8)
  }

  /** THE SYNC HEADER, byte by byte. */
  lemma SyncBytesAre(f: SyncFields)
    ensures var (id, num, rate, time) := (f.eventSrcId, f.eventNumber, f.avgEventRateHz, f.unixTimeNano);
      SyncBytes(f)
      == [0x4C, 0x43, 2, 0,
          id / 0x100_0000, id / 0x1_0000 % 0x100, id / 0x100 % 0x100, id % 0x100,
          num / 0x100_0000_0000_0000, num / 0x1_0000_0000_0000 % 0x100, num / 0x100_0000_0000 % 0x100,
          num / 0x1_0000_0000 % 0x100, num / 0x100_0000 % 0x100, num / 0x1_0000 % 0x100, num / 0x100 % 0x100,
          num % 0x100,
          rate / 0x100_0000, rate / 0x1_0000 % 0x100, rate / 0x100 % 0x100, rate % 0x100,
          time / 0x100_0000_0000_0000, time / 0x1_0000_0000_0000 % 0x100, time / 0x100_0000_0000 % 0x100,
          time / 0x1_0000_0000 % 0x100, time / 0x100_0000 % 0x100, time / 0x1_0000 % 0x100, time / 0x100 % 0x100,
          time % 0x100]
  {
    FourBytes(f.eventSrcId);
    EightBytes(f.eventNumber);
    FourBytes(f.avgEventRateHz);
    EightBytes(f.unixTimeNano);
  }

  function SyncParse(d: seq<u8>): Option<SyncFields>
    requires |d| >= SYNC_LEN
  {
    Widths();
    if d[2] != 2 then None
    else Some(SyncFields(Field(d, 4, 4), Field(d, 8, 8), Field(d, 16, 4), Field(d, 20, 8)))
  }

  lemma SyncRoundTrip(f: SyncFields)
    ensures SyncParse(SyncBytes(f)) == Some(f)
  {
    var d := SyncBytes(f);
    assert d[4..8] == BE(f.eventSrcId, 4);
    assert d[8..16] == BE(f.eventNumber, 8);
    assert d[16..20] == BE(f.avgEventRateHz, 4);
    assert d[20..28] == BE(f.unixTimeNano, 8);
    Widths();
    FieldRoundTrip(f.eventSrcId, 4);
    FieldRoundTrip(f.eventNumber, 8);
    FieldRoundTrip(f.avgEventRateHz, 4);
    FieldRoundTrip(f.unixTimeNano, 8);
  }

  /** The header that the segmenter puts in front: version 3 selects the slot by the
      low 16 bits of the tick and the port by the entropy; any other is version 2. */
  function LBFor(version: u8, entropy: u16, tick: u64): LBFields {
    if version == 3 then LBv3(tick % TWO_16, entropy, tick) else LBv2(entropy, tick)
  }

  lemma LowBytes(n: u64)
    ensures BE(n % TWO_16, 2) == [n / 0x100 % 0x100, n % 0x100]
  {
    TwoBytes(n % TWO_16);
    LowParts(n);
  }

  lemma LowParts(n: nat)
    ensures n % 0x1_0000 / 0x100 == n / 0x100 % 0x100 && n % 0x1_0000 % 0x100 == n % 0x100
  {
  }

  /** THE LB HEADER, byte by byte. */
  lemma LBBytesAre(version: u8, entropy: u16, tick: u64)
    ensures LBBytes(LBFor(version, entropy, tick))
      == [0x4C, 0x42, if version == 3 then 3 else 2, 1,
          if version == 3 then tick / 0x100 % 0x100 else 0, if version == 3 then tick % 0x100 else 0,
          entropy / 0x100, entropy % 0x100,
          tick / 0x100_0000_0000_0000, tick / 0x1_0000_0000_0000 % 0x100, tick / 0x100_0000_0000 % 0x100,
          tick / 0x1_0000_0000 % 0x100, tick / 0x100_0000 % 0x100, tick / 0x1_0000 % 0x100, tick / 0x100 % 0x100,
          tick % 0x100]
  {
    TwoBytes(entropy);
    LowBytes(tick);
    EightBytes(tick);
  }

  // ---- Headers written in place -------------------------------------------

  /** Store htobe(n) into w bytes of a packed structure. */
  method PutBE(a: array<u8>, at: nat, w: nat, n: nat)
    requires at + w <= a.Length
    modifies a
    ensures a[..] == old(a[..at]) + BE(n, w) + old(a[at + w..])
    ensures forall j :: 0 <= j < at || at + w <= j < a.Length ==> a[j] == old(a[j])
  {
    var v, i := n, w;
    while i > 0
      invariant 0 <= i <= w
      invariant forall j :: 0 <= j < at || at + w <= j < a.Length ==> a[j] == old(a[j])
      invariant BE(n, w) == BE(v, i) + a[at + i..at + w]
    {
      ghost var low := a[at + i..at + w];
      i := i - 1;
      a[at + i] := v % 256;
      assert a[at + i..at + w] == [v % 256] + low;
      assert BE(v, i + 1) + low == BE(v / 256, i) + ([v % 256] + low);
      v := v / 256;
    }
    assert a[..at] == old(a[..at]) && a[at + w..] == old(a[at + w..]);
    assert a[..] == a[..at] + a[at..at + w] + a[at + w..];
  }

  lemma REAppends(lb: seq<u8>, d18: seq<u8>, f: REFields)
    requires d18 == lb + [0x10, 0]
    ensures d18 + BE(f.dataId, 2) + BE(f.bufferOffset, 4) + BE(f.bufferLength, 4) + BE(f.eventNum, 8)
      == lb + REBytes(f)
  {
  }

  /** Store a field behind those already stored. */
  method Append(a: array<u8>, at: nat, w: nat, n: nat, ghost done: seq<u8>)
    requires at + w <= a.Length && a[..at] == done
    modifies a
    ensures a[..at + w] == done + BE(n, w)
  {
    PutBE(a, at, w, n);
    assert a[..at + w] == a[..][..at + w];
  }

  /** The header block of one datagram: a load-balancer header, of the version
      the segmenter was built with, followed by a reassembly header. */
  class LBREHdr {
    const raw: array<u8>
    const version: u8

    ghost predicate Valid() reads this {
      raw.Length == LB_LEN + RE_LEN
    }

    /** Zero fields, with the preamble of the version asked for; any version
        other than 3 gives a version 2 header. */
    constructor (ver: u8)
      ensures Valid() && fresh(raw) && version == ver
      ensures raw[..4] == [0x4C, 0x42, if ver == 3 then 3 else 2, 1] && raw[16] == 0x10
      ensures forall i :: 4 <= i < raw.Length && i != 16 ==> raw[i] == 0
    {
      raw := new u8[LB_LEN + RE_LEN](_ => 0);
      version := ver;
      new;
      raw[0], raw[1], raw[2], raw[3] := 0x4C, 0x42, if ver == 3 then 3 else 2, 1;
      raw[16] := 0x10;
    }

    method SetRE(dataId: u16, bufferOffset: u32, bufferLength: u32, eventNum: u64)
      requires Valid() && raw[16..18] == [0x10, 0]
      modifies raw
      ensures raw[..] == old(raw[..LB_LEN]) + REBytes(REFields(dataId, bufferOffset, bufferLength, eventNum))
      ensures raw[16..20] == [0x10, 0, dataId / 0x100, dataId % 0x100]
      ensures raw[20..24] == [bufferOffset / 0x100_0000, bufferOffset / 0x1_0000 % 0x100,
                              bufferOffset / 0x100 % 0x100, bufferOffset % 0x100]
      ensures raw[24..28] == [bufferLength / 0x100_0000, bufferLength / 0x1_0000 % 0x100,
                              bufferLength / 0x100 % 0x100, bufferLength % 0x100]
      ensures raw[28..36] == [eventNum / 0x100_0000_0000_0000, eventNum / 0x1_0000_0000_0000 % 0x100,
                              eventNum / 0x100_0000_0000 % 0x100, eventNum / 0x1_0000_0000 % 0x100,
                              eventNum / 0x100_0000 % 0x100, eventNum / 0x1_0000 % 0x100,
                              eventNum / 0x100 % 0x100, eventNum % 0x100]
    {
      ghost var lb, f := raw[..LB_LEN], REFields(dataId, bufferOffset, bufferLength, eventNum);
      StoreRE(dataId, bufferOffset, bufferLength, eventNum);
      REParts(raw[..], lb, f);
      assert raw[16..20] == raw[..][16..20] && raw[20..24] == raw[..][20..24];
      assert raw[24..28] == raw[..][24..28] && raw[28..36] == raw[..][28..36];
    }

    /** The stores of set, field by field. */
    method StoreRE(dataId: u16, bufferOffset: u32, bufferLength: u32, eventNum: u64)
      requires Valid() && raw[16..18] == [0x10, 0]
      modifies raw
      ensures raw[..] == old(raw[..LB_LEN]) + REBytes(REFields(dataId, bufferOffset, bufferLength, eventNum))
    {
      ghost var lb := raw[..LB_LEN];
      ghost var d18 := raw[..18];
      assert d18 == lb + raw[16..18];
      Append(raw, 18, 2, dataId, d18);
      Append(raw, 20, 4, bufferOffset, d18 + BE(dataId, 2));
      Append(raw, 24, 4, bufferLength, d18 + BE(dataId, 2) + BE(bufferOffset, 4));
      Append(raw, 28, 8, eventNum, d18 + BE(dataId, 2) + BE(bufferOffset, 4) + BE(bufferLength, 4));
      REAppends(lb, d18, REFields(dataId, bufferOffset, bufferLength, eventNum));
      assert raw[..] == raw[..36];
    }

    /** The switch of _send: version 3 selects the slot by the low 16 bits of
        the tick, every other version is written as version 2. */
    method SetLB(entropy: u16, tick: u64)
      requires Valid() && raw[..4] == [0x4C, 0x42, if version == 3 then 3 else 2, 1]
      requires version != 3 ==> raw[4..6] == [0, 0]
      modifies raw
      ensures raw[..] == LBBytes(LBFor(version, entropy, tick)) + old(raw[LB_LEN..])
      ensures raw[4..8] == [if version == 3 then tick / 0x100 % 0x100 else 0, if version == 3 then tick % 0x100 else 0,
                            entropy / 0x100, entropy % 0x100]
      ensures raw[8..16] == [tick / 0x100_0000_0000_0000, tick / 0x1_0000_0000_0000 % 0x100,
                             tick / 0x100_0000_0000 % 0x100, tick / 0x1_0000_0000 % 0x100,
                             tick / 0x100_0000 % 0x100, tick / 0x1_0000 % 0x100, tick / 0x100 % 0x100, tick % 0x100]
    {
      ghost var re := raw[LB_LEN..];
      if version == 3 {
        PutBE(raw, 4, 2, tick % TWO_16);
        assert raw[..6] == [0x4C, 0x42, 3, 1] + BE(tick % TWO_16, 2) && raw[LB_LEN..] == re;
        PutBE(raw, 6, 2, entropy);
        assert raw[..8] == [0x4C, 0x42, 3, 1] + BE(tick % TWO_16, 2) + BE(entropy, 2) && raw[LB_LEN..] == re;
      } else {
        assert raw[..6] == raw[..4] + raw[4..6];
        PutBE(raw, 6, 2, entropy);
        assert raw[..8] == [0x4C, 0x42, 2, 1, 0, 0] + BE(entropy, 2) && raw[LB_LEN..] == re;
      }
      PutBE(raw, 8, 8, tick);
      assert raw[LB_LEN..] == re;
      assert raw[..] == LBBytes(LBFor(version, entropy, tick)) + re;
      LBBytesAre(version, entropy, tick);
      assert raw[..LB_LEN] == LBBytes(LBFor(version, entropy, tick));
      assert raw[4..8] == raw[..LB_LEN][4..8] && raw[8..16] == raw[..LB_LEN][8..16];
    }
  }
}
