/** What a partly assembled item holds: the key lemmas behind every theorem about
    runs of the reassembler. Completion is decided by a byte counter, so they
    relate that counter to the set of fragments copied so far. */
module Assembly {
  import opened Types
  import opened Arithmetic
  import opened Wire
  import opened Segmentation
  import opened Reassembly

  /** Where the fragment that carries byte i of an event starts. */
  function Start(e: Sent, i: nat): (o: nat)
    requires e.limit > 0
    ensures o <= i
  {
    if i < e.limit then 0 else e.limit + Start(e, i - e.limit)
  }

  /** The offsets of all fragments of an event. */
  ghost function Offsets(e: Sent): set<nat>
    requires e.limit > 0
  {
    set o: nat | 0 <= o < |e.event| && Start(e, o) == o
  }

  /** The byte positions that a set of fragments covers. */
  ghost function Cover(e: Sent, got: set<nat>): set<nat>
    requires e.limit > 0
  {
    set i: nat | 0 <= i < |e.event| && Start(e, i) in got
  }

  ghost function Span(a: nat, b: nat): (s: set<nat>)
    requires a <= b
    ensures forall i :: i in s <==> a <= i < b
    ensures |s| == b - a
  {
    if a == b then {} else Span(a, b - 1) + {b - 1}
  }

  /** The item assembles event e of key k and has received exactly the fragments
      at the offsets got. */
  ghost predicate Holds(it: Item, k: Key, e: Sent, got: set<nat>) {
    && Sendable(e) && it.key == k && it.bytes == |e.event| == |it.event|
    && it.curBytes == |Cover(e, got)| && it.numFragments == |got|
    && forall i :: i in Cover(e, got) ==> it.event[i] == e.event[i]
  }

  lemma SubsetFull<T>(a: set<T>, b: set<T>)
    requires a <= b && |a| == |b|
    ensures a == b
  {
    assert b == a + (b - a);
    assert |b| == |a| + |b - a|;
  }

  lemma {:induction false} StartIsAlignedDown(e: Sent, i: nat)
    requires e.limit > 0
    ensures Start(e, i) == i - i % e.limit && Start(e, Start(e, i)) == Start(e, i)
    decreases i
  {
    var m := e.limit;
    if i < m {
      ModUnique(i, m, 0, i);
    } else {
      var j := i - m;
      StartIsAlignedDown(e, j);
      ModUnique(i, m, j / m + 1, j % m) by {
        assert j == m * (j / m) + j % m;
        assert m * (j / m + 1) == m * (j / m) + m;
      }
    }
  }

  lemma {:induction false} StartUnique(e: Sent, i: nat, o: nat)
    requires e.limit > 0 && Start(e, o) == o
    ensures Start(e, i) == o <==> o <= i < o + e.limit
    decreases i
  {
    if i >= e.limit && o >= e.limit { StartUnique(e, i - e.limit, o - e.limit); }
  }

  lemma FragmentOffset(k: Key, e: Sent, p: Packet)
    requires IsFragment(k, e, p)
    ensures p.offset in Offsets(e)
  {
    StartIsAlignedDown(e, p.offset);
  }

  /** The bytes that a fragment adds to the cover of an item. */
  lemma CoverGrows(k: Key, e: Sent, got: set<nat>, p: Packet)
    requires IsFragment(k, e, p) && p.offset !in got
    ensures p.offset + |p.payload| <= |e.event|
    ensures forall i :: i in Cover(e, got + {p.offset}) <==>
      i in Cover(e, got) || p.offset <= i < p.offset + |p.payload|
    ensures |Cover(e, got + {p.offset})| == |Cover(e, got)| + |p.payload|
  {
    var span := Span(p.offset, p.offset + |p.payload|);
    forall i: nat | i < |e.event| ensures i in span <==> Start(e, i) == p.offset {
      FragmentOffset(k, e, p);
      StartUnique(e, i, p.offset);
    }
    assert Cover(e, got + {p.offset}) == Cover(e, got) + span;
    assert Cover(e, got) !! span;
  }

  lemma BlitAgrees(dst: seq<u8>, off: nat, len: nat, event: seq<u8>, had: set<nat>, has: set<nat>)
    requires |dst| == |event| && off + len <= |event|
    requires forall i :: i in had ==> i < |dst| && dst[i] == event[i]
    requires forall i :: i in has <==> i in had || off <= i < off + len
    ensures forall i :: i in has ==> Blit(dst, off, event[off..off + len])[i] == event[i]
  {
  }

  /** Copying a fragment that the item does not have yet stays in bounds and adds
      exactly that fragment. */
  lemma Absorbs(it: Item, k: Key, e: Sent, got: set<nat>, p: Packet)
    requires Holds(it, k, e, got) && IsFragment(k, e, p) && p.offset !in got
    ensures p.offset + |p.payload| <= |it.event|
    ensures Holds(Place(it, p), k, e, got + {p.offset})
  {
    CoverGrows(k, e, got, p);
    assert p.payload == e.event[p.offset..p.offset + |p.payload|];
    BlitAgrees(it.event, p.offset, |p.payload|, e.event, Cover(e, got), Cover(e, got + {p.offset}));
  }

  lemma FreshHolds(p: Packet, k: Key, e: Sent, a: Alloc, now: int)
    requires IsFragment(k, e, p) && |a.contents| == p.length
    ensures Holds(FromHeader(p, a, now), k, e, {})
  {
    assert Cover(e, {}) == {};
  }

  /** The byte counter reaches the event length exactly when no fragment is
      missing, and then the buffer is the event. */
  lemma CountsAll(it: Item, k: Key, e: Sent, got: set<nat>)
    requires Holds(it, k, e, got)
    ensures it.curBytes == it.bytes <==> Offsets(e) <= got
    ensures it.curBytes == it.bytes ==> it.event == e.event
  {
    var all := Span(0, |e.event|);
    if it.curBytes == it.bytes {
      SubsetFull(Cover(e, got), all);
      assert forall o :: o in Offsets(e) ==> o in all;
      assert forall i :: 0 <= i < |e.event| ==> i in all;
    }
    if Offsets(e) <= got {
      forall i | i in all ensures i in Cover(e, got) {
        StartIsAlignedDown(e, i);
        assert Start(e, i) in Offsets(e);
      }
      assert Cover(e, got) == all;
    }
  }
}
