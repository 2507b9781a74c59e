/** Sequences that several modules need: rings that drop their oldest element, and
    increasing numbers. */
module Sequences {

  /** What a ring of the given capacity holds of everything pushed. */
  function Window<T>(pushed: seq<T>, capacity: nat): seq<T> {
    if |pushed| <= capacity then pushed else pushed[|pushed| - capacity..]
  }

  /** boost::circular_buffer: a full ring drops its oldest element. */
  function PushBack<T>(ring: seq<T>, capacity: nat, x: T): seq<T> {
    if capacity == 0 then [] else (if |ring| >= capacity then ring[1..] else ring) + [x]
  }

  /** Pushing keeps the last elements. */
  lemma PushKeepsWindow<T>(pushed: seq<T>, capacity: nat, x: T)
    ensures PushBack(Window(pushed, capacity), capacity, x) == Window(pushed + [x], capacity)
  {
  }

  lemma TakeOfMore<T>(s: seq<T>, x: T, n: nat)
    requires n <= |s| + 1
    ensures (s + [x])[..n] == if n <= |s| then s[..n] else s + [x]
  {
  }

  lemma PrefixGrows<T>(prefix: seq<T>, s: seq<T>)
    requires prefix <= s && |prefix| < |s|
    ensures prefix + [s[|prefix|]] <= s
  {
  }

  predicate Increasing(s: seq<int>) {
    forall a, b :: 0 <= a < b < |s| ==> s[a] < s[b]
  }

  lemma IncreasingGrows(s: seq<int>, x: int)
    requires Increasing(s) && forall p :: p in s ==> p < x
    ensures Increasing(s + [x]) && forall p :: p in s + [x] <==> p in s || p == x
  {
    assert (s + [x])[|s|] == x;
    forall a | 0 <= a < |s| ensures s[a] < x { assert s[a] in s; }
    forall p | p in s ensures p in s + [x] {
      var i :| 0 <= i < |s| && s[i] == p;
      assert (s + [x])[i] == p;
    }
  }
}
