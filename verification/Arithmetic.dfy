/** Remainders, and the wrap-around of 32-bit and 64-bit counters. */
module Arithmetic {
  import opened Types

  /** Quotient and remainder are unique. */
  lemma ModUnique(n: nat, d: nat, a: nat, r: nat)
    requires 0 <= r < d && n == d * a + r
    ensures n % d == r && n / d == a
  {
    var q, s := n / d, n % d;
    assert n == d * q + s;
    assert q < a ==> d * a >= d * (q + 1);
    assert q > a ==> d * q >= d * (a + 1);
  }

  /** A round-robin index moves on by one, or starts again. */
  lemma NextModulo(i: nat, n: nat)
    requires n > 0
    ensures (i + 1) % n == if i % n + 1 < n then i % n + 1 else 0
  {
    var q, r := i / n, i % n;
    if r + 1 < n {
      ModUnique(i + 1, n, q, r + 1);
    } else {
      assert i + 1 == n * (q + 1);
      ModUnique(i + 1, n, q + 1, 0);
    }
  }

  /** The difference of two clock readings, in 64 bits. */
  function Since(now: u64, past: u64): (d: u64)
    ensures d == 0 <==> now == past
  {
    if now >= past then now - past else now - past + TWO_64
  }

  lemma SinceIs(now: u64, past: u64)
    ensures Since(now, past) == (now - past) % 0x1_0000_0000_0000_0000
  {
  }

  lemma AddModulo32(x: int, y: int)
    ensures (x % 0x1_0000_0000 + y) % 0x1_0000_0000 == (x + y) % 0x1_0000_0000
    ensures (x % 0x1_0000_0000 - y) % 0x1_0000_0000 == (x - y) % 0x1_0000_0000
  {
    var rounds := x / 0x1_0000_0000;
    WholeRounds32(x % 0x1_0000_0000 + y, rounds);
    WholeRounds32(x % 0x1_0000_0000 - y, rounds);
  }

  lemma WholeRounds32(x: int, rounds: int)
    ensures (x + rounds * 0x1_0000_0000) % 0x1_0000_0000 == x % 0x1_0000_0000
  {
  }

  lemma AddModulo64(x: int, y: int)
    ensures (x % 0x1_0000_0000_0000_0000 + y) % 0x1_0000_0000_0000_0000 == (x + y) % 0x1_0000_0000_0000_0000
  {
    WholeRounds64(x % 0x1_0000_0000_0000_0000 + y, x / 0x1_0000_0000_0000_0000);
  }

  lemma NoModulo32(x: nat)
    requires x < TWO_32
    ensures x % 0x1_0000_0000 == x
  {
  }

  lemma NoModulo64(x: nat)
    requires x < TWO_64
    ensures x % 0x1_0000_0000_0000_0000 == x
  {
  }

  lemma WholeRounds64(x: int, rounds: int)
    ensures (x + rounds * 0x1_0000_0000_0000_0000) % 0x1_0000_0000_0000_0000 == x % 0x1_0000_0000_0000_0000
  {
  }

  /** A 64-bit counter that is moved comes back only after whole rounds. */
  lemma MovedModulo64(x: int, d: int, y: int)
    requires 0 <= x < TWO_64 && y == (x + d) % 0x1_0000_0000_0000_0000
    ensures x == y <==> d % 0x1_0000_0000_0000_0000 == 0
  {
  }

  lemma Distribute(r: real, x: real, y: real)
    ensures r * (x + y) == r * x + r * y
  {
  }
}
