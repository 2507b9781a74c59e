/** Event numbers: the counter that addToSendQueue and sendEvent draw from, and the
    overrides that users set on it. */
module Numbering {
  import opened Types
  import opened Arithmetic
  import opened Segmentation

  /** The two atomic actions on userEventNum. */
  datatype Op = Exchange(num: u64) | Fetch

  /** userEventNum after a sequence of actions of any threads. */
  function Counter(ops: seq<Op>): u64 {
    if ops == [] then 0
    else
      match ops[|ops| - 1]
      case Exchange(num) => num
      case Fetch => (Counter(ops[..|ops| - 1]) + 1) % 0x1_0000_0000_0000_0000
  }

  /** What a call does in turn: it overrides the counter when the caller gives a
      number other than 0, and then takes the next one. */
  function CallOps(given: u64): seq<Op> {
    if given != 0 then [Exchange(given), Fetch] else [Fetch]
  }

  function AllOps(calls: seq<u64>): seq<Op> {
    if calls == [] then [] else AllOps(calls[..|calls| - 1]) + CallOps(calls[|calls| - 1])
  }

  /** The number that call i gets when calls do not overlap. */
  function NumberOf(calls: seq<u64>, i: nat): u64
    requires i < |calls|
  {
    var before := AllOps(calls[..i]);
    Counter(if calls[i] != 0 then before + [Exchange(calls[i])] else before)
  }

  /** The last call up to i that overrides the counter. */
  function LastOverride(calls: seq<u64>, i: nat): (j: Option<nat>)
    requires i < |calls|
    ensures j.Some? ==> j.value <= i && calls[j.value] != 0
    ensures forall m :: (if j.Some? then j.value else -1) < m <= i ==> calls[m] == 0
  {
    if calls[i] != 0 then Some(i) else if i == 0 then None else LastOverride(calls, i - 1)
  }

  lemma CounterAfter(ops: seq<Op>, op: Op)
    ensures Counter(ops + [op]) == match op
      case Exchange(num) => num
      case Fetch => (Counter(ops) + 1) % 0x1_0000_0000_0000_0000
  {
    assert (ops + [op])[..|ops|] == ops;
  }

  lemma AllOpsSnoc(calls: seq<u64>, i: nat)
    requires i < |calls|
    ensures AllOps(calls[..i + 1]) == AllOps(calls[..i]) + CallOps(calls[i])
  {
    assert calls[..i + 1][..i] == calls[..i];
  }

  lemma CounterAfterCall(calls: seq<u64>, i: nat)
    requires i < |calls|
    ensures Counter(AllOps(calls[..i + 1])) == (NumberOf(calls, i) + 1) % 0x1_0000_0000_0000_0000
  {
    var before := AllOps(calls[..i]);
    var drawn := if calls[i] != 0 then before + [Exchange(calls[i])] else before;
    AllOpsSnoc(calls, i);
    assert before + CallOps(calls[i]) == drawn + [Fetch];
    CounterAfter(drawn, Fetch);
  }

  /** The last override at or before call i, plus the calls since; or i. */
  function Due(calls: seq<u64>, i: nat): nat
    requires i < |calls|
  {
    match LastOverride(calls, i)
    case None => i
    case Some(j) => calls[j] + (i - j)
  }

  lemma OverridingCall(calls: seq<u64>, i: nat)
    requires i < |calls| && calls[i] != 0
    ensures NumberOf(calls, i) == calls[i] == Due(calls, i) == Due(calls, i) % 0x1_0000_0000_0000_0000
  {
    CounterAfter(AllOps(calls[..i]), Exchange(calls[i]));
  }

  lemma FirstCall(calls: seq<u64>)
    requires calls != [] && calls[0] == 0
    ensures NumberOf(calls, 0) == 0 == Due(calls, 0) % 0x1_0000_0000_0000_0000
  {
    assert calls[..0] == [];
  }

  lemma NextCall(calls: seq<u64>, i: nat)
    requires 0 < i < |calls| && calls[i] == 0
    requires NumberOf(calls, i - 1) == Due(calls, i - 1) % 0x1_0000_0000_0000_0000
    ensures NumberOf(calls, i) == Due(calls, i) % 0x1_0000_0000_0000_0000
  {
    PlainNumber(calls, i);
    PlainDue(calls, i);
    Advance(NumberOf(calls, i), NumberOf(calls, i - 1), Due(calls, i - 1), Due(calls, i));
  }

  lemma PlainNumber(calls: seq<u64>, i: nat)
    requires 0 < i < |calls| && calls[i] == 0
    ensures NumberOf(calls, i) == (NumberOf(calls, i - 1) + 1) % 0x1_0000_0000_0000_0000
  {
    CounterAfterCall(calls, i - 1);
    assert NumberOf(calls, i) == Counter(AllOps(calls[..i]));
  }

  lemma PlainDue(calls: seq<u64>, i: nat)
    requires 0 < i < |calls| && calls[i] == 0
    ensures Due(calls, i) == Due(calls, i - 1) + 1
  {
  }

  lemma Advance(next: int, last: int, x: int, y: int)
    requires next == (last + 1) % 0x1_0000_0000_0000_0000 && last == x % 0x1_0000_0000_0000_0000 && y == x + 1
    ensures next == y % 0x1_0000_0000_0000_0000
  {
  }

  /** SEQUENTIAL CALLS. Call i gets the last override at or before it plus the number
      of calls since, or i when there was none, modulo 2^64. Calls whose push failed
      are counted like any other. */
  lemma {:induction false} SequentialNumbers(calls: seq<u64>, i: nat)
    requires i < |calls|
    ensures NumberOf(calls, i) == Due(calls, i) % 0x1_0000_0000_0000_0000
  {
    if calls[i] != 0 {
      OverridingCall(calls, i);
    } else if i == 0 {
      FirstCall(calls);
    } else {
      SequentialNumbers(calls, i - 1);
      NextCall(calls, i);
    }
  }

  // ---- overlapping calls ------------------------------------------------------------

  /** The position of the last override, if there is one. */
  function LastExchange(ops: seq<Op>): (m: Option<nat>)
    ensures m.Some? ==> m.value < |ops| && ops[m.value].Exchange?
    ensures forall i :: (if m.Some? then m.value else -1) < i < |ops| ==> ops[i] == Fetch
  {
    if ops == [] then None
    else if ops[|ops| - 1].Exchange? then Some(|ops| - 1)
    else LastExchange(ops[..|ops| - 1])
  }

  /** The last override plus the fetches since, or all fetches; without wrap-around. */
  function Expected(ops: seq<Op>): int {
    match LastExchange(ops)
    case None => |ops|
    case Some(m) => ops[m].num + (|ops| - 1 - m)
  }

  /** THE COUNTER, in closed form: whatever the interleaving, it is the last override
      plus the fetches since it, or the number of fetches, modulo 2^64. */
  lemma {:induction false} CounterIsExpected(ops: seq<Op>)
    ensures Counter(ops) == Expected(ops) % 0x1_0000_0000_0000_0000
  {
    if ops != [] {
      var before := ops[..|ops| - 1];
      CounterIsExpected(before);
      if ops[|ops| - 1] == Fetch {
        assert Expected(ops) == Expected(before) + 1;
        AddModulo64(Expected(before), 1);
      } else {
        NoModulo64(ops[|ops| - 1].num);
      }
    }
  }

  /** The position of the last override in a stretch of actions, if there is one. */
  function LastBetween(ops: seq<Op>, i: nat, j: nat): (m: Option<nat>)
    requires i <= j <= |ops|
    ensures m.Some? ==> i <= m.value < j && ops[m.value].Exchange?
    ensures forall n :: (if m.Some? then m.value + 1 else i) <= n < j ==> ops[n] == Fetch
  {
    if i == j then None
    else if ops[j - 1].Exchange? then Some(j - 1)
    else LastBetween(ops, i, j - 1)
  }

  lemma {:induction false} FetchesCount(ops: seq<Op>, i: nat, j: nat)
    requires i <= j <= |ops| && forall n :: i <= n < j ==> ops[n] == Fetch
    ensures Counter(ops[..j]) == (Counter(ops[..i]) + (j - i)) % 0x1_0000_0000_0000_0000
  {
    if i < j {
      FetchesCount(ops, i, j - 1);
      assert ops[..j][..j - 1] == ops[..j - 1];
      AddModulo64(Counter(ops[..i]) + (j - 1 - i), 1);
    } else {
      NoModulo64(Counter(ops[..i]));
    }
  }

  lemma CounterAfterExchange(ops: seq<Op>, m: nat, j: nat)
    requires m < j <= |ops| && ops[m].Exchange? && forall n :: m < n < j ==> ops[n] == Fetch
    ensures Counter(ops[..j]) == (ops[m].num + (j - m - 1)) % 0x1_0000_0000_0000_0000
  {
    CounterAfter(ops[..m], ops[m]);
    assert ops[..m + 1] == ops[..m] + [ops[m]];
    FetchesCount(ops, m + 1, j);
  }

  lemma UndisturbedOverride(ops: seq<Op>, i: nat, j: nat)
    requires i < j <= |ops| && ops[i].Exchange? && forall n :: i < n < j ==> ops[n] == Fetch
    ensures Counter(ops[..j]) == ops[i].num <==> (j - i - 1) % 0x1_0000_0000_0000_0000 == 0
  {
    CounterAfterExchange(ops, i, j);
    MovedModulo64(ops[i].num, j - i - 1, Counter(ops[..j]));
  }

  lemma UndisturbedFetches(ops: seq<Op>, i: nat, j: nat)
    requires i <= j <= |ops| && forall n :: i <= n < j ==> ops[n] == Fetch
    ensures Counter(ops[..i]) == Counter(ops[..j]) <==> (j - i) % 0x1_0000_0000_0000_0000 == 0
  {
    FetchesCount(ops, i, j);
    MovedModulo64(Counter(ops[..i]), j - i, Counter(ops[..j]));
  }

  /** The number fetched at j after the last override before it, at m. */
  function After(ops: seq<Op>, m: nat, j: nat): u64
    requires m < j <= |ops| && ops[m].Exchange?
  {
    (ops[m].num + (j - m - 1)) % 0x1_0000_0000_0000_0000
  }

  lemma CounterIsAfter(ops: seq<Op>, m: nat, j: nat)
    requires m < j <= |ops| && ops[m].Exchange? && forall n :: m < n < j ==> ops[n] == Fetch
    ensures Counter(ops[..j]) == After(ops, m, j)
  {
    CounterAfterExchange(ops, m, j);
  }

  /** WHEN AN OVERRIDE IS HONOURED. A call overrides the counter at i and fetches its
      number at j, with any actions of other calls in between. It gets the number it
      asked for exactly when nothing else was fetched in between (or 2^64 times), if no
      other call overrode the counter; and otherwise exactly when the last of those
      overrides and the fetches after it lead up to that number. */
  lemma OverrideHonouredIff(ops: seq<Op>, i: nat, j: nat)
    requires i < j < |ops| && ops[i].Exchange? && ops[j] == Fetch
    ensures var m := LastBetween(ops, i + 1, j);
      Counter(ops[..j]) == ops[i].num
      <==> if m.None? then (j - i - 1) % 0x1_0000_0000_0000_0000 == 0 else After(ops, m.value, j) == ops[i].num
  {
    var m := LastBetween(ops, i + 1, j);
    if m.None? { UndisturbedOverride(ops, i, j); } else { CounterIsAfter(ops, m.value, j); }
  }

  /** WHEN TWO CALLS SHARE A NUMBER. Two fetches return the same number exactly when
      2^64 fetches or a multiple lie between them, if no call overrode the counter in
      between; and otherwise exactly when the last override and the fetches after it
      lead back to the first number. */
  lemma FetchesAreEqualIff(ops: seq<Op>, i: nat, j: nat)
    requires i < j < |ops| && ops[i] == Fetch && ops[j] == Fetch
    ensures var m := LastBetween(ops, i, j);
      Counter(ops[..i]) == Counter(ops[..j])
      <==> if m.None? then (j - i) % 0x1_0000_0000_0000_0000 == 0 else After(ops, m.value, j) == Counter(ops[..i])
  {
    var m := LastBetween(ops, i, j);
    if m.None? { UndisturbedFetches(ops, i, j); } else { CounterIsAfter(ops, m.value, j); }
  }

  /** OVERLAPPING CALLS never share a number without an override between their fetches,
      below 2^64 calls. */
  lemma FetchesAreDistinct(ops: seq<Op>, i: nat, j: nat)
    requires i < j < |ops| && ops[i] == Fetch && ops[j] == Fetch
    requires j - i < TWO_64 && forall n :: i < n < j ==> ops[n] == Fetch
    ensures Counter(ops[..i]) != Counter(ops[..j])
  {
    UndisturbedFetches(ops, i, j);
    NoModulo64(j - i);
  }

  /** Two calls that override at the same time and then fetch: the number of the first
      override is fetched if and only if it follows the other's, and then last. */
  lemma TwoOverrides(v: u64, w: u64)
    requires v != w
    ensures var ops := [Exchange(v), Exchange(w), Fetch, Fetch];
      && Counter(ops[..2]) == w && Counter(ops[..3]) == (w + 1) % 0x1_0000_0000_0000_0000
      && (v in {Counter(ops[..2]), Counter(ops[..3])} <==> v == (w + 1) % 0x1_0000_0000_0000_0000)
  {
    var ops := [Exchange(v), Exchange(w), Fetch, Fetch];
    CounterAfterExchange(ops, 1, 2);
    CounterAfterExchange(ops, 1, 3);
    NoModulo64(w);
  }

  // ---- the methods -----------------------------------------------------------------

  datatype Queued = Queued(key: Key, event: seq<u8>, entropy: u16)

  datatype QueueError = QueueFull

  /** A call of addToSendQueue, and whether the queue has room for it. */
  datatype Call = Call(event: seq<u8>, given: u64, dataId: u16, entropy: u16, pushOk: bool)

  function Givens(calls: seq<Call>): (g: seq<u64>)
    ensures |g| == |calls| && forall i :: 0 <= i < |calls| ==> g[i] == calls[i].given
  {
    if calls == [] then [] else Givens(calls[..|calls| - 1]) + [calls[|calls| - 1].given]
  }

  /** What successive calls put on the queue: the accepted ones, in order, each under
      the number of SequentialNumbers. */
  function Accepted(calls: seq<Call>, dataId: u16): seq<Queued> {
    if calls == [] then []
    else
      var c := calls[|calls| - 1];
      var key := Key(NumberOf(Givens(calls), |calls| - 1), if c.dataId == 0 then dataId else c.dataId);
      Accepted(calls[..|calls| - 1], dataId) + if c.pushOk then [Queued(key, c.event, c.entropy)] else []
  }

  /** The last number given at or before call i plus the calls since; or i. */
  ghost predicate IsDue(calls: seq<Call>, i: nat, due: nat)
    requires i < |calls|
  {
    || (due == i && forall m :: 0 <= m <= i ==> calls[m].given == 0)
    || exists j :: 0 <= j <= i && calls[j].given != 0 && due == calls[j].given + (i - j)
         && forall m :: j < m <= i ==> calls[m].given == 0
  }

  ghost predicate IsNumber(calls: seq<Call>, i: nat, num: u64)
    requires i < |calls|
  {
    exists due: nat :: IsDue(calls, i, due) && num == due % 0x1_0000_0000_0000_0000
  }

  /** The item that call i puts on the queue. */
  ghost predicate IsItem(calls: seq<Call>, dataId: u16, i: nat, q: Queued)
    requires i < |calls|
  {
    && IsNumber(calls, i, q.key.eventNum) && q.event == calls[i].event && q.entropy == calls[i].entropy
    && q.key.dataId == if calls[i].dataId == 0 then dataId else calls[i].dataId
  }

  lemma DueIs(calls: seq<Call>, i: nat)
    requires i < |calls|
    ensures IsDue(calls, i, Due(Givens(calls), i))
  {
    var g := Givens(calls);
    var given := LastOverride(g, i);
    assert forall m :: 0 <= m <= i ==> g[m] == calls[m].given;
    if given.Some? {
      var j := given.value;
      assert calls[j].given != 0 && Due(g, i) == calls[j].given + (i - j);
    }
  }

  lemma NumberIs(calls: seq<Call>, i: nat)
    requires i < |calls|
    ensures IsNumber(calls, i, NumberOf(Givens(calls), i))
  {
    SequentialNumbers(Givens(calls), i);
    DueIs(calls, i);
  }

  /** Each item comes from the call at its place in at. */
  ghost predicate From(calls: seq<Call>, dataId: u16, items: seq<Queued>, at: seq<nat>) {
    |at| == |items| && forall k :: 0 <= k < |items| ==>
      at[k] < |calls| && calls[at[k]].pushOk && IsItem(calls, dataId, at[k], items[k])
  }

  ghost predicate Rising(at: seq<nat>) {
    forall k, m :: 0 <= k < m < |at| ==> at[k] < at[m]
  }

  lemma DueOfFewer(calls: seq<Call>, i: nat, due: nat)
    requires calls != [] && i < |calls| - 1
    ensures IsDue(calls[..|calls| - 1], i, due) <==> IsDue(calls, i, due)
  {
    assert forall m :: 0 <= m <= i ==> calls[..|calls| - 1][m] == calls[m];
  }

  /** More calls do not change what the calls before them put on the queue. */
  lemma FromFewer(calls: seq<Call>, dataId: u16, items: seq<Queued>, at: seq<nat>)
    requires calls != [] && From(calls[..|calls| - 1], dataId, items, at)
    ensures From(calls, dataId, items, at)
  {
    forall k | 0 <= k < |items| ensures IsItem(calls, dataId, at[k], items[k]) {
      var before := calls[..|calls| - 1];
      assert IsItem(before, dataId, at[k], items[k]);
      var due: nat :| IsDue(before, at[k], due) && items[k].key.eventNum == due % 0x1_0000_0000_0000_0000;
      DueOfFewer(calls, at[k], due);
    }
  }

  lemma LastIs(calls: seq<Call>, dataId: u16)
    requires calls != []
    ensures var n := |calls| - 1; var c := calls[n];
      IsItem(calls, dataId, n, Queued(Key(NumberOf(Givens(calls), n), if c.dataId == 0 then dataId else c.dataId),
                                      c.event, c.entropy))
  {
    NumberIs(calls, |calls| - 1);
  }

  lemma FromSnoc(calls: seq<Call>, dataId: u16, items: seq<Queued>, at: seq<nat>, q: Queued)
    requires calls != [] && From(calls, dataId, items, at) && Rising(at)
    requires forall k :: 0 <= k < |at| ==> at[k] < |calls| - 1
    requires calls[|calls| - 1].pushOk && IsItem(calls, dataId, |calls| - 1, q)
    ensures From(calls, dataId, items + [q], at + [|calls| - 1]) && Rising(at + [|calls| - 1])
  {
    forall k | 0 <= k < |items| ensures IsItem(calls, dataId, (at + [|calls| - 1])[k], (items + [q])[k]) {
      assert IsItem(calls, dataId, at[k], items[k]);
    }
  }

  ghost predicate AllAmong(calls: seq<Call>, at: seq<nat>) {
    forall i :: 0 <= i < |calls| && calls[i].pushOk ==> i in at
  }

  lemma AmongSnoc(calls: seq<Call>, at: seq<nat>)
    requires calls != [] && AllAmong(calls[..|calls| - 1], at)
    ensures AllAmong(calls, at + if calls[|calls| - 1].pushOk then [|calls| - 1] else [])
  {
    forall i | 0 <= i < |calls| - 1 && calls[i].pushOk ensures i in at { assert calls[..|calls| - 1][i] == calls[i]; }
  }

  /** WHAT IS QUEUED, item by item: the accepted calls, all of them and in their order,
      each with its number, its data id or the default, its event and its entropy. */
  lemma {:induction false} AcceptedAre(calls: seq<Call>, dataId: u16) returns (at: seq<nat>)
    ensures From(calls, dataId, Accepted(calls, dataId), at) && Rising(at) && AllAmong(calls, at)
  {
    at := [];
    if calls != [] {
      var n, c := |calls| - 1, calls[|calls| - 1];
      at := AcceptedAre(calls[..n], dataId);
      FromFewer(calls, dataId, Accepted(calls[..n], dataId), at);
      AmongSnoc(calls, at);
      if c.pushOk {
        var key := Key(NumberOf(Givens(calls), n), if c.dataId == 0 then dataId else c.dataId);
        LastIs(calls, dataId);
        FromSnoc(calls, dataId, Accepted(calls[..n], dataId), at, Queued(key, c.event, c.entropy));
        at := at + [n];
      } else {
        assert at + [] == at && Accepted(calls, dataId) == Accepted(calls[..n], dataId);
      }
    }
  }

  lemma AcceptedSnoc(calls: seq<Call>, i: nat, dataId: u16)
    requires i < |calls|
    ensures var c := calls[i];
      var key := Key(NumberOf(Givens(calls[..i + 1]), i), if c.dataId == 0 then dataId else c.dataId);
      Accepted(calls[..i + 1], dataId)
      == Accepted(calls[..i], dataId) + if c.pushOk then [Queued(key, c.event, c.entropy)] else []
  {
    assert calls[..i + 1][..i] == calls[..i];
  }

  lemma OpsSnoc(calls: seq<Call>, i: nat)
    requires i < |calls|
    ensures Givens(calls[..i + 1])[..i] == Givens(calls[..i])
    ensures AllOps(Givens(calls[..i + 1])) == AllOps(Givens(calls[..i])) + CallOps(calls[i].given)
  {
    assert calls[..i + 1][..i] == calls[..i];
    assert Givens(calls[..i + 1])[..i] == Givens(calls[..i]);
  }

  class Numbers {
    const dataId: u16
    var userEventNum: u64
    var eventQueue: seq<Queued>
    ghost var ops: seq<Op>

    ghost predicate Valid()
      reads this
    {
      userEventNum == Counter(ops)
    }

    constructor (dataId: u16)
      ensures Valid() && this.dataId == dataId && eventQueue == [] && ops == []
    {
      this.dataId, userEventNum, eventQueue, ops := dataId, 0, [], [];
    }

    /** Override the counter if asked to, and take the next number. */
    method Take(given: u64) returns (num: u64)
      requires Valid()
      modifies this`userEventNum, this`ops
      ensures Valid() && ops == old(ops) + CallOps(given)
      ensures num == if given != 0 then given else old(userEventNum)
    {
      if given != 0 {
        CounterAfter(ops, Exchange(given));
        userEventNum, ops := given, ops + [Exchange(given)];
      }
      num := userEventNum;
      CounterAfter(ops, Fetch);
      userEventNum, ops := (userEventNum + 1) % 0x1_0000_0000_0000_0000, ops + [Fetch];
    }

    /** addToSendQueue: a push that fails has used up its number all the same. */
    method AddToSendQueue(c: Call) returns (r: Result<int, QueueError>)
      requires Valid()
      modifies this
      ensures Valid() && ops == old(ops) + CallOps(c.given) && (r.Ok? <==> c.pushOk)
      ensures var num := if c.given != 0 then c.given else old(userEventNum);
        var key := Key(num, if c.dataId == 0 then dataId else c.dataId);
        eventQueue == old(eventQueue) + if c.pushOk then [Queued(key, c.event, c.entropy)] else []
    {
      var num := Take(c.given);
      var item := Queued(Key(num, if c.dataId == 0 then dataId else c.dataId), c.event, c.entropy);
      if !c.pushOk { return Err(QueueFull); }
      eventQueue := eventQueue + [item];
      return Ok(0);
    }

    /** The next of a user's calls. */
    method AddNext(calls: seq<Call>, i: nat)
      requires Valid() && i < |calls| && ops == AllOps(Givens(calls[..i]))
      modifies this
      ensures Valid() && ops == AllOps(Givens(calls[..i + 1]))
      ensures var c := calls[i];
        var key := Key(NumberOf(Givens(calls[..i + 1]), i), if c.dataId == 0 then dataId else c.dataId);
        eventQueue == old(eventQueue) + if c.pushOk then [Queued(key, c.event, c.entropy)] else []
    {
      OpsSnoc(calls, i);
      NumberIsCounter(Givens(calls[..i + 1]), i, userEventNum, ops);
      var r := AddToSendQueue(calls[i]);
    }

    /** The same, on top of what the calls before it have queued. */
    method AddOne(calls: seq<Call>, i: nat, ghost before: seq<Queued>)
      requires Valid() && i < |calls| && ops == AllOps(Givens(calls[..i]))
      requires eventQueue == before + Accepted(calls[..i], dataId)
      modifies this
      ensures Valid() && ops == AllOps(Givens(calls[..i + 1]))
      ensures eventQueue == before + Accepted(calls[..i + 1], dataId)
    {
      AcceptedSnoc(calls, i, dataId);
      AddNext(calls, i);
    }

    /** A user's calls one after another. */
    method AddAll(calls: seq<Call>)
      requires Valid() && ops == []
      modifies this
      ensures Valid() && ops == AllOps(Givens(calls))
      ensures eventQueue == old(eventQueue) + Accepted(calls, dataId)
    {
      assert calls[..0] == [];
      for i := 0 to |calls|
        invariant Valid() && ops == AllOps(Givens(calls[..i]))
        invariant eventQueue == old(eventQueue) + Accepted(calls[..i], dataId)
      {
        AddOne(calls, i, old(eventQueue));
      }
      assert calls[..|calls|] == calls;
    }
  }

  /** What the counter gives the next call is the number of that call. */
  lemma NumberIsCounter(givens: seq<u64>, i: nat, counter: u64, ops: seq<Op>)
    requires i < |givens| && ops == AllOps(givens[..i]) && counter == Counter(ops)
    ensures NumberOf(givens, i) == if givens[i] != 0 then givens[i] else counter
  {
    if givens[i] != 0 { CounterAfter(ops, Exchange(givens[i])); }
  }
}
