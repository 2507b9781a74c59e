/** The reassembler as a state machine. One received datagram, one visit of the
    garbage collector to a map entry and one pop are each one atomic step. */
module Reassembly {
  import opened Types
  import opened Segmentation

  /** What operator new[] returned: an identity for the buffer, never reused in
      the model, and whatever bytes happened to be in it. */
  datatype Alloc = Alloc(id: nat, contents: seq<u8>)

  /** EventQueueItem: an event in assembly, with the contents of its buffer. */
  datatype Item = Item(
    key: Key, bytes: nat, curBytes: nat, numFragments: nat,
    event: seq<u8>, buffer: nat, firstSegment: int)

  /** One receive thread. */
  datatype Thread = Thread(id: nat, inProgress: map<Key, Item>, lostEvents: set<Key>)

  datatype Loss = Loss(tid: nat, key: Key, numFragments: nat, enqueue: bool)

  /** An event whose byte count was reached, and whether the queue took it. */
  datatype Finish = Finish(item: Item, queued: bool)

  /** What the threads share. The fields after lostQueue are history: they record
      what has happened and no step looks at them. */
  datatype Shared = Shared(
    queue: seq<Item>, enqueueLoss: nat, reassemblyLoss: nat, eventSuccess: nat, lostQueue: seq<Loss>,
    handed: seq<Item>, finished: seq<Finish>, expired: seq<Item>, displaced: seq<Item>,
    buffers: set<nat>, losses: seq<Loss>)

  datatype State = State(threads: seq<Thread>, sh: Shared)

  /** The number of receive threads and eventTimeout_ms. */
  datatype Config = Config(numThreads: nat, timeoutMs: int)

  datatype Step =
    | Recv(tid: nat, p: Packet, now: int, a: Alloc, pushOk: bool)
    | Gc(tid: nat, key: Key, now: int)
    | Pop
    | PopLost

  function Blit(dst: seq<u8>, off: nat, src: seq<u8>): (r: seq<u8>)
    requires off + |src| <= |dst|
    ensures |r| == |dst|
    ensures forall i :: 0 <= i < |r| ==> r[i] == if off <= i < off + |src| then src[i - off] else dst[i]
  {
    dst[..off] + src + dst[off + |src|..]
  }

  /** initFromHeader: the total length comes from the header of the datagram that
      happened to arrive. */
  function FromHeader(p: Packet, a: Alloc, now: int): Item {
    Item(p.key, p.length, 0, 0, a.contents, a.id, now)
  }

  /** Copy the segment into its place and count it. */
  function Place(it: Item, p: Packet): Item
    requires p.offset + |p.payload| <= |it.event|
  {
    it.(event := Blit(it.event, p.offset, p.payload), numFragments := it.numFragments + 1,
        curBytes := it.curBytes + |p.payload|)
  }

  /** logLostEvent: a key is recorded, reported and counted once per thread. */
  function LogLost(th: Thread, sh: Shared, it: Item, enqueue: bool): (Thread, Shared) {
    if it.key in th.lostEvents then (th, sh)
    else
      var loss := Loss(th.id, it.key, it.numFragments, enqueue);
      (th.(lostEvents := th.lostEvents + {it.key}),
       sh.(lostQueue := sh.lostQueue + [loss], losses := sh.losses + [loss],
           enqueueLoss := sh.enqueueLoss + (if enqueue then 1 else 0),
           reassemblyLoss := sh.reassemblyLoss + (if enqueue then 0 else 1)))
  }

  /** The entry a datagram attaches to. Offset 0 never attaches: it always starts
      a new item. */
  predicate Attaches(th: Thread, p: Packet) {
    p.offset != 0 && p.key in th.inProgress
  }

  function Target(th: Thread, p: Packet, a: Alloc, now: int): Item {
    if Attaches(th, p) then th.inProgress[p.key] else FromHeader(p, a, now)
  }

  /** The copy stays inside the buffer of the item it goes to. */
  predicate InBounds(th: Thread, p: Packet, a: Alloc, now: int) {
    p.offset + |p.payload| <= |Target(th, p, a, now).event|
  }

  /** Allocation, and the entry that a new item displaces from the map. The
      displaced item is released but its buffer is not. */
  function Install(th: Thread, sh: Shared, p: Packet, a: Alloc): Shared {
    if Attaches(th, p) then sh
    else sh.(buffers := sh.buffers + {a.id},
             displaced := sh.displaced + if p.key in th.inProgress then [th.inProgress[p.key]] else [])
  }

  /** An item whose bytes are all counted leaves the map for the queue. When the
      push fails its buffer is freed, yet it still counts as a success. */
  function Complete(th: Thread, sh: Shared, it: Item, pushOk: bool): (Thread, Shared) {
    var th1 := th.(inProgress := th.inProgress - {it.key});
    var sh1 := sh.(eventSuccess := sh.eventSuccess + 1, finished := sh.finished + [Finish(it, pushOk)]);
    if pushOk then (th1, sh1.(queue := sh1.queue + [it]))
    else LogLost(th1, sh1, it, true)
  }

  /** The body of the receive loop for a datagram with a valid header. */
  function Receive(th: Thread, sh: Shared, p: Packet, now: int, a: Alloc, pushOk: bool): (Thread, Shared)
    requires InBounds(th, p, a, now)
  {
    var it := Place(Target(th, p, a, now), p);
    var sh1 := Install(th, sh, p, a);
    if it.curBytes == it.bytes then Complete(th, sh1, it, pushOk)
    else (th.(inProgress := th.inProgress[p.key := it]), sh1)
  }

  /** duration_cast from nanoseconds to milliseconds. */
  function WaitedMs(ns: int): int {
    if ns >= 0 then ns / 1_000_000 else -(-ns / 1_000_000)
  }

  predicate Stale(th: Thread, k: Key, now: int, timeoutMs: int) {
    k in th.inProgress && WaitedMs(now - th.inProgress[k].firstSegment) > timeoutMs
  }

  /** An entry is stale once a whole millisecond more than the timeout has passed. */
  lemma StaleIff(th: Thread, k: Key, now: int, timeoutMs: nat)
    requires k in th.inProgress
    ensures Stale(th, k, now, timeoutMs) <==> now - th.inProgress[k].firstSegment >= (timeoutMs + 1) * 1_000_000
  {
  }

  /** The garbage collector at one map entry. */
  function Collect(th: Thread, sh: Shared, k: Key, now: int, timeoutMs: int): (Thread, Shared) {
    if Stale(th, k, now, timeoutMs) then
      var it := th.inProgress[k];
      LogLost(th.(inProgress := th.inProgress - {k}), sh.(expired := sh.expired + [it]), it, false)
    else (th, sh)
  }

  /** A sweep: the collector visits the entries of a thread one after another, with
      one reading of the clock. */
  function Sweep(th: Thread, sh: Shared, ks: seq<Key>, now: int, timeoutMs: int): (Thread, Shared) {
    if ks == [] then (th, sh)
    else
      var (th1, sh1) := Sweep(th, sh, ks[..|ks| - 1], now, timeoutMs);
      Collect(th1, sh1, ks[|ks| - 1], now, timeoutMs)
  }

  lemma SweepSnoc(th: Thread, sh: Shared, ks: seq<Key>, k: Key, now: int, timeoutMs: int)
    ensures var (th', sh') := Sweep(th, sh, ks, now, timeoutMs);
      Sweep(th, sh, ks + [k], now, timeoutMs) == Collect(th', sh', k, now, timeoutMs)
  {
    assert (ks + [k])[..|ks|] == ks;
  }

  /** A SWEEP TAKES EXACTLY THE STALE ENTRIES, whatever the order of its visits. */
  lemma {:induction false} SweepTakesTheStale(th: Thread, sh: Shared, ks: seq<Key>, now: int, timeoutMs: int)
    ensures Sweep(th, sh, ks, now, timeoutMs).0.inProgress
      == map k | k in th.inProgress && !(k in ks && Stale(th, k, now, timeoutMs)) :: th.inProgress[k]
  {
    if ks != [] {
      var init, last := ks[..|ks| - 1], ks[|ks| - 1];
      SweepTakesTheStale(th, sh, init, now, timeoutMs);
      assert ks == init + [last];
    }
  }

  function Dequeue(sh: Shared): Shared {
    if sh.queue == [] then sh
    else sh.(queue := sh.queue[1..], handed := sh.handed + [sh.queue[0]])
  }

  function DequeueLost(sh: Shared): Shared {
    if sh.lostQueue == [] then sh else sh.(lostQueue := sh.lostQueue[1..])
  }

  function Next(cfg: Config, s: State, step: Step): Option<State>
    requires WellFormed(cfg, step) && |s.threads| == cfg.numThreads
  {
    match step
    case Recv(tid, p, now, a, pushOk) =>
      if !InBounds(s.threads[tid], p, a, now) then None
      else
        var (th, sh) := Receive(s.threads[tid], s.sh, p, now, a, pushOk);
        Some(State(s.threads[tid := th], sh))
    case Gc(tid, key, now) =>
      var (th, sh) := Collect(s.threads[tid], s.sh, key, now, cfg.timeoutMs);
      Some(State(s.threads[tid := th], sh))
    case Pop => Some(s.(sh := Dequeue(s.sh)))
    case PopLost => Some(s.(sh := DequeueLost(s.sh)))
  }

  /** The thread exists, and the allocation has the size that was asked for. */
  predicate WellFormed(cfg: Config, step: Step) {
    match step
    case Recv(tid, p, now, a, pushOk) => tid < cfg.numThreads && |a.contents| == p.length
    case Gc(tid, key, now) => tid < cfg.numThreads
    case Pop => true
    case PopLost => true
  }

  function Init(cfg: Config): (s: State)
    ensures |s.threads| == cfg.numThreads
    ensures forall t :: 0 <= t < cfg.numThreads ==> s.threads[t] == Thread(t, map[], {})
  {
    State(seq(cfg.numThreads, t requires 0 <= t < cfg.numThreads => Thread(t, map[], {})),
          Shared([], 0, 0, 0, [], [], [], [], [], {}, []))
  }

  ghost predicate Legal(cfg: Config, steps: seq<Step>) {
    forall i :: 0 <= i < |steps| ==> WellFormed(cfg, steps[i])
  }

  /** The state after a run, or None when some copy left its buffer. */
  ghost function Run(cfg: Config, steps: seq<Step>): (s: Option<State>)
    requires Legal(cfg, steps)
    ensures s.Some? ==> |s.value.threads| == cfg.numThreads
  {
    if steps == [] then Some(Init(cfg))
    else
      match Run(cfg, steps[..|steps| - 1])
      case None => None
      case Some(s) => Next(cfg, s, steps[|steps| - 1])
  }

  /** Everything ever put on the queue, in order. */
  function Queued(sh: Shared): seq<Item> {
    sh.handed + sh.queue
  }
}
