/** The receive threads of one reassembler over the queue they share: whatever the
    order in which their turns come, the objects go through a run of the state
    machine in Reassembly. */
module ReceivePool {
  import opened Types
  import opened Segmentation
  import opened Reassembly
  import opened Safety
  import opened Arrivals
  import opened Reassembler

  ghost function Views(ts: seq<RecvThread>): (v: seq<Thread>)
    reads ts
    ensures |v| == |ts| && forall t :: 0 <= t < |ts| ==> v[t] == ts[t].View()
  {
    if ts == [] then [] else Views(ts[..|ts| - 1]) + [ts[|ts| - 1].View()]
  }

  /** A thread of this pool. */
  ghost predicate Member(th: RecvThread, t: nat, reas: Common)
    reads *
  {
    th.reas == reas && th.id == t && th.Valid()
  }

  /** The threads are distinct, and no buffer is in assembly at two of them. */
  ghost predicate Separate(ts: seq<RecvThread>)
    reads ts
  {
    forall t, u :: 0 <= t < u < |ts| ==> ts[t] != ts[u] && ts[t].owner.Keys !! ts[u].owner.Keys
  }

  /** What a datagram of the key may write to. */
  ghost function Touched(th: RecvThread, k: Key): set<object>
    reads th
  {
    if k in th.eventsInProgress then {th.eventsInProgress[k], th.eventsInProgress[k].event} else {}
  }

  ghost predicate Elsewhere(x: RecvThread, y: RecvThread, touched: set<object>)
    reads x, y
  {
    && x != y && x !in touched && x.owner.Keys !! y.owner.Keys
    && (forall item :: item in x.eventsInProgress.Values ==> item !in touched)
    && forall b :: b in x.owner.Keys ==> b !in touched
  }

  /** Threads whose buffers differ have different items. */
  lemma ItemsDiffer(x: RecvThread, y: RecvThread, i: nat, j: nat, reas: Common, k: Key)
    requires Member(x, i, reas) && Member(y, j, reas) && x != y && x.owner.Keys !! y.owner.Keys
    ensures Elsewhere(x, y, Touched(y, k))
  {
    forall item | item in x.eventsInProgress.Values ensures item !in y.eventsInProgress.Values {
      assert item.event in x.owner.Keys;
    }
  }

  ghost predicate Started(th: RecvThread, t: nat, reas: Common)
    reads th
  {
    && th.reas == reas && th.id == t
    && th.eventsInProgress == map[] && th.entries == map[] && th.owner == map[] && th.lostEvents == {}
  }

  /** The threads that openAndStart creates. */
  method NewThreads(n: nat, reas: Common) returns (ts: seq<RecvThread>)
    ensures |ts| == n && forall t :: 0 <= t < n ==> fresh(ts[t]) && Started(ts[t], t, reas)
    ensures forall t, u :: 0 <= t < u < n ==> ts[t] != ts[u]
  {
    ts := [];
    for t := 0 to n
      invariant |ts| == t && forall u :: 0 <= u < t ==> fresh(ts[u]) && Started(ts[u], u, reas)
      invariant forall u, v :: 0 <= u < v < t ==> ts[u] != ts[v]
    {
      var th := new RecvThread(t, reas);
      ts := ts + [th];
    }
  }

  lemma StartedAreSound(ts: seq<RecvThread>, reas: Common, cfg: Config)
    requires |ts| == cfg.numThreads && forall t :: 0 <= t < |ts| ==> Started(ts[t], t, reas)
    requires forall t, u :: 0 <= t < u < |ts| ==> ts[t] != ts[u]
    ensures Separate(ts) && Views(ts) == Init(cfg).threads
    ensures forall t :: 0 <= t < |ts| ==> Member(ts[t], t, reas)
  {
    forall t | 0 <= t < |ts| ensures Member(ts[t], t, reas) && ts[t].View() == Thread(t, map[], {}) {
      assert Started(ts[t], t, reas);
    }
  }

  lemma ViewsUpdate(ts: seq<RecvThread>, was: seq<Thread>, tid: nat)
    requires tid < |ts| == |was| && forall t :: 0 <= t < |ts| && t != tid ==> ts[t].View() == was[t]
    ensures Views(ts) == was[tid := ts[tid].View()]
  {
  }

  /** The items in progress at a thread, and their buffers. */
  ghost function Held(th: RecvThread): (objects: set<object>)
    reads th
    ensures forall k :: k in th.eventsInProgress ==> th.eventsInProgress[k] in objects
    ensures forall b :: b in th.owner.Keys ==> b in objects
  {
    var items: set<object> := th.eventsInProgress.Values;
    items + th.owner.Keys
  }

  /** All that the threads may write to, besides the buffers on the queue. */
  ghost predicate Within(ts: seq<RecvThread>, reas: Common, objects: set<object>)
    reads ts
  {
    reas in objects && forall t :: 0 <= t < |ts| ==> ts[t] in objects && Held(ts[t]) <= objects
  }

  class Pool {
    const cfg: Config
    const reas: Common
    const threads: seq<RecvThread>

    ghost predicate Sound()
      reads *
    {
      && |threads| == cfg.numThreads && reas.Valid() && Separate(threads)
      && forall t :: 0 <= t < |threads| ==> Member(threads[t], t, reas)
    }

    ghost function View(): State
      reads reas, threads
    {
      State(Views(threads), reas.View())
    }

    constructor (cfg: Config)
      ensures Sound() && this.cfg == cfg && View() == Init(cfg)
      ensures fresh(reas) && forall t :: 0 <= t < |threads| ==> fresh(threads[t]) && Held(threads[t]) == {}
    {
      var common := new Common();
      var ts := NewThreads(cfg.numThreads, common);
      this.cfg, reas, threads := cfg, common, ts;
      new;
      StartedAreSound(threads, reas, cfg);
    }

    /** A datagram arrives at a thread. */
    method Receive(tid: nat, p: Packet, now: int, pushOk: bool, ghost id: nat) returns (ghost a: Alloc)
      requires Sound() && tid < |threads|
      requires var th := threads[tid].View();
        p.offset + |p.payload| <= if Attaches(th, p) then |th.inProgress[p.key].event| else p.length
      modifies threads[tid], reas, Touched(threads[tid], p.key)
      ensures Sound() && a.id == id && WellFormed(cfg, Recv(tid, p, now, a, pushOk))
      ensures Next(cfg, old(View()), Recv(tid, p, now, a, pushOk)) == Some(View())
      ensures forall t :: 0 <= t < |threads| && t != tid ==> unchanged(threads[t])
      ensures fresh(Held(threads[tid]) - old(Held(threads[tid])))
    {
      assert Member(threads[tid], tid, reas);
      a := ReceiveAt(tid, p, now, pushOk, id);
      ViewsUpdate(threads, old(Views(threads)), tid);
    }

    /** The other threads stay as they are. */
    method ReceiveAt(tid: nat, p: Packet, now: int, pushOk: bool, ghost id: nat) returns (ghost a: Alloc)
      requires Sound() && tid < |threads|
      requires var th := threads[tid].View();
        p.offset + |p.payload| <= if Attaches(th, p) then |th.inProgress[p.key].event| else p.length
      modifies threads[tid], reas, Touched(threads[tid], p.key)
      ensures reas.Valid() && forall t :: 0 <= t < |threads| ==> Member(threads[t], t, reas)
      ensures a.id == id && |a.contents| == p.length && InBounds(old(threads[tid].View()), p, a, now)
      ensures (threads[tid].View(), reas.View())
        == Reassembly.Receive(old(threads[tid].View()), old(reas.View()), p, now, a, pushOk)
      ensures forall t :: 0 <= t < |threads| && t != tid ==> unchanged(threads[t])
      ensures forall b :: b in threads[tid].owner.Keys ==> b in old(threads[tid].owner.Keys) || fresh(b)
      ensures fresh(Held(threads[tid]) - old(Held(threads[tid])))
    {
      assert Member(threads[tid], tid, reas);
      ghost var touched := Touched(threads[tid], p.key);
      forall t | 0 <= t < |threads| && t != tid ensures Elsewhere(threads[t], threads[tid], touched) {
        assert Member(threads[t], t, reas);
        ItemsDiffer(threads[t], threads[tid], t, tid, reas, p.key);
      }
      a := threads[tid].Receive(p, now, pushOk, id);
      forall t | 0 <= t < |threads| && t != tid ensures Member(threads[t], t, reas) && unchanged(threads[t]) {
        assert old(Member(threads[t], t, reas)) && old(Elsewhere(threads[t], threads[tid], touched));
        assert unchanged(threads[t]) && unchanged(threads[t].eventsInProgress.Values);
        assert unchanged(threads[t].owner.Keys);
        assert threads[t].Tracks() == old(threads[t].Tracks());
        assert threads[t].Apart();
      }
    }

    /** The collector visits an entry of a thread. */
    method Collect(tid: nat, key: Key, now: int)
      requires Sound() && tid < |threads|
      modifies threads[tid], reas
      ensures Sound() && Next(cfg, old(View()), Gc(tid, key, now)) == Some(View())
      ensures forall t :: 0 <= t < |threads| && t != tid ==> unchanged(threads[t])
      ensures Held(threads[tid]) <= old(Held(threads[tid]))
    {
      assert Member(threads[tid], tid, reas);
      threads[tid].Collect(key, now, cfg.timeoutMs);
      forall t | 0 <= t < |threads| && t != tid ensures Member(threads[t], t, reas) {
        assert old(Member(threads[t], t, reas)) && threads[t].Tracks() == old(threads[t].Tracks());
      }
      ViewsUpdate(threads, old(Views(threads)), tid);
    }

    /** The user takes an event. */
    method Dequeue() returns (item: EventItem?)
      requires Sound()
      modifies reas
      ensures Sound() && Next(cfg, old(View()), Pop) == Some(View())
      ensures item == null <==> old(reas.queue) == []
      ensures item != null ==> item.View() == old(reas.queue)[0]
    {
      item := reas.Dequeue();
      forall t | 0 <= t < |threads| ensures Member(threads[t], t, reas) {
        assert old(Member(threads[t], t, reas)) && threads[t].Tracks() == old(threads[t].Tracks());
      }
    }

    method GetLostEvent() returns (loss: Option<Loss>)
      requires Sound()
      modifies reas
      ensures Sound() && Next(cfg, old(View()), PopLost) == Some(View())
      ensures loss == if old(reas.lostEventsQueue) == [] then None else Some(old(reas.lostEventsQueue)[0])
    {
      loss := reas.GetLostEvent();
      forall t | 0 <= t < |threads| ensures Member(threads[t], t, reas) {
        assert old(Member(threads[t], t, reas)) && threads[t].Tracks() == old(threads[t].Tracks());
      }
    }
  }

  /** What happens next, from outside: a datagram arrives at a thread, the collector
      visits an entry, or the user takes an event or a report of a loss. */
  datatype Command =
    | Arrive(tid: nat, p: Packet, now: int, pushOk: bool, id: nat)
    | Visit(tid: nat, key: Key, now: int)
    | Take
    | TakeLost

  ghost predicate Genuine(cfg: Config, sent: Traffic, c: Command) {
    match c
    case Arrive(tid, p, _, _, _) => tid < cfg.numThreads && HonestPacket(sent, p)
    case Visit(tid, _, _) => tid < cfg.numThreads
    case Take => true
    case TakeLost => true
  }

  /** The step of the state machine, for some contents of the new buffer. */
  predicate Carries(c: Command, step: Step) {
    match c
    case Arrive(tid, p, now, pushOk, id) =>
      step.Recv? && step == Recv(tid, p, now, Alloc(id, step.a.contents), pushOk) && |step.a.contents| == p.length
    case Visit(tid, key, now) => step == Gc(tid, key, now)
    case Take => step == Pop
    case TakeLost => step == PopLost
  }

  /** The objects after some commands. */
  ghost predicate Reached(cfg: Config, sent: Traffic, commands: seq<Command>, steps: seq<Step>, s: State) {
    && |steps| == |commands| && (forall i :: 0 <= i < |steps| ==> Carries(commands[i], steps[i]))
    && Legal(cfg, steps) && Honest(sent, steps) && Run(cfg, steps) == Some(s)
  }

  /** A genuine datagram fits where it goes, whatever has happened before. */
  lemma Fits(cfg: Config, sent: Traffic, commands: seq<Command>, steps: seq<Step>, s: State, c: Command)
    requires AllSendable(sent) && Reached(cfg, sent, commands, steps, s) && Genuine(cfg, sent, c) && c.Arrive?
    ensures var th := s.threads[c.tid]; var p := c.p;
      p.offset + |p.payload| <= if Attaches(th, p) then |th.inProgress[p.key].event| else p.length
  {
    var a := Alloc(c.id, seq(c.p.length, _ => 0));
    var more := steps + [Recv(c.tid, c.p, c.now, a, c.pushOk)];
    assert more[..|more| - 1] == steps;
    RunIsDetermined(cfg, sent, more);
  }

  lemma ReachedStep(cfg: Config, sent: Traffic, commands: seq<Command>, steps: seq<Step>, s: State,
                    c: Command, step: Step, s': State)
    requires Reached(cfg, sent, commands, steps, s) && Genuine(cfg, sent, c) && Carries(c, step)
    requires WellFormed(cfg, step) && Next(cfg, s, step) == Some(s')
    ensures Reached(cfg, sent, commands + [c], steps + [step], s')
  {
    assert (steps + [step])[..|steps|] == steps;
  }

  lemma OneMore(commands: seq<Command>, i: nat)
    requires i <= |commands|
    ensures if i < |commands| then commands[..i + 1] == commands[..i] + [commands[i]] else commands[..i] == commands
  {
  }

  /** One command: the pool makes its step. objects is what the pool may write to. */
  method Turn(pool: Pool, c: Command, ghost objects: set<object>) returns (ghost step: Step, ghost after: set<object>)
    requires pool.Sound() && Within(pool.threads, pool.reas, objects)
    requires c.Arrive? || c.Visit? ==> c.tid < |pool.threads|
    requires c.Arrive? ==> var th := pool.threads[c.tid].View(); var p := c.p;
      p.offset + |p.payload| <= if Attaches(th, p) then |th.inProgress[p.key].event| else p.length
    modifies objects
    ensures pool.Sound() && Within(pool.threads, pool.reas, after) && fresh(after - objects)
    ensures WellFormed(pool.cfg, step) && Carries(c, step)
    ensures Next(pool.cfg, old(pool.View()), step) == Some(pool.View())
  {
    match c
    case Arrive(tid, p, now, pushOk, id) =>
      step, after := Arrival(pool, tid, p, now, pushOk, id, objects);
    case Visit(tid, key, now) =>
      pool.Collect(tid, key, now);
      step, after := Gc(tid, key, now), objects;
    case Take =>
      var item := pool.Dequeue();
      step, after := Pop, objects;
    case TakeLost =>
      var loss := pool.GetLostEvent();
      step, after := PopLost, objects;
  }

  method Arrival(pool: Pool, tid: nat, p: Packet, now: int, pushOk: bool, ghost id: nat, ghost objects: set<object>)
    returns (ghost step: Step, ghost after: set<object>)
    requires pool.Sound() && Within(pool.threads, pool.reas, objects) && tid < |pool.threads|
    requires var th := pool.threads[tid].View();
      p.offset + |p.payload| <= if Attaches(th, p) then |th.inProgress[p.key].event| else p.length
    modifies objects
    ensures pool.Sound() && Within(pool.threads, pool.reas, after) && fresh(after - objects)
    ensures WellFormed(pool.cfg, step) && step.Recv?
    ensures step == Recv(tid, p, now, Alloc(id, step.a.contents), pushOk)
    ensures Next(pool.cfg, old(pool.View()), step) == Some(pool.View())
  {
    ghost var a := pool.Receive(tid, p, now, pushOk, id);
    step, after := Recv(tid, p, now, a, pushOk), objects + Held(pool.threads[tid]);
  }

  /** One more command, after those already done. */
  method Continue(pool: Pool, ghost sent: Traffic, ghost done: seq<Command>, c: Command, ghost steps: seq<Step>,
                  ghost objects: set<object>) returns (ghost steps': seq<Step>, ghost after: set<object>)
    requires pool.Sound() && Within(pool.threads, pool.reas, objects)
    requires AllSendable(sent) && Reached(pool.cfg, sent, done, steps, pool.View()) && Genuine(pool.cfg, sent, c)
    modifies objects
    ensures pool.Sound() && Within(pool.threads, pool.reas, after) && fresh(after - objects)
    ensures Reached(pool.cfg, sent, done + [c], steps', pool.View())
  {
    ghost var s := pool.View();
    if c.Arrive? { Fits(pool.cfg, sent, done, steps, s, c); }
    ghost var step;
    step, after := Turn(pool, c, objects);
    ReachedStep(pool.cfg, sent, done, steps, s, c, step, pool.View());
    steps' := steps + [step];
  }

  method Start(cfg: Config) returns (pool: Pool, ghost objects: set<object>)
    ensures pool.Sound() && pool.cfg == cfg && pool.View() == Init(cfg)
    ensures fresh(objects) && Within(pool.threads, pool.reas, objects)
  {
    pool := new Pool(cfg);
    ghost var threads: set<object> := set th | th in pool.threads;
    objects := threads + {pool.reas};
  }

  /** THE OBJECTS MAKE A RUN. Threads that take their turns in any order over the queue
      they share, with the collector and the user in between, go through a run of the
      state machine, one step a turn; and no copy of a genuine datagram, first or
      repeated, leaves its buffer. */
  method Execute(cfg: Config, ghost sent: Traffic, commands: seq<Command>) returns (pool: Pool, ghost steps: seq<Step>)
    requires AllSendable(sent) && forall i :: 0 <= i < |commands| ==> Genuine(cfg, sent, commands[i])
    ensures pool.Sound() && Reached(cfg, sent, commands, steps, pool.View())
  {
    ghost var objects;
    pool, objects := Start(cfg);
    steps := [];
    var i := 0;
    while i < |commands|
      invariant i <= |commands| && pool.cfg == cfg && pool.Sound()
      invariant Reached(cfg, sent, commands[..i], steps, pool.View())
      invariant fresh(objects) && Within(pool.threads, pool.reas, objects)
    {
      steps, objects := Continue(pool, sent, commands[..i], commands[i], steps, objects);
      OneMore(commands, i);
      i := i + 1;
    }
    OneMore(commands, i);
  }
}
