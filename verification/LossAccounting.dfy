/** What the statistics of the reassembler add up to. */
module LossAccounting {
  import opened Types
  import opened Segmentation
  import opened Reassembly
  import opened Completion
  import opened Ownership

  /** The sum over threads of the sizes of lostEvents. */
  function LostCount(threads: seq<Thread>): nat {
    if threads == [] then 0 else LostCount(threads[..|threads| - 1]) + |threads[|threads| - 1].lostEvents|
  }

  /** The sum over threads of the sizes of the in-progress maps. */
  function ActiveCount(threads: seq<Thread>): nat {
    if threads == [] then 0 else ActiveCount(threads[..|threads| - 1]) + |threads[|threads| - 1].inProgress|
  }

  lemma {:induction false} CountsUpdate(threads: seq<Thread>, t: nat, th: Thread)
    requires t < |threads|
    ensures LostCount(threads[t := th]) == LostCount(threads) - |threads[t].lostEvents| + |th.lostEvents|
    ensures ActiveCount(threads[t := th]) == ActiveCount(threads) - |threads[t].inProgress| + |th.inProgress|
  {
    var n := |threads| - 1;
    if t < n {
      CountsUpdate(threads[..n], t, th);
      assert threads[t := th][..n] == threads[..n][t := th];
    } else {
      assert threads[t := th][..n] == threads[..n];
    }
  }

  lemma {:induction false} CountsInit(threads: seq<Thread>)
    requires forall t :: 0 <= t < |threads| ==> threads[t].inProgress == map[] && threads[t].lostEvents == {}
    ensures LostCount(threads) == 0 && ActiveCount(threads) == 0
  {
    if threads != [] { CountsInit(threads[..|threads| - 1]); }
  }

  lemma MapRemoveSize<K, V>(m: map<K, V>, k: K)
    requires k in m
    ensures |m - {k}| == |m| - 1
  {
    assert (m - {k}).Keys == m.Keys - {k};
  }

  lemma MapPutSize<K, V>(m: map<K, V>, k: K, v: V)
    ensures |m[k := v]| == if k in m then |m| else |m| + 1
  {
    assert m[k := v].Keys == m.Keys + {k};
  }

  // ---- One step of one thread ---------------------------------------------

  ghost predicate WasReported(losses: seq<Loss>, tid: nat, k: Key) {
    exists i :: 0 <= i < |losses| && losses[i].tid == tid && losses[i].key == k
  }

  /** A key is in the set of a thread exactly if that thread has reported it. */
  ghost predicate Reported(th: Thread, losses: seq<Loss>) {
    forall k :: k in th.lostEvents <==> WasReported(losses, th.id, k)
  }

  ghost predicate ReportedOnce(losses: seq<Loss>) {
    forall i, j :: 0 <= i < j < |losses| ==> (losses[i].tid, losses[i].key) != (losses[j].tid, losses[j].key)
  }

  function Taken(fin: seq<Finish>): nat {
    if fin == [] then 0 else Taken(fin[..|fin| - 1]) + if fin[|fin| - 1].queued then 1 else 0
  }

  lemma TakenMore(fin: seq<Finish>, f: Finish)
    ensures Taken(fin + [f]) == Taken(fin) + if f.queued then 1 else 0
  {
    assert (fin + [f])[..|fin|] == fin;
  }

  /** The shared counters agree with the shared histories; lost is the total over
      all threads of the keys they hold as lost. */
  ghost predicate Books(sh: Shared, lost: int) {
    && sh.enqueueLoss + sh.reassemblyLoss == lost == |sh.losses|
    && ReportedOnce(sh.losses)
    && |sh.lostQueue| <= |sh.losses|
    && (forall i :: 0 <= i < |sh.lostQueue| ==> sh.lostQueue[i] == sh.losses[|sh.losses| - |sh.lostQueue| + i])
    && sh.eventSuccess == |sh.finished|
    && Taken(sh.finished) == |sh.handed| + |sh.queue|
  }

  /** Logging a loss records it at most once, whichever way it was lost. */
  lemma LogLostBooks(th: Thread, sh: Shared, it: Item, enqueue: bool, lost: int)
    requires Books(sh, lost) && Reported(th, sh.losses)
    ensures var (th', sh') := LogLost(th, sh, it, enqueue);
      && Books(sh', lost + |th'.lostEvents| - |th.lostEvents|) && Reported(th', sh'.losses)
      && sh.losses <= sh'.losses && th'.id == th.id && th'.inProgress == th.inProgress
      && (forall tid, k :: tid != th.id ==> (WasReported(sh.losses, tid, k) <==> WasReported(sh'.losses, tid, k)))
      && sh' == sh.(lostQueue := sh'.lostQueue, losses := sh'.losses, enqueueLoss := sh'.enqueueLoss,
                    reassemblyLoss := sh'.reassemblyLoss)
  {
    var (th', sh') := LogLost(th, sh, it, enqueue);
    if it.key !in th.lostEvents {
      var loss := Loss(th.id, it.key, it.numFragments, enqueue);
      forall tid, k ensures WasReported(sh'.losses, tid, k)
        <==> WasReported(sh.losses, tid, k) || (tid == th.id && k == it.key)
      {
        if WasReported(sh.losses, tid, k) {
          var i :| 0 <= i < |sh.losses| && sh.losses[i].tid == tid && sh.losses[i].key == k;
          assert sh'.losses[i] == sh.losses[i];
        }
        assert sh'.losses[|sh.losses|] == loss;
      }
      assert !WasReported(sh.losses, th.id, it.key);
    }
  }

  /** Entries in progress, events finished, expired and displaced: the items that
      were ever started, as seen by one thread. */
  function Started(th: Thread, sh: Shared): int {
    |th.inProgress| + |sh.finished| + |sh.expired| + |sh.displaced| - |sh.buffers|
  }

  lemma CompleteBooks(th: Thread, sh: Shared, it: Item, pushOk: bool, lost: int)
    requires Books(sh, lost) && Reported(th, sh.losses)
    ensures var (th', sh') := Complete(th, sh, it, pushOk);
      && Books(sh', lost + |th'.lostEvents| - |th.lostEvents|) && Reported(th', sh'.losses)
      && th'.id == th.id && th'.inProgress == th.inProgress - {it.key}
      && (forall tid, k :: tid != th.id ==> (WasReported(sh.losses, tid, k) <==> WasReported(sh'.losses, tid, k)))
      && |sh'.finished| == |sh.finished| + 1
      && sh'.expired == sh.expired && sh'.displaced == sh.displaced && sh'.buffers == sh.buffers
  {
    var th1 := th.(inProgress := th.inProgress - {it.key});
    var sh1 := sh.(eventSuccess := sh.eventSuccess + 1, finished := sh.finished + [Finish(it, pushOk)]);
    SuccessBooks(sh, it, pushOk, lost);
    if !pushOk { LogLostBooks(th1, sh1, it, true, lost); }
  }

  /** A success is counted with the item that it is about. */
  lemma SuccessBooks(sh: Shared, it: Item, pushOk: bool, lost: int)
    requires Books(sh, lost)
    ensures var sh1 := sh.(eventSuccess := sh.eventSuccess + 1, finished := sh.finished + [Finish(it, pushOk)]);
      Books(if pushOk then sh1.(queue := sh1.queue + [it]) else sh1, lost)
  {
    TakenMore(sh.finished, Finish(it, pushOk));
  }

  lemma InstallBooks(th: Thread, sh: Shared, p: Packet, a: Alloc, lost: int)
    requires Books(sh, lost)
    ensures Books(Install(th, sh, p, a), lost) && Install(th, sh, p, a).losses == sh.losses
  {
  }

  lemma ReceiveBooks(th: Thread, sh: Shared, p: Packet, now: int, a: Alloc, pushOk: bool, lost: int)
    requires InBounds(th, p, a, now) && Books(sh, lost) && Reported(th, sh.losses)
    ensures var (th', sh') := Receive(th, sh, p, now, a, pushOk);
      && Books(sh', lost + |th'.lostEvents| - |th.lostEvents|) && Reported(th', sh'.losses)
      && th'.id == th.id
      && (forall tid, k :: tid != th.id ==> (WasReported(sh.losses, tid, k) <==> WasReported(sh'.losses, tid, k)))
  {
    var it := Place(Target(th, p, a, now), p);
    InstallBooks(th, sh, p, a, lost);
    if it.curBytes == it.bytes { CompleteBooks(th, Install(th, sh, p, a), it, pushOk, lost); }
  }

  /** What a datagram does to the classes that started items fall into. */
  lemma ReceiveShape(th: Thread, sh: Shared, p: Packet, now: int, a: Alloc, pushOk: bool)
    requires InBounds(th, p, a, now)
    requires p.key in th.inProgress ==> th.inProgress[p.key].key == p.key
    ensures var (th', sh') := Receive(th, sh, p, now, a, pushOk);
      var it := Place(Target(th, p, a, now), p);
      && th'.inProgress == (if it.curBytes == it.bytes then th.inProgress - {p.key} else th.inProgress[p.key := it])
      && |sh'.finished| == |sh.finished| + (if it.curBytes == it.bytes then 1 else 0)
      && |sh'.displaced| == |sh.displaced| + (if p.offset == 0 && p.key in th.inProgress then 1 else 0)
      && sh'.expired == sh.expired
      && sh'.buffers == (if Attaches(th, p) then sh.buffers else sh.buffers + {a.id})
  {
  }

  lemma ReceiveStarts(th: Thread, sh: Shared, p: Packet, now: int, a: Alloc, pushOk: bool)
    requires InBounds(th, p, a, now) && a.id !in sh.buffers
    requires p.key in th.inProgress ==> th.inProgress[p.key].key == p.key
    ensures Started(Receive(th, sh, p, now, a, pushOk).0, Receive(th, sh, p, now, a, pushOk).1) == Started(th, sh)
  {
    ReceiveShape(th, sh, p, now, a, pushOk);
    EntriesChange(th.inProgress, p.key, Place(Target(th, p, a, now), p));
    assert |sh.buffers + {a.id}| == |sh.buffers| + 1;
  }

  lemma EntriesChange(m: map<Key, Item>, k: Key, it: Item)
    ensures |m - {k}| == if k in m then |m| - 1 else |m|
    ensures |m[k := it]| == if k in m then |m| else |m| + 1
  {
    MapPutSize(m, k, it);
    if k in m { MapRemoveSize(m, k); } else { assert m - {k} == m; }
  }

  lemma ExpiredBooks(sh: Shared, it: Item, lost: int)
    requires Books(sh, lost)
    ensures Books(sh.(expired := sh.expired + [it]), lost)
  {
  }

  lemma CollectBooks(th: Thread, sh: Shared, k: Key, now: int, timeoutMs: int, lost: int)
    requires Books(sh, lost) && Reported(th, sh.losses)
    ensures var (th', sh') := Collect(th, sh, k, now, timeoutMs);
      && Books(sh', lost + |th'.lostEvents| - |th.lostEvents|) && Reported(th', sh'.losses)
      && th'.id == th.id
      && (forall tid, k :: tid != th.id ==> (WasReported(sh.losses, tid, k) <==> WasReported(sh'.losses, tid, k)))
      && Started(th', sh') == Started(th, sh)
  {
    if Stale(th, k, now, timeoutMs) {
      var it := th.inProgress[k];
      MapRemoveSize(th.inProgress, k);
      ExpiredBooks(sh, it, lost);
      LogLostBooks(th.(inProgress := th.inProgress - {k}), sh.(expired := sh.expired + [it]), it, false, lost);
    }
  }

  // ---- Whole runs ---------------------------------------------------------

  ghost predicate Accounts(s: State) {
    && Books(s.sh, LostCount(s.threads))
    && (forall t :: 0 <= t < |s.threads| ==> s.threads[t].id == t && Reported(s.threads[t], s.sh.losses))
    && |s.sh.buffers| == ActiveCount(s.threads) + |s.sh.finished| + |s.sh.expired| + |s.sh.displaced|
  }

  /** One thread and the shared state move together; the other threads stay. */
  lemma ThreadAccounts(s: State, t: nat, th: Thread, sh: Shared)
    requires Accounts(s) && t < |s.threads| && th.id == t
    requires Books(sh, LostCount(s.threads) + |th.lostEvents| - |s.threads[t].lostEvents|) && Reported(th, sh.losses)
    requires forall tid, k :: tid != t ==> (WasReported(s.sh.losses, tid, k) <==> WasReported(sh.losses, tid, k))
    requires Started(th, sh) == Started(s.threads[t], s.sh)
    ensures Accounts(State(s.threads[t := th], sh))
  {
    CountsUpdate(s.threads, t, th);
    forall u | 0 <= u < |s.threads| && u != t ensures Reported(s.threads[u], sh.losses) {
      assert Reported(s.threads[u], s.sh.losses);
    }
  }

  lemma RecvAccounts(s: State, t: nat, p: Packet, now: int, a: Alloc, pushOk: bool)
    requires Accounts(s) && t < |s.threads| && InBounds(s.threads[t], p, a, now) && a.id !in s.sh.buffers
    requires p.key in s.threads[t].inProgress ==> s.threads[t].inProgress[p.key].key == p.key
    ensures var (th, sh) := Receive(s.threads[t], s.sh, p, now, a, pushOk); Accounts(State(s.threads[t := th], sh))
  {
    ReceiveBooks(s.threads[t], s.sh, p, now, a, pushOk, LostCount(s.threads));
    ReceiveStarts(s.threads[t], s.sh, p, now, a, pushOk);
    var (th, sh) := Receive(s.threads[t], s.sh, p, now, a, pushOk);
    ThreadAccounts(s, t, th, sh);
  }

  lemma GcAccounts(s: State, t: nat, k: Key, now: int, timeoutMs: int)
    requires Accounts(s) && t < |s.threads|
    ensures var (th, sh) := Collect(s.threads[t], s.sh, k, now, timeoutMs); Accounts(State(s.threads[t := th], sh))
  {
    CollectBooks(s.threads[t], s.sh, k, now, timeoutMs, LostCount(s.threads));
    var (th, sh) := Collect(s.threads[t], s.sh, k, now, timeoutMs);
    ThreadAccounts(s, t, th, sh);
  }

  /** The user and the loss reader only move records along. */
  lemma PopAccounts(sh: Shared, lost: int)
    requires Books(sh, lost)
    ensures Books(Dequeue(sh), lost) && Books(DequeueLost(sh), lost)
  {
  }

  lemma StepAccounts(cfg: Config, s: State, step: Step)
    requires WellFormed(cfg, step) && |s.threads| == cfg.numThreads && Next(cfg, s, step).Some?
    requires KeysMatch(s) && Accounts(s) && (step.Recv? ==> step.a.id !in s.sh.buffers)
    ensures Accounts(Next(cfg, s, step).value)
  {
    match step
    case Recv(tid, p, now, a, pushOk) => RecvAccounts(s, tid, p, now, a, pushOk);
    case Gc(tid, key, now) => GcAccounts(s, tid, key, now, cfg.timeoutMs);
    case Pop => PopAccounts(s.sh, LostCount(s.threads));
    case PopLost => PopAccounts(s.sh, LostCount(s.threads));
  }

  lemma NothingToAccount(s: State)
    requires forall t :: 0 <= t < |s.threads| ==>
      s.threads[t].id == t && s.threads[t].inProgress == map[] && s.threads[t].lostEvents == {}
    requires NothingHappened(s.sh)
    ensures Accounts(s)
  {
    CountsInit(s.threads);
    NothingOnTheBooks(s.sh);
    forall t | 0 <= t < |s.threads| ensures Reported(s.threads[t], s.sh.losses) {
      NothingReported(s.threads[t], s.sh.losses);
    }
  }

  predicate NothingHappened(sh: Shared) {
    && sh.queue == sh.handed == [] && sh.lostQueue == sh.losses == [] && sh.finished == []
    && sh.expired == sh.displaced == [] && sh.buffers == {}
    && sh.enqueueLoss == sh.reassemblyLoss == sh.eventSuccess == 0
  }

  lemma NothingOnTheBooks(sh: Shared)
    requires NothingHappened(sh)
    ensures Books(sh, 0)
  {
  }

  lemma NothingReported(th: Thread, losses: seq<Loss>)
    requires th.lostEvents == {} && losses == []
    ensures Reported(th, losses)
  {
  }

  /** LOSS ACCOUNTING. In every reachable state the two loss counters add up to
      what the threads hold as lost and to the records ever pushed; each thread
      reports a key once; successes are the accepted and the refused pushes
      together; and every item started is in progress, finished, expired or
      displaced. */
  lemma {:induction false} LossesAddUp(cfg: Config, steps: seq<Step>)
    requires Legal(cfg, steps) && Run(cfg, steps).Some? && FreshAllocs(steps)
    ensures Accounts(Run(cfg, steps).value)
  {
    if steps == [] {
      NothingToAccount(Init(cfg));
    } else {
      var before := steps[..|steps| - 1];
      AllocIsFresh(cfg, steps);
      LossesAddUp(cfg, before);
      RunKeysMatch(cfg, before);
      StepAccounts(cfg, Run(cfg, before).value, steps[|steps| - 1]);
    }
  }
}
