/** What the reassembler reports: every loss is recorded, once for each thread and key,
    under its kind; records and events are handed over one by one in order. */
module Reports {
  import opened Types
  import opened Segmentation
  import opened Reassembly
  import opened Completion

  /** What a step loses: the item of an event that is complete and that the queue
      refuses, or an entry that has waited too long when the collector visits it. */
  function Loses(cfg: Config, s: State, step: Step): Option<Loss>
    requires WellFormed(cfg, step) && |s.threads| == cfg.numThreads
  {
    match step
    case Recv(t, p, now, a, pushOk) =>
      if !InBounds(s.threads[t], p, a, now) then None
      else
        var it := Place(Target(s.threads[t], p, a, now), p);
        if it.curBytes == it.bytes && !pushOk then Some(Loss(t, p.key, it.numFragments, true)) else None
    case Gc(t, k, now) =>
      var entries := s.threads[t].inProgress;
      if k in entries && WaitedMs(now - entries[k].firstSegment) > cfg.timeoutMs then
        Some(Loss(t, k, entries[k].numFragments, false))
      else None
    case Pop => None
    case PopLost => None
  }

  ghost predicate Numbered(s: State) {
    forall t :: 0 <= t < |s.threads| ==> s.threads[t].id == t
  }

  /** The loss is new to the thread that has it. */
  predicate Unheard(s: State, loss: Loss) {
    loss.tid < |s.threads| && loss.key !in s.threads[loss.tid].lostEvents
  }

  function IfSo<T>(b: bool, x: T): seq<T> {
    if b then [x] else []
  }

  /** Nothing about losses changes, but for the record that is handed over. */
  ghost predicate Silent(s: State, s': State, step: Step) {
    && |s'.threads| == |s.threads|
    && (forall t :: 0 <= t < |s.threads| ==> s'.threads[t].lostEvents == s.threads[t].lostEvents)
    && s'.sh.losses == s.sh.losses
    && s'.sh.lostQueue == (if step.PopLost? && s.sh.lostQueue != [] then s.sh.lostQueue[1..] else s.sh.lostQueue)
    && s'.sh.enqueueLoss == s.sh.enqueueLoss && s'.sh.reassemblyLoss == s.sh.reassemblyLoss
  }

  /** The key is now among those the thread has lost; if it was not before, there is one
      record more, on the queue and in all, and one loss more of its kind. */
  ghost predicate Records(s: State, s': State, loss: Loss) {
    && |s'.threads| == |s.threads| && loss.tid < |s.threads|
    && (forall t :: 0 <= t < |s.threads| ==>
          s'.threads[t].lostEvents == s.threads[t].lostEvents + if t == loss.tid then {loss.key} else {})
    && s'.sh.losses == s.sh.losses + IfSo(Unheard(s, loss), loss)
    && s'.sh.lostQueue == s.sh.lostQueue + IfSo(Unheard(s, loss), loss)
    && s'.sh.enqueueLoss == s.sh.enqueueLoss + (if Unheard(s, loss) && loss.enqueue then 1 else 0)
    && s'.sh.reassemblyLoss == s.sh.reassemblyLoss + if Unheard(s, loss) && !loss.enqueue then 1 else 0
  }

  /** EVERY LOSS IS RECORDED, and nothing else is. */
  lemma StepRecords(cfg: Config, s: State, step: Step)
    requires WellFormed(cfg, step) && |s.threads| == cfg.numThreads && Next(cfg, s, step).Some?
    requires KeysMatch(s) && Numbered(s)
    ensures Numbered(Next(cfg, s, step).value)
    ensures match Loses(cfg, s, step)
      case None => Silent(s, Next(cfg, s, step).value, step)
      case Some(loss) => Records(s, Next(cfg, s, step).value, loss)
  {
    match step
    case Recv(t, p, now, a, pushOk) => RecvRecords(cfg, s, step);
    case Gc(t, k, now) => GcRecords(cfg, s, step);
    case Pop =>
    case PopLost =>
  }

  lemma RecvRecords(cfg: Config, s: State, step: Step)
    requires WellFormed(cfg, step) && |s.threads| == cfg.numThreads && Next(cfg, s, step).Some?
    requires KeysMatch(s) && Numbered(s) && step.Recv?
    ensures Numbered(Next(cfg, s, step).value)
    ensures match Loses(cfg, s, step)
      case None => Silent(s, Next(cfg, s, step).value, step)
      case Some(loss) => Records(s, Next(cfg, s, step).value, loss)
  {
  }

  lemma GcRecords(cfg: Config, s: State, step: Step)
    requires WellFormed(cfg, step) && |s.threads| == cfg.numThreads && Next(cfg, s, step).Some?
    requires KeysMatch(s) && Numbered(s) && step.Gc?
    ensures Numbered(Next(cfg, s, step).value)
    ensures match Loses(cfg, s, step)
      case None => Silent(s, Next(cfg, s, step).value, step)
      case Some(loss) => Records(s, Next(cfg, s, step).value, loss)
  {
  }

  // ---- whole runs --------------------------------------------------------------------

  /** What a step adds to the losses, and to the records given out. */
  function Lost(cfg: Config, s: State, step: Step): seq<Loss>
    requires WellFormed(cfg, step) && |s.threads| == cfg.numThreads
  {
    match Loses(cfg, s, step) case None => [] case Some(loss) => [loss]
  }

  function Handed(sh: Shared, step: Step): seq<Loss> {
    if step.PopLost? && sh.lostQueue != [] then [sh.lostQueue[0]] else []
  }

  /** All losses of a run, repeated ones too. */
  ghost function AllLosses(cfg: Config, steps: seq<Step>): seq<Loss>
    requires Legal(cfg, steps)
  {
    if steps == [] then []
    else
      var before, last := steps[..|steps| - 1], steps[|steps| - 1];
      AllLosses(cfg, before)
      + match Run(cfg, before)
        case None => []
        case Some(s) => Lost(cfg, s, last)
  }

  predicate Among(all: seq<Loss>, t: nat, k: Key) {
    exists i :: 0 <= i < |all| && all[i].tid == t && all[i].key == k
  }

  /** The first loss of each thread and key. */
  function Firsts(all: seq<Loss>): seq<Loss> {
    if all == [] then []
    else
      var before, last := all[..|all| - 1], all[|all| - 1];
      Firsts(before) + IfSo(!Among(before, last.tid, last.key), last)
  }

  function OfKind(losses: seq<Loss>, enqueue: bool): nat {
    if losses == [] then 0
    else OfKind(losses[..|losses| - 1], enqueue) + if losses[|losses| - 1].enqueue == enqueue then 1 else 0
  }

  /** The records that the loss reader has been given. */
  ghost function Given(cfg: Config, steps: seq<Step>): seq<Loss>
    requires Legal(cfg, steps)
  {
    if steps == [] then []
    else
      var before := steps[..|steps| - 1];
      Given(cfg, before)
      + match Run(cfg, before)
        case None => []
        case Some(s) => Handed(s.sh, steps[|steps| - 1])
  }

  /** The events that the user has been given. */
  ghost function GivenEvents(cfg: Config, steps: seq<Step>): seq<Item>
    requires Legal(cfg, steps)
  {
    if steps == [] then []
    else
      var before := steps[..|steps| - 1];
      GivenEvents(cfg, before)
      + match Run(cfg, before)
        case None => []
        case Some(s) => if steps[|steps| - 1].Pop? && s.sh.queue != [] then [s.sh.queue[0]] else []
  }

  /** A thread's lost keys are those among the losses. */
  ghost predicate KeysReported(s: State, all: seq<Loss>) {
    Numbered(s) && forall t, k :: 0 <= t < |s.threads| ==> (k in s.threads[t].lostEvents <==> Among(all, t, k))
  }

  /** The records are the first losses, given out or still waiting, and are counted. */
  ghost predicate RecordsReported(sh: Shared, all: seq<Loss>, given: seq<Loss>) {
    && sh.losses == Firsts(all) == given + sh.lostQueue
    && sh.enqueueLoss == OfKind(sh.losses, true) && sh.reassemblyLoss == OfKind(sh.losses, false)
  }

  lemma AmongSnoc(all: seq<Loss>, loss: Loss, t: nat, k: Key)
    ensures Among(all + [loss], t, k) <==> Among(all, t, k) || (loss.tid == t && loss.key == k)
  {
    assert (all + [loss])[|all|] == loss;
    if Among(all, t, k) {
      var i :| 0 <= i < |all| && all[i].tid == t && all[i].key == k;
      assert (all + [loss])[i] == all[i];
    }
  }

  lemma FirstsSnoc(all: seq<Loss>, loss: Loss)
    ensures Firsts(all + [loss]) == Firsts(all) + IfSo(!Among(all, loss.tid, loss.key), loss)
  {
    assert (all + [loss])[..|all|] == all;
  }

  lemma OfKindSnoc(losses: seq<Loss>, loss: Loss, enqueue: bool)
    ensures OfKind(losses + [loss], enqueue) == OfKind(losses, enqueue) + if loss.enqueue == enqueue then 1 else 0
  {
    assert (losses + [loss])[..|losses|] == losses;
  }

  lemma KeysRecorded(s: State, s': State, all: seq<Loss>, loss: Loss)
    requires KeysReported(s, all) && Numbered(s') && Records(s, s', loss)
    ensures KeysReported(s', all + [loss])
  {
    forall t, k | 0 <= t < |s'.threads| ensures k in s'.threads[t].lostEvents <==> Among(all + [loss], t, k) {
      AmongSnoc(all, loss, t, k);
    }
  }

  lemma CountsRecorded(losses: seq<Loss>, loss: Loss, first: bool, enqueue: bool)
    ensures OfKind(losses + IfSo(first, loss), enqueue)
      == OfKind(losses, enqueue) + if first && loss.enqueue == enqueue then 1 else 0
  {
    if first {
      OfKindSnoc(losses, loss, enqueue);
    } else {
      assert losses + [] == losses;
    }
  }

  lemma Regroup<T>(a: seq<T>, b: seq<T>, c: seq<T>)
    ensures (a + b) + c == a + (b + c)
  {
  }

  lemma ListsRecorded(losses: seq<Loss>, queue: seq<Loss>, all: seq<Loss>, given: seq<Loss>, loss: Loss,
                      more: seq<Loss>)
    requires losses == Firsts(all) == given + queue && more == IfSo(!Among(all, loss.tid, loss.key), loss)
    ensures losses + more == Firsts(all + [loss]) == given + (queue + more)
  {
    FirstsSnoc(all, loss);
    Regroup(given, queue, more);
  }

  lemma CountersRecorded(losses: seq<Loss>, loss: Loss, first: bool, enqueueLoss: nat, reassemblyLoss: nat)
    requires enqueueLoss == OfKind(losses, true) && reassemblyLoss == OfKind(losses, false)
    ensures enqueueLoss + (if first && loss.enqueue then 1 else 0) == OfKind(losses + IfSo(first, loss), true)
    ensures reassemblyLoss + (if first && !loss.enqueue then 1 else 0) == OfKind(losses + IfSo(first, loss), false)
  {
    CountsRecorded(losses, loss, first, true);
    CountsRecorded(losses, loss, first, false);
  }

  lemma RecordsRecorded(sh: Shared, sh': Shared, all: seq<Loss>, given: seq<Loss>, loss: Loss, first: bool)
    requires RecordsReported(sh, all, given) && first == !Among(all, loss.tid, loss.key)
    requires sh'.losses == sh.losses + IfSo(first, loss) && sh'.lostQueue == sh.lostQueue + IfSo(first, loss)
    requires sh'.enqueueLoss == sh.enqueueLoss + if first && loss.enqueue then 1 else 0
    requires sh'.reassemblyLoss == sh.reassemblyLoss + if first && !loss.enqueue then 1 else 0
    ensures RecordsReported(sh', all + [loss], given)
  {
    ListsRecorded(sh.losses, sh.lostQueue, all, given, loss, IfSo(first, loss));
    CountersRecorded(sh.losses, loss, first, sh.enqueueLoss, sh.reassemblyLoss);
  }

  lemma StepReports(cfg: Config, s: State, step: Step, all: seq<Loss>, given: seq<Loss>)
    requires WellFormed(cfg, step) && |s.threads| == cfg.numThreads && Next(cfg, s, step).Some? && KeysMatch(s)
    requires KeysReported(s, all) && RecordsReported(s.sh, all, given)
    ensures var s' := Next(cfg, s, step).value;
      && KeysReported(s', all + Lost(cfg, s, step))
      && RecordsReported(s'.sh, all + Lost(cfg, s, step), given + Handed(s.sh, step))
  {
    var s' := Next(cfg, s, step).value;
    StepRecords(cfg, s, step);
    match Loses(cfg, s, step)
    case None =>
      assert all + [] == all;
      SilentRecords(s.sh, s'.sh, all, given, step);
    case Some(loss) =>
      assert given + [] == given;
      KeysRecorded(s, s', all, loss);
      assert Unheard(s, loss) == !Among(all, loss.tid, loss.key);
      RecordsRecorded(s.sh, s'.sh, all, given, loss, Unheard(s, loss));
  }

  lemma SilentRecords(sh: Shared, sh': Shared, all: seq<Loss>, given: seq<Loss>, step: Step)
    requires RecordsReported(sh, all, given)
    requires sh'.losses == sh.losses && sh'.enqueueLoss == sh.enqueueLoss && sh'.reassemblyLoss == sh.reassemblyLoss
    requires sh'.lostQueue == if step.PopLost? && sh.lostQueue != [] then sh.lostQueue[1..] else sh.lostQueue
    ensures RecordsReported(sh', all, given + Handed(sh, step))
  {
  }

  /** WHAT IS REPORTED. In every reachable state a thread's lost keys are exactly those
      it has refused or expired; the records are the first loss of each thread and key,
      in order: those given to the loss reader one at a time and those still waiting;
      and the counters are the numbers of records of their kind. */
  lemma {:induction false} RunReports(cfg: Config, steps: seq<Step>)
    requires Legal(cfg, steps) && Run(cfg, steps).Some?
    ensures KeysReported(Run(cfg, steps).value, AllLosses(cfg, steps))
    ensures RecordsReported(Run(cfg, steps).value.sh, AllLosses(cfg, steps), Given(cfg, steps))
  {
    if steps != [] {
      var before, last := steps[..|steps| - 1], steps[|steps| - 1];
      RunReports(cfg, before);
      RunKeysMatch(cfg, before);
      StepReports(cfg, Run(cfg, before).value, last, AllLosses(cfg, before), Given(cfg, before));
    }
  }

  /** EVENTS ARE HANDED OVER ONE AT A TIME, the oldest first. */
  lemma {:induction false} RunHandsOver(cfg: Config, steps: seq<Step>)
    requires Legal(cfg, steps) && Run(cfg, steps).Some?
    ensures Run(cfg, steps).value.sh.handed == GivenEvents(cfg, steps)
  {
    if steps != [] {
      var before, last := steps[..|steps| - 1], steps[|steps| - 1];
      RunHandsOver(cfg, before);
      KeepsHanded(cfg, Run(cfg, before).value, last);
    }
  }

  lemma KeepsHanded(cfg: Config, s: State, step: Step)
    requires WellFormed(cfg, step) && |s.threads| == cfg.numThreads && Next(cfg, s, step).Some?
    ensures Next(cfg, s, step).value.sh.handed
      == s.sh.handed + if step.Pop? && s.sh.queue != [] then [s.sh.queue[0]] else []
  {
  }

  // ---- what an item says of itself ------------------------------------------------------

  predicate Reaches(step: Step, t: nat, k: Key) {
    step.Recv? && step.tid == t && step.p.key == k
  }

  /** The datagrams of a key that reach a thread in steps i to n. */
  function Reached(steps: seq<Step>, i: nat, n: nat, t: nat, k: Key): nat
    requires n <= |steps|
    decreases n
  {
    if n <= i then 0 else Reached(steps, i, n - 1, t, k) + if Reaches(steps[n - 1], t, k) then 1 else 0
  }

  /** The item was started by the datagram of step i, with its time, its total length and
      its buffer, and has been given every datagram of its key since. */
  predicate StartedAt(steps: seq<Step>, t: nat, k: Key, it: Item, i: nat) {
    && i < |steps| && Reaches(steps[i], t, k)
    && it.firstSegment == steps[i].now && it.bytes == steps[i].p.length && it.buffer == steps[i].a.id
    && it.numFragments == Reached(steps, i, |steps|, t, k)
    && forall j :: i < j < |steps| && Reaches(steps[j], t, k) ==> steps[j].p.offset != 0
  }

  ghost predicate Started(steps: seq<Step>, t: nat, k: Key, it: Item) {
    exists i: nat :: StartedAt(steps, t, k, it, i)
  }

  ghost predicate EntriesStarted(steps: seq<Step>, s: State) {
    forall t, k :: 0 <= t < |s.threads| && k in s.threads[t].inProgress ==>
      Started(steps, t, k, s.threads[t].inProgress[k])
  }

  lemma {:induction false} ReachedOfFewer(steps: seq<Step>, i: nat, n: nat, t: nat, k: Key)
    requires steps != [] && n < |steps|
    ensures Reached(steps[..|steps| - 1], i, n, t, k) == Reached(steps, i, n, t, k)
    decreases n
  {
    if n > i { ReachedOfFewer(steps, i, n - 1, t, k); }
  }

  /** One more step of a run: the item is what it was, or has one datagram more. */
  lemma StaysStarted(steps: seq<Step>, t: nat, k: Key, was: Item, it: Item)
    requires steps != [] && Started(steps[..|steps| - 1], t, k, was)
    requires it.firstSegment == was.firstSegment && it.bytes == was.bytes && it.buffer == was.buffer
    requires var mine := Reaches(steps[|steps| - 1], t, k);
      it.numFragments == was.numFragments + (if mine then 1 else 0) && (mine ==> steps[|steps| - 1].p.offset != 0)
    ensures Started(steps, t, k, it)
  {
    var before := steps[..|steps| - 1];
    var i: nat :| StartedAt(before, t, k, was, i);
    ReachedOfFewer(steps, i, |before|, t, k);
    forall j | i < j < |steps| && Reaches(steps[j], t, k) ensures steps[j].p.offset != 0 {
      if j < |before| { assert before[j] == steps[j]; }
    }
    assert StartedAt(steps, t, k, it, i);
  }

  lemma StartsNow(steps: seq<Step>, it: Item)
    requires steps != [] && steps[|steps| - 1].Recv?
    requires var last := steps[|steps| - 1];
      it.firstSegment == last.now && it.bytes == last.p.length && it.buffer == last.a.id && it.numFragments == 1
    ensures Started(steps, steps[|steps| - 1].tid, steps[|steps| - 1].p.key, it)
  {
    var n, last := |steps| - 1, steps[|steps| - 1];
    assert Reached(steps, n, n, last.tid, last.p.key) == 0;
    assert StartedAt(steps, last.tid, last.p.key, it, n);
  }

  /** The item that a datagram has been placed in. */
  lemma ReceivedIsStarted(cfg: Config, steps: seq<Step>, s: State)
    requires steps != [] && WellFormed(cfg, steps[|steps| - 1]) && |s.threads| == cfg.numThreads
    requires EntriesStarted(steps[..|steps| - 1], s) && steps[|steps| - 1].Recv?
    requires var last := steps[|steps| - 1]; InBounds(s.threads[last.tid], last.p, last.a, last.now)
    ensures var last := steps[|steps| - 1];
      Started(steps, last.tid, last.p.key, Place(Target(s.threads[last.tid], last.p, last.a, last.now), last.p))
  {
    var last := steps[|steps| - 1];
    var th, p := s.threads[last.tid], last.p;
    var it := Place(Target(th, p, last.a, last.now), p);
    if Attaches(th, p) {
      StaysStarted(steps, last.tid, p.key, th.inProgress[p.key], it);
    } else {
      StartsNow(steps, it);
    }
  }

  lemma EntryAfter(cfg: Config, s: State, step: Step, t: nat, k: Key)
    requires WellFormed(cfg, step) && |s.threads| == cfg.numThreads && Next(cfg, s, step).Some? && KeysMatch(s)
    requires t < |s.threads| && k in Next(cfg, s, step).value.threads[t].inProgress
    ensures var it := Next(cfg, s, step).value.threads[t].inProgress[k];
      if Reaches(step, t, k) then it == Place(Target(s.threads[t], step.p, step.a, step.now), step.p)
      else k in s.threads[t].inProgress && it == s.threads[t].inProgress[k]
  {
  }

  lemma StepStarts(cfg: Config, steps: seq<Step>, s: State)
    requires steps != [] && WellFormed(cfg, steps[|steps| - 1]) && |s.threads| == cfg.numThreads && KeysMatch(s)
    requires EntriesStarted(steps[..|steps| - 1], s) && Next(cfg, s, steps[|steps| - 1]).Some?
    ensures EntriesStarted(steps, Next(cfg, s, steps[|steps| - 1]).value)
  {
    var last := steps[|steps| - 1];
    var s' := Next(cfg, s, last).value;
    if last.Recv? { ReceivedIsStarted(cfg, steps, s); }
    forall t, k | 0 <= t < |s'.threads| && k in s'.threads[t].inProgress
      ensures Started(steps, t, k, s'.threads[t].inProgress[k])
    {
      EntryAfter(cfg, s, last, t, k);
      if !Reaches(last, t, k) {
        StaysStarted(steps, t, k, s.threads[t].inProgress[k], s.threads[t].inProgress[k]);
      }
    }
  }

  /** WHAT ENTRIES SAY OF THEMSELVES. After any run an entry carries the time, the total
      length and the buffer of the datagram that started it, and the number of datagrams
      of its key that have reached its thread since then. */
  lemma {:induction false} RunStarts(cfg: Config, steps: seq<Step>)
    requires Legal(cfg, steps) && Run(cfg, steps).Some?
    ensures EntriesStarted(steps, Run(cfg, steps).value)
  {
    if steps != [] {
      var before := steps[..|steps| - 1];
      RunStarts(cfg, before);
      RunKeysMatch(cfg, before);
      StepStarts(cfg, steps, Run(cfg, before).value);
    }
  }

  /** THE FRAGMENTS OF A LOSS. What is recorded with a loss is how many datagrams of the
      key have reached the thread since the one that started the item. */
  lemma LossCounts(cfg: Config, steps: seq<Step>, loss: Loss) returns (i: nat)
    requires steps != [] && Legal(cfg, steps) && Run(cfg, steps[..|steps| - 1]).Some?
    requires Loses(cfg, Run(cfg, steps[..|steps| - 1]).value, steps[|steps| - 1]) == Some(loss)
    ensures i < |steps| && Reaches(steps[i], loss.tid, loss.key)
    ensures forall j :: i < j < |steps| && Reaches(steps[j], loss.tid, loss.key) ==> steps[j].p.offset != 0
    ensures loss.numFragments == Reached(steps, i, |steps|, loss.tid, loss.key)
  {
    var before, last := steps[..|steps| - 1], steps[|steps| - 1];
    var s := Run(cfg, before).value;
    RunStarts(cfg, before);
    if last.Recv? {
      ReceivedIsStarted(cfg, steps, s);
      i :| StartedAt(steps, loss.tid, loss.key,
                     Place(Target(s.threads[last.tid], last.p, last.a, last.now), last.p), i);
    } else {
      var it := s.threads[loss.tid].inProgress[loss.key];
      StaysStarted(steps, loss.tid, loss.key, it, it);
      i :| StartedAt(steps, loss.tid, loss.key, it, i);
    }
  }

  // ---- sweeps ------------------------------------------------------------------------

  /** The state after the collector's visits to some entries of a thread, one after
      another. */
  ghost function AfterVisits(cfg: Config, s: State, t: nat, ks: seq<Key>, now: int): (s': State)
    requires t < cfg.numThreads == |s.threads|
    ensures |s'.threads| == cfg.numThreads
  {
    if ks == [] then s
    else Next(cfg, AfterVisits(cfg, s, t, ks[..|ks| - 1], now), Gc(t, ks[|ks| - 1], now)).value
  }

  /** A SWEEP IS ITS VISITS: a step of the machine for each entry, and nothing besides. */
  lemma {:induction false} SweepIsVisits(cfg: Config, s: State, t: nat, ks: seq<Key>, now: int)
    requires t < cfg.numThreads == |s.threads|
    ensures var (th, sh) := Sweep(s.threads[t], s.sh, ks, now, cfg.timeoutMs);
      AfterVisits(cfg, s, t, ks, now) == State(s.threads[t := th], sh)
  {
    if ks != [] { SweepIsVisits(cfg, s, t, ks[..|ks| - 1], now); }
  }
}
