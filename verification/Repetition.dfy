/** When repeated datagrams make a key finish again, and when they make an entry miss
    its total and never finish. */
module Repetition {
  import opened Types
  import opened Segmentation
  import opened Reassembly
  import opened Assembly
  import opened Safety
  import opened Arrivals

  // ---- the steps at which a key finishes ------------------------------------------------

  /** The step fills the entry of the key that it finds. */
  ghost predicate Fills(e: Sent, slot: Option<Entry>, step: Step, k: Key) {
    step.Recv? && step.p.key == k && Full(e, Grown(slot, step.p, step.now, step.a))
  }

  /** Step i of the run finishes the key, at the thread that takes the step. */
  ghost predicate EndsAt(cfg: Config, e: Sent, steps: seq<Step>, i: nat, k: Key)
    requires i < |steps|
  {
    steps[i].Recv? && Fills(e, Slot(cfg, e, steps[..i], steps[i].tid, k), steps[i], k)
  }

  /** The steps at which some key finishes. */
  ghost function Finishing(cfg: Config, sent: Traffic, steps: seq<Step>): (at: seq<nat>) {
    if steps == [] then []
    else
      var n := |steps| - 1;
      Finishing(cfg, sent, steps[..n])
      + if steps[n].Recv? && steps[n].p.key in sent && EndsAt(cfg, sent[steps[n].p.key], steps, n, steps[n].p.key)
        then [n] else []
  }

  ghost predicate ListsEndings(sent: Traffic, steps: seq<Step>, ends: seq<Ending>, at: seq<nat>) {
    && |at| == |ends|
    && (forall a :: 0 <= a < |at| ==>
          at[a] < |steps| && steps[at[a]].Recv? && steps[at[a]].p.key in sent && ends[a].key == steps[at[a]].p.key)
    && forall a, b :: 0 <= a < b < |at| ==> at[a] < at[b]
  }

  lemma {:induction false} FinishingListsEndings(cfg: Config, sent: Traffic, steps: seq<Step>)
    ensures ListsEndings(sent, steps, Endings(cfg, sent, steps), Finishing(cfg, sent, steps))
  {
    if steps != [] {
      var n := |steps| - 1;
      FinishingListsEndings(cfg, sent, steps[..n]);
      assert forall i: nat :: i < n ==> steps[..n][i] == steps[i];
    }
  }

  lemma {:induction false} FinishingIff(cfg: Config, sent: Traffic, steps: seq<Step>, i: nat)
    requires i < |steps|
    ensures i in Finishing(cfg, sent, steps)
      <==> steps[i].Recv? && steps[i].p.key in sent && EndsAt(cfg, sent[steps[i].p.key], steps, i, steps[i].p.key)
  {
    var n := |steps| - 1;
    if i < n {
      FinishingIff(cfg, sent, steps[..n], i);
      assert steps[..n][..i] == steps[..i];
    } else {
      FinishingListsEndings(cfg, sent, steps[..n]);
    }
  }

  /** WHAT FINISHES IN A RUN, and when: the finished events are, in order, those of the
      steps that fill the entry they find. */
  lemma RunFinishesAt(cfg: Config, sent: Traffic, steps: seq<Step>) returns (at: seq<nat>)
    requires Legal(cfg, steps) && Honest(sent, steps) && AllSendable(sent)
    ensures Run(cfg, steps).Some?
    ensures var fin := Run(cfg, steps).value.sh.finished;
      && |at| == |fin| && (forall a, b :: 0 <= a < b < |at| ==> at[a] < at[b])
      && forall a :: 0 <= a < |at| ==>
        at[a] < |steps| && steps[at[a]].Recv? && steps[at[a]].p.key == fin[a].item.key
    ensures forall i :: 0 <= i < |steps| ==>
      (i in at <==> steps[i].Recv? && EndsAt(cfg, sent[steps[i].p.key], steps, i, steps[i].p.key))
  {
    at := Finishing(cfg, sent, steps);
    RunIsDetermined(cfg, sent, steps);
    FinishingListsEndings(cfg, sent, steps);
    var fin, ends := Run(cfg, steps).value.sh.finished, Endings(cfg, sent, steps);
    forall a | 0 <= a < |at| ensures steps[at[a]].p.key == fin[a].item.key {
      assert IsEnding(sent, fin[a], ends[a]);
    }
    forall i | 0 <= i < |steps|
      ensures i in at <==> steps[i].Recv? && EndsAt(cfg, sent[steps[i].p.key], steps, i, steps[i].p.key)
    {
      FinishingIff(cfg, sent, steps, i);
      assert steps[i].Recv? ==> HonestPacket(sent, steps[i].p);
    }
  }

  // ---- one key at one thread, from any point on ----------------------------------------

  /** The entry that some steps leave, when they find one. */
  ghost function Later(cfg: Config, e: Sent, t: nat, k: Key, slot: Option<Entry>, more: seq<Step>): Option<Entry> {
    if more == [] then slot
    else Advance(cfg, e, t, k, Later(cfg, e, t, k, slot, more[..|more| - 1]), more[|more| - 1])
  }

  /** Step j of some steps finishes the key at thread t, when they find this entry. */
  ghost predicate LaterEnds(cfg: Config, e: Sent, t: nat, k: Key, slot: Option<Entry>, more: seq<Step>, j: nat)
    requires j < |more|
  {
    more[j].Recv? && more[j].tid == t && Fills(e, Later(cfg, e, t, k, slot, more[..j]), more[j], k)
  }

  lemma SplitLast<T>(a: seq<T>, b: seq<T>)
    requires b != []
    ensures a + b != [] && (a + b)[..|a + b| - 1] == a + b[..|b| - 1] && (a + b)[|a + b| - 1] == b[|b| - 1]
  {
  }

  lemma {:induction false} SlotContinues(cfg: Config, e: Sent, steps: seq<Step>, more: seq<Step>, t: nat, k: Key)
    ensures Slot(cfg, e, steps + more, t, k) == Later(cfg, e, t, k, Slot(cfg, e, steps, t, k), more)
  {
    if more == [] {
      assert steps + more == steps;
    } else {
      SlotContinues(cfg, e, steps, more[..|more| - 1], t, k);
      SplitLast(steps, more);
    }
  }

  lemma Splits<T>(a: seq<T>, b: seq<T>, j: nat)
    requires j < |b|
    ensures (a + b)[|a| + j] == b[j] && (a + b)[..|a| + j] == a + b[..j]
  {
  }

  /** A run continues from the entry that it has. */
  lemma EndsContinue(cfg: Config, e: Sent, steps: seq<Step>, more: seq<Step>, t: nat, k: Key, j: nat)
    requires j < |more|
    ensures LaterEnds(cfg, e, t, k, Slot(cfg, e, steps, t, k), more, j)
      <==> more[j].Recv? && more[j].tid == t && EndsAt(cfg, e, steps + more, |steps| + j, k)
  {
    Splits(steps, more, j);
    SlotContinues(cfg, e, steps, more[..j], t, k);
  }

  // ---- finishing again -----------------------------------------------------------------

  /** Finishing leaves no entry. */
  lemma FinishingEmpties(cfg: Config, e: Sent, steps: seq<Step>, i: nat, k: Key)
    requires i < |steps| && EndsAt(cfg, e, steps, i, k)
    ensures Slot(cfg, e, steps[..i + 1], steps[i].tid, k) == None
  {
    assert steps[..i + 1][..i] == steps[..i];
  }

  lemma FromTheStart(cfg: Config, e: Sent, more: seq<Step>, t: nat, k: Key)
    ensures Slot(cfg, e, more, t, k) == Later(cfg, e, t, k, None, more)
  {
    assert [] + more == more;
    SlotContinues(cfg, e, [], more, t, k);
  }

  lemma EndsAsAlone(cfg: Config, e: Sent, all: seq<Step>, steps: seq<Step>, more: seq<Step>, t: nat, k: Key, j: nat)
    requires all == steps + more && j < |more| && more[j].Recv? && more[j].tid == t
    requires Slot(cfg, e, steps, t, k) == None
    ensures EndsAt(cfg, e, all, |steps| + j, k) <==> EndsAt(cfg, e, more, j, k)
  {
    EndsContinue(cfg, e, steps, more, t, k, j);
    FromTheStart(cfg, e, more[..j], t, k);
  }

  /** FINISHING AGAIN. While a thread has no entry for a key, what it does with the key
      next is what it would have done with it at the start: the key finishes at
      exactly those later steps at which the later steps alone would finish it. */
  lemma FinishesAgain(cfg: Config, e: Sent, steps: seq<Step>, more: seq<Step>, t: nat, k: Key)
    requires Slot(cfg, e, steps, t, k) == None
    ensures Slot(cfg, e, steps + more, t, k) == Slot(cfg, e, more, t, k)
    ensures forall j :: 0 <= j < |more| && more[j].Recv? && more[j].tid == t ==>
      (EndsAt(cfg, e, steps + more, |steps| + j, k) <==> EndsAt(cfg, e, more, j, k))
  {
    SlotContinues(cfg, e, steps, more, t, k);
    FromTheStart(cfg, e, more, t, k);
    forall j | 0 <= j < |more| && more[j].Recv? && more[j].tid == t
      ensures EndsAt(cfg, e, steps + more, |steps| + j, k) <==> EndsAt(cfg, e, more, j, k)
    {
      EndsAsAlone(cfg, e, steps + more, steps, more, t, k, j);
    }
  }

  ghost predicate FinishesOnce(fin: seq<Finish>, k: Key) {
    forall a, b :: 0 <= a < b < |fin| ==> !(fin[a].item.key == k && fin[b].item.key == k)
  }

  /** After step i has finished the key, step j finishes it again: where i did, when the
      steps after i alone would finish it at j. */
  ghost predicate EndsAgain(cfg: Config, e: Sent, steps: seq<Step>, i: nat, j: nat, k: Key)
    requires i < j < |steps| && steps[i].Recv?
  {
    && steps[j].Recv?
    && if steps[j].tid == steps[i].tid then EndsAt(cfg, e, steps[i + 1..], j - i - 1, k)
       else EndsAt(cfg, e, steps, j, k)
  }

  lemma SplitsAfter<T>(steps: seq<T>, i: nat, j: nat)
    requires i < j < |steps|
    ensures steps[..i + 1] + steps[i + 1..] == steps && steps[i + 1..][j - i - 1] == steps[j]
  {
  }

  lemma EndsAgainIff(cfg: Config, e: Sent, steps: seq<Step>, i: nat, j: nat, k: Key)
    requires i < j < |steps| && EndsAt(cfg, e, steps, i, k)
    ensures EndsAgain(cfg, e, steps, i, j, k) <==> EndsAt(cfg, e, steps, j, k)
  {
    if steps[j].Recv? && steps[j].tid == steps[i].tid {
      FinishingEmpties(cfg, e, steps, i, k);
      SplitsAfter(steps, i, j);
      EndsAsAlone(cfg, e, steps, steps[..i + 1], steps[i + 1..], steps[i].tid, k, j - i - 1);
    }
  }

  lemma TwoSteps(cfg: Config, sent: Traffic, steps: seq<Step>, k: Key) returns (i: nat, j: nat)
    requires Legal(cfg, steps) && Honest(sent, steps) && AllSendable(sent) && k in sent
    requires Run(cfg, steps).Some? && !FinishesOnce(Run(cfg, steps).value.sh.finished, k)
    ensures i < j < |steps| && EndsAt(cfg, sent[k], steps, i, k) && EndsAt(cfg, sent[k], steps, j, k)
  {
    var at := RunFinishesAt(cfg, sent, steps);
    var fin := Run(cfg, steps).value.sh.finished;
    var a, b :| 0 <= a < b < |fin| && fin[a].item.key == k && fin[b].item.key == k;
    i, j := at[a], at[b];
  }

  lemma TwoFinishes(cfg: Config, sent: Traffic, steps: seq<Step>, k: Key, i: nat, j: nat)
    requires Legal(cfg, steps) && Honest(sent, steps) && AllSendable(sent) && k in sent
    requires i < j < |steps| && EndsAt(cfg, sent[k], steps, i, k) && EndsAt(cfg, sent[k], steps, j, k)
    ensures Run(cfg, steps).Some? && !FinishesOnce(Run(cfg, steps).value.sh.finished, k)
  {
    var at := RunFinishesAt(cfg, sent, steps);
    var a :| 0 <= a < |at| && at[a] == i;
    var b :| 0 <= b < |at| && at[b] == j;
    var fin := Run(cfg, steps).value.sh.finished;
    assert fin[a].item.key == k && fin[b].item.key == k;
  }

  /** WHEN A KEY FINISHES ONCE. However often its datagrams arrive, a key finishes at
      most once if and only if no step that finishes it is followed by one that
      finishes it again. */
  lemma FinishesOnceIff(cfg: Config, sent: Traffic, steps: seq<Step>, k: Key)
    requires Legal(cfg, steps) && Honest(sent, steps) && AllSendable(sent) && k in sent
    ensures Run(cfg, steps).Some?
    ensures FinishesOnce(Run(cfg, steps).value.sh.finished, k)
      <==> forall i, j :: 0 <= i < j < |steps| && EndsAt(cfg, sent[k], steps, i, k) ==>
        !EndsAgain(cfg, sent[k], steps, i, j, k)
  {
    RunIsDetermined(cfg, sent, steps);
    if FinishesOnce(Run(cfg, steps).value.sh.finished, k) {
      forall i, j | 0 <= i < j < |steps| && EndsAt(cfg, sent[k], steps, i, k)
        ensures !EndsAgain(cfg, sent[k], steps, i, j, k)
      {
        EndsAgainIff(cfg, sent[k], steps, i, j, k);
        if EndsAt(cfg, sent[k], steps, j, k) { TwoFinishes(cfg, sent, steps, k, i, j); }
      }
    } else {
      var i, j := TwoSteps(cfg, sent, steps, k);
      EndsAgainIff(cfg, sent[k], steps, i, j, k);
    }
  }

  // ---- reaching the total, or not ------------------------------------------------------

  /** The step neither starts a new entry of the key nor takes the one there is. */
  ghost predicate Leaves(cfg: Config, e: Sent, t: nat, k: Key, slot: Option<Entry>, step: Step) {
    && (Reaches(step, t, k) ==> 0 < step.p.offset < |e.event|)
    && !Expires(step, t, k, slot, cfg.timeoutMs)
  }

  /** The offsets of the datagrams of the key that arrive at the thread. */
  function OffsetsAt(more: seq<Step>, t: nat, k: Key): seq<nat> {
    if more == [] then []
    else
      var last := more[|more| - 1];
      OffsetsAt(more[..|more| - 1], t, k) + if Reaches(last, t, k) then [last.p.offset] else []
  }

  /** The entry with the first n of the offsets added has exactly the total. */
  ghost predicate HitsAt(e: Sent, en: Entry, offsets: seq<nat>, n: nat)
    requires n <= |offsets|
  {
    Full(e, en.(offsets := en.offsets + offsets[..n]))
  }

  /** No beginning of the offsets brings the byte count to exactly the total. */
  ghost predicate MissesTotal(e: Sent, en: Entry, offsets: seq<nat>) {
    forall n: nat :: 0 < n <= |offsets| ==> !HitsAt(e, en, offsets, n)
  }

  lemma MissesSnoc(e: Sent, en: Entry, offsets: seq<nat>, o: nat)
    ensures MissesTotal(e, en, offsets + [o])
      <==> MissesTotal(e, en, offsets) && !Full(e, en.(offsets := en.offsets + offsets + [o]))
  {
    var all := offsets + [o];
    forall n: nat | n <= |offsets| ensures HitsAt(e, en, all, n) == HitsAt(e, en, offsets, n) {
      assert all[..n] == offsets[..n];
    }
    assert all[..|all|] == all && en.offsets + all == en.offsets + offsets + [o];
    assert HitsAt(e, en, all, |all|) == Full(e, en.(offsets := en.offsets + offsets + [o]));
    if MissesTotal(e, en, all) {
      forall n: nat | 0 < n <= |offsets| ensures !HitsAt(e, en, offsets, n) {
        assert !HitsAt(e, en, all, n);
      }
    }
  }

  /** Some of the steps finishes the key. */
  ghost predicate SomeEnds(cfg: Config, e: Sent, t: nat, k: Key, slot: Option<Entry>, more: seq<Step>) {
    exists j :: 0 <= j < |more| && LaterEnds(cfg, e, t, k, slot, more, j)
  }

  lemma SomeEndsSnoc(cfg: Config, e: Sent, t: nat, k: Key, slot: Option<Entry>, more: seq<Step>)
    requires more != []
    ensures var n := |more| - 1;
      SomeEnds(cfg, e, t, k, slot, more)
      <==> SomeEnds(cfg, e, t, k, slot, more[..n]) || LaterEnds(cfg, e, t, k, slot, more, n)
  {
    var n := |more| - 1;
    forall j: nat | j < n
      ensures LaterEnds(cfg, e, t, k, slot, more[..n], j) <==> LaterEnds(cfg, e, t, k, slot, more, j)
    {
      assert more[..n][..j] == more[..j];
    }
  }

  /** Steps that leave an entry in place make its key finish if and only if a datagram
      among them brings the byte count to exactly the total; if none does, all of the
      key's are in the entry, which is still there. */
  lemma {:induction false} AttachingFinishesIff(cfg: Config, e: Sent, t: nat, k: Key, en: Entry, more: seq<Step>)
    requires forall i :: 0 <= i < |more| ==> Leaves(cfg, e, t, k, Some(en), more[i])
    ensures SomeEnds(cfg, e, t, k, Some(en), more) <==> !MissesTotal(e, en, OffsetsAt(more, t, k))
    ensures MissesTotal(e, en, OffsetsAt(more, t, k)) ==>
      Later(cfg, e, t, k, Some(en), more) == Some(en.(offsets := en.offsets + OffsetsAt(more, t, k)))
  {
    if more == [] {
      assert en.offsets + [] == en.offsets;
    } else {
      var before, last := more[..|more| - 1], more[|more| - 1];
      AttachingFinishesIff(cfg, e, t, k, en, before);
      SomeEndsSnoc(cfg, e, t, k, Some(en), more);
      assert Leaves(cfg, e, t, k, Some(en), last);
      if Reaches(last, t, k) {
        MissesSnoc(e, en, OffsetsAt(before, t, k), last.p.offset);
        assert en.offsets + OffsetsAt(more, t, k) == en.offsets + OffsetsAt(before, t, k) + [last.p.offset];
      } else {
        assert OffsetsAt(more, t, k) == OffsetsAt(before, t, k);
      }
    }
  }

  /** The key finishes at the thread in the second part of a run. */
  ghost predicate FinishesIn(cfg: Config, e: Sent, steps: seq<Step>, more: seq<Step>, t: nat, k: Key) {
    exists j :: 0 <= j < |more| && more[j].Recv? && more[j].tid == t && EndsAt(cfg, e, steps + more, |steps| + j, k)
  }

  lemma FinishesInIff(cfg: Config, e: Sent, steps: seq<Step>, more: seq<Step>, t: nat, k: Key)
    ensures FinishesIn(cfg, e, steps, more, t, k) <==> SomeEnds(cfg, e, t, k, Slot(cfg, e, steps, t, k), more)
  {
    forall j: nat | j < |more|
      ensures LaterEnds(cfg, e, t, k, Slot(cfg, e, steps, t, k), more, j)
        <==> more[j].Recv? && more[j].tid == t && EndsAt(cfg, e, steps + more, |steps| + j, k)
    {
      EndsContinue(cfg, e, steps, more, t, k, j);
    }
  }

  /** REACHING THE TOTAL, in a run. As long as offset 0 does not start a new entry and
      the collector does not take this one, and whatever else happens in between, the
      key finishes if and only if one of its datagrams brings the byte count to
      exactly the total. */
  lemma FinishesIffHitsTotal(cfg: Config, e: Sent, steps: seq<Step>, more: seq<Step>, t: nat, k: Key)
    requires Slot(cfg, e, steps, t, k).Some?
    requires forall i :: 0 <= i < |more| ==> Leaves(cfg, e, t, k, Slot(cfg, e, steps, t, k), more[i])
    ensures FinishesIn(cfg, e, steps, more, t, k)
      <==> !MissesTotal(e, Slot(cfg, e, steps, t, k).value, OffsetsAt(more, t, k))
  {
    FinishesInIff(cfg, e, steps, more, t, k);
    AttachingFinishesIff(cfg, e, t, k, Slot(cfg, e, steps, t, k).value, more);
  }

  // ---- overshooting --------------------------------------------------------------------

  ghost predicate Overshot(e: Sent, slot: Option<Entry>) {
    slot.Some? && Within(e, slot.value.offsets) && Weight(e, slot.value.offsets) > |e.event|
  }

  lemma StaysOvershot(cfg: Config, e: Sent, t: nat, k: Key, slot: Option<Entry>, step: Step)
    requires Overshot(e, slot) && Leaves(cfg, e, t, k, slot, step)
    ensures Overshot(e, Advance(cfg, e, t, k, slot, step))
    ensures step.Recv? && step.tid == t ==> !Fills(e, slot, step, k)
    ensures Advance(cfg, e, t, k, slot, step).value.started == slot.value.started
  {
    if Reaches(step, t, k) { WeightSnoc(e, slot.value.offsets, step.p.offset); }
  }

  /** An entry past its total stays past it, whatever else attaches to it. */
  lemma {:induction false} OvershootNeverFinishes(cfg: Config, e: Sent, t: nat, k: Key, slot: Option<Entry>,
                                                  more: seq<Step>)
    requires Overshot(e, slot) && forall i :: 0 <= i < |more| ==> Leaves(cfg, e, t, k, slot, more[i])
    ensures Overshot(e, Later(cfg, e, t, k, slot, more)) && !SomeEnds(cfg, e, t, k, slot, more)
    ensures Later(cfg, e, t, k, slot, more).value.started == slot.value.started
  {
    if more != [] {
      var before, last := more[..|more| - 1], more[|more| - 1];
      OvershootNeverFinishes(cfg, e, t, k, slot, before);
      assert Leaves(cfg, e, t, k, slot, last);
      StaysOvershot(cfg, e, t, k, Later(cfg, e, t, k, slot, before), last);
      SomeEndsSnoc(cfg, e, t, k, slot, more);
    }
  }

  /** NEVER FINISHING, in a run. An entry whose count has gone past its total stays past
      it, and its key does not finish there: until offset 0 starts a new entry or the
      collector takes this one. */
  lemma OvershotRunNeverFinishes(cfg: Config, e: Sent, steps: seq<Step>, more: seq<Step>, t: nat, k: Key)
    requires Overshot(e, Slot(cfg, e, steps, t, k))
    requires forall i :: 0 <= i < |more| ==> Leaves(cfg, e, t, k, Slot(cfg, e, steps, t, k), more[i])
    ensures Overshot(e, Slot(cfg, e, steps + more, t, k)) && !FinishesIn(cfg, e, steps, more, t, k)
  {
    SlotContinues(cfg, e, steps, more, t, k);
    FinishesInIff(cfg, e, steps, more, t, k);
    OvershootNeverFinishes(cfg, e, t, k, Slot(cfg, e, steps, t, k), more);
  }
}
