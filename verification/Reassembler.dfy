/** The reassembler's objects: event items with their buffers, receive threads with
    their maps, and the queue and statistics they share. Each method is proved to
    make exactly the step of the state machine in Reassembly. */
module Reassembler {
  import opened Types
  import opened Wire
  import opened Segmentation
  import opened Reassembly

  method Memcpy(dst: array<u8>, off: nat, src: seq<u8>)
    requires off + |src| <= dst.Length
    modifies dst
    ensures dst[..] == Blit(old(dst[..]), off, src)
  {
    for i := 0 to |src|
      invariant forall j :: 0 <= j < dst.Length ==>
        dst[j] == if off <= j < off + i then src[j - off] else old(dst[j])
    {
      dst[off + i] := src[i];
    }
  }

  /** An item with all of its bytes leaves for the queue. */
  function Concluded(th: Thread, sh: Shared, it: Item, pushOk: bool): (Thread, Shared) {
    if it.curBytes == it.bytes then Complete(th, sh, it, pushOk) else (th, sh)
  }

  /** Receiving is attaching, placing and, when all bytes are there, finishing. */
  lemma ReceiveComposes(th: Thread, sh: Shared, p: Packet, now: int, a: Alloc, pushOk: bool, placed: Item,
                        th': Thread)
    requires InBounds(th, p, a, now) && placed == Place(Target(th, p, a, now), p)
    requires p.key in th.inProgress ==> th.inProgress[p.key].key == p.key
    requires th' == th.(inProgress := th.inProgress[p.key := Target(th, p, a, now)][p.key := placed])
    ensures placed.key == p.key
    ensures Reassembly.Receive(th, sh, p, now, a, pushOk)
      == Concluded(th', Install(th, sh, p, a), placed, pushOk)
  {
    var target := Target(th, p, a, now);
    assert th.inProgress[p.key := target][p.key := placed] - {p.key} == th.inProgress - {p.key};
    assert th.inProgress[p.key := target][p.key := placed] == th.inProgress[p.key := placed];
  }

  /** ks are the keys visited so far, each once, and left the others. */
  ghost predicate Visiting(ks: seq<Key>, left: set<Key>, keys: set<Key>) {
    && (forall k :: k in keys <==> k in left || k in ks) && (forall k :: k in ks ==> k !in left)
    && forall i, j :: 0 <= i < j < |ks| ==> ks[i] != ks[j]
  }

  lemma VisitsNext(ks: seq<Key>, left: set<Key>, keys: set<Key>, k: Key)
    requires Visiting(ks, left, keys) && k in left
    ensures Visiting(ks + [k], left - {k}, keys)
  {
  }

  class EventItem {
    const firstSegment: int
    const bytes: nat
    const key: Key
    const event: array<u8>
    var numFragments: nat
    var curBytes: nat
    ghost const buffer: nat
    ghost const queued: bool

    ghost function View(): Item
      reads this`numFragments, this`curBytes, event
    {
      Item(key, bytes, curBytes, numFragments, event[..], buffer, firstSegment)
    }

    /** A new item for the event a header describes, over a new buffer. */
    constructor FromHeader(p: Packet, now: int, ghost id: nat)
      ensures View() == Reassembly.FromHeader(p, Alloc(id, event[..]), now)
      ensures fresh(event) && event.Length == p.length && !queued
    {
      firstSegment, numFragments, bytes, curBytes := now, 0, p.length, 0;
      key, buffer, queued := p.key, id, false;
      event := new u8[p.length];
    }

    /** The copy that goes onto the queue shares the buffer. */
    constructor Copy(o: EventItem)
      ensures View() == o.View() && event == o.event && queued
    {
      firstSegment, numFragments, bytes, curBytes := o.firstSegment, o.numFragments, o.bytes, o.curBytes;
      key, buffer, event, queued := o.key, o.buffer, o.event, true;
    }

    /** Copy a segment into its place and count it. */
    method Place(p: Packet)
      requires p.offset + |p.payload| <= event.Length
      modifies this`numFragments, this`curBytes, event
      ensures View() == Reassembly.Place(old(View()), p)
    {
      Memcpy(event, p.offset, p.payload);
      numFragments := numFragments + 1;
      curBytes := curBytes + |p.payload|;
    }
  }

  /** The queue of finished events, and the statistics. queue holds what the items
      on eventQueue look like, and arrays the buffers that belong to them. */
  class Common {
    var eventQueue: seq<EventItem>
    var lostEventsQueue: seq<Loss>
    var enqueueLoss: nat
    var reassemblyLoss: nat
    var eventSuccess: nat
    ghost var queue: seq<Item>
    ghost var arrays: set<array<u8>>
    ghost var handed: seq<Item>
    ghost var finished: seq<Finish>
    ghost var expired: seq<Item>
    ghost var displaced: seq<Item>
    ghost var buffers: set<nat>
    ghost var losses: seq<Loss>

    ghost predicate Valid()
      reads this`eventQueue, this`queue, this`arrays, eventQueue, arrays
    {
      && |queue| == |eventQueue|
      && forall i :: 0 <= i < |queue| ==>
        eventQueue[i].queued && eventQueue[i].event in arrays && queue[i] == eventQueue[i].View()
    }

    ghost function View(): Shared
      reads this
    {
      Shared(queue, enqueueLoss, reassemblyLoss, eventSuccess, lostEventsQueue,
             handed, finished, expired, displaced, buffers, losses)
    }

    constructor ()
      ensures Valid() && View() == Shared([], 0, 0, 0, [], [], [], [], [], {}, [])
    {
      eventQueue, lostEventsQueue, enqueueLoss, reassemblyLoss, eventSuccess := [], [], 0, 0, 0;
      queue, arrays := [], {};
      handed, finished, expired, displaced, buffers, losses := [], [], [], [], {}, [];
    }

    /** Push a copy of the item; 1 means the push failed. The caller counts a
        success either way, right after the call. */
    method Enqueue(item: EventItem, pushOk: bool) returns (ret: int)
      requires Valid()
      modifies this`eventQueue, this`queue, this`arrays
      ensures Valid() && ret == if pushOk then 0 else 1
      ensures queue == if pushOk then old(queue) + [item.View()] else old(queue)
      ensures arrays == if pushOk then old(arrays) + {item.event} else old(arrays)
    {
      var newItem := new EventItem.Copy(item);
      if pushOk {
        eventQueue := eventQueue + [newItem];
        queue, arrays := queue + [newItem.View()], arrays + {item.event};
        ret := 0;
      } else {
        ret := 1;
      }
    }

    /** Enqueue, and count the success. */
    method Deliver(item: EventItem, pushOk: bool) returns (ret: int)
      requires Valid()
      modifies this`eventQueue, this`queue, this`arrays, this`eventSuccess, this`finished
      ensures Valid() && ret == if pushOk then 0 else 1
      ensures queue == if pushOk then old(queue) + [item.View()] else old(queue)
      ensures arrays == if pushOk then old(arrays) + {item.event} else old(arrays)
      ensures eventSuccess == old(eventSuccess) + 1
      ensures finished == old(finished) + [Reassembly.Finish(item.View(), pushOk)]
    {
      ret := Enqueue(item, pushOk);
      finished := finished + [Reassembly.Finish(item.View(), pushOk)];
      eventSuccess := eventSuccess + 1;
    }

    /** Report a lost event and count it. */
    method ReportLoss(loss: Loss)
      modifies this`lostEventsQueue, this`enqueueLoss, this`reassemblyLoss, this`losses
      ensures View() == old(View()).(
        lostQueue := old(lostEventsQueue) + [loss], losses := old(losses) + [loss],
        enqueueLoss := old(enqueueLoss) + (if loss.enqueue then 1 else 0),
        reassemblyLoss := old(reassemblyLoss) + (if loss.enqueue then 0 else 1))
    {
      lostEventsQueue := lostEventsQueue + [loss];
      losses := losses + [loss];
      if loss.enqueue {
        enqueueLoss := enqueueLoss + 1;
      } else {
        reassemblyLoss := reassemblyLoss + 1;
      }
    }

    /** getEvent: the oldest finished event, if there is one. */
    method Dequeue() returns (item: EventItem?)
      requires Valid()
      modifies this`eventQueue, this`queue, this`handed
      ensures Valid() && View() == Reassembly.Dequeue(old(View()))
      ensures item == null <==> old(queue) == []
      ensures item != null ==> item.View() == old(queue)[0]
    {
      if eventQueue == [] { return null; }
      item := eventQueue[0];
      handed := handed + [item.View()];
      eventQueue, queue := eventQueue[1..], queue[1..];
    }

    method GetLostEvent() returns (loss: Option<Loss>)
      modifies this`lostEventsQueue
      ensures View() == DequeueLost(old(View()))
      ensures loss == if old(lostEventsQueue) == [] then None else Some(old(lostEventsQueue)[0])
    {
      if lostEventsQueue == [] { return None; }
      loss := Some(lostEventsQueue[0]);
      lostEventsQueue := lostEventsQueue[1..];
    }
  }

  /** One receive thread. entries holds what the items in progress look like, and
      owner tells which entry a buffer belongs to. */
  class RecvThread {
    const id: nat
    const reas: Common
    var eventsInProgress: map<Key, EventItem>
    var lostEvents: set<Key>
    ghost var entries: map<Key, Item>
    ghost var owner: map<array<u8>, Key>

    ghost predicate Tracks()
      reads this`eventsInProgress, this`entries, this`owner, eventsInProgress.Values, owner.Keys
    {
      && entries.Keys == eventsInProgress.Keys
      && forall k :: k in eventsInProgress ==>
        var item := eventsInProgress[k];
        && item.key == k && !item.queued
        && item.event in owner && owner[item.event] == k
        && entries[k] == item.View()
    }

    /** No buffer in assembly belongs to an item on the queue. */
    ghost predicate Apart()
      reads this`owner, reas`arrays
    {
      owner.Keys !! reas.arrays
    }

    ghost predicate Valid()
      reads this`eventsInProgress, this`entries, this`owner, eventsInProgress.Values, owner.Keys
      reads reas`arrays
    {
      Tracks() && Apart()
    }

    ghost function View(): Thread
      reads this`entries, this`lostEvents
    {
      Thread(id, entries, lostEvents)
    }

    constructor (id: nat, reas: Common)
      ensures this.id == id && this.reas == reas
      ensures Valid() && View() == Thread(id, map[], {}) && owner == map[] && eventsInProgress == map[]
    {
      this.id, this.reas := id, reas;
      eventsInProgress, lostEvents, entries, owner := map[], {}, map[], map[];
    }

    /** logLostEvent. */
    method LogLostEvent(item: EventItem, enqueLoss: bool)
      modifies this`lostEvents, reas`lostEventsQueue, reas`enqueueLoss, reas`reassemblyLoss, reas`losses
      ensures old(Valid()) ==> Valid()
      ensures old(reas.Valid()) ==> reas.Valid()
      ensures View() == LogLost(old(View()), old(reas.View()), item.View(), enqueLoss).0
      ensures reas.View() == LogLost(old(View()), old(reas.View()), item.View(), enqueLoss).1
    {
      if item.key in lostEvents { return; }
      lostEvents := lostEvents + {item.key};
      reas.ReportLoss(Loss(id, item.key, item.numFragments, enqueLoss));
    }

    /** Start a new item, over whatever entry the key has. */
    method Start(p: Packet, now: int, ghost id: nat) returns (item: EventItem, ghost a: Alloc)
      requires Valid() && reas.Valid()
      modifies this`eventsInProgress, this`entries, this`owner
      ensures Valid() && reas.Valid() && p.key in eventsInProgress && eventsInProgress[p.key] == item
      ensures a.id == id && |a.contents| == p.length && fresh(item) && fresh(item.event)
      ensures item.View() == FromHeader(p, a, now)
      ensures entries == old(entries)[p.key := item.View()]
      ensures owner == old(owner)[item.event := p.key] && eventsInProgress == old(eventsInProgress)[p.key := item]
    {
      item := new EventItem.FromHeader(p, now, id);
      a := Alloc(id, item.event[..]);
      eventsInProgress := eventsInProgress[p.key := item];
      entries, owner := entries[p.key := item.View()], owner[item.event := p.key];
    }

    /** History: a buffer was allocated, and an entry is about to be displaced. */
    ghost method NoteStart(k: Key, id: nat)
      requires Valid() && reas.Valid()
      modifies reas`buffers, reas`displaced
      ensures Valid() && reas.Valid()
      ensures reas.buffers == old(reas.buffers) + {id}
      ensures reas.displaced == old(reas.displaced) + if k in entries then [entries[k]] else []
    {
      reas.buffers := reas.buffers + {id};
      reas.displaced := reas.displaced + if k in entries then [entries[k]] else [];
    }

    /** Find the item a datagram goes to, or start one. */
    method Attach(p: Packet, now: int, ghost id: nat) returns (item: EventItem, ghost a: Alloc)
      requires Valid() && reas.Valid()
      modifies this`eventsInProgress, this`entries, this`owner, reas`buffers, reas`displaced
      ensures Valid() && reas.Valid() && p.key in eventsInProgress && eventsInProgress[p.key] == item
      ensures a.id == id && |a.contents| == p.length
      ensures item.View() == Target(old(View()), p, a, now)
      ensures (fresh(item) && fresh(item.event))
        || (old(p.key in eventsInProgress) && item == old(eventsInProgress[p.key]))
      ensures eventsInProgress == old(eventsInProgress)[p.key := item]
      ensures entries == old(entries)[p.key := item.View()]
      ensures reas.View() == Install(old(View()), old(reas.View()), p, a)
      ensures forall b :: b in owner.Keys ==> b in old(owner.Keys) || fresh(b)
    {
      if p.offset != 0 && p.key in eventsInProgress {
        item := eventsInProgress[p.key];
        a := Alloc(id, seq(p.length, _ => 0));
        assert entries == entries[p.key := item.View()];
      } else {
        NoteStart(p.key, id);
        item, a := Start(p, now, id);
      }
    }

    /** Copy the segment into the item and keep the books. */
    method Store(item: EventItem, p: Packet)
      requires Valid() && reas.Valid() && p.key in eventsInProgress && eventsInProgress[p.key] == item
      requires p.offset + |p.payload| <= item.event.Length
      modifies this`entries, item`numFragments, item`curBytes, item.event
      ensures Valid() && reas.Valid() && item.View() == Place(old(item.View()), p)
      ensures entries == old(entries)[p.key := item.View()]
    {
      item.Place(p);
      entries := entries[p.key := item.View()];
    }

    /** Take an item, and its buffer, out of the map. */
    method Detach(item: EventItem)
      requires Valid() && reas.Valid() && item.key in eventsInProgress && eventsInProgress[item.key] == item
      modifies this`eventsInProgress, this`entries, this`owner
      ensures Valid() && reas.Valid() && entries == old(entries) - {item.key} && owner == old(owner) - {item.event}
      ensures eventsInProgress == old(eventsInProgress) - {item.key}
    {
      eventsInProgress := eventsInProgress - {item.key};
      entries, owner := entries - {item.key}, owner - {item.event};
    }

    /** Hand a detached item to the queue. */
    method Deliver(item: EventItem, pushOk: bool) returns (ret: int)
      requires Valid() && reas.Valid() && item.event !in owner
      modifies reas`eventQueue, reas`queue, reas`arrays, reas`eventSuccess, reas`finished
      ensures reas.arrays <= old(reas.arrays) + {item.event}
      ensures Valid() && reas.Valid() && ret == if pushOk then 0 else 1
      ensures item.View() == old(item.View())
      ensures reas.View() == old(reas.View()).(
        queue := if pushOk then old(reas.queue) + [item.View()] else old(reas.queue),
        eventSuccess := old(reas.eventSuccess) + 1,
        finished := old(reas.finished) + [Reassembly.Finish(item.View(), pushOk)])
    {
      ret := reas.Deliver(item, pushOk);
    }

    /** Take a finished item out of the map and hand it to the queue. */
    method Finish(item: EventItem, pushOk: bool)
      requires Valid() && reas.Valid() && item.key in eventsInProgress && eventsInProgress[item.key] == item
      modifies this, reas`eventQueue, reas`queue, reas`arrays, reas`eventSuccess, reas`finished
      modifies reas`lostEventsQueue, reas`enqueueLoss, reas`reassemblyLoss, reas`losses
      ensures Valid() && reas.Valid()
      ensures View() == Complete(old(View()), old(reas.View()), old(item.View()), pushOk).0
      ensures reas.View() == Complete(old(View()), old(reas.View()), old(item.View()), pushOk).1
      ensures reas.arrays <= old(reas.arrays) + {item.event} && owner.Keys <= old(owner.Keys)
      ensures eventsInProgress == old(eventsInProgress) - {item.key}
    {
      Detach(item);
      var ret := Deliver(item, pushOk);
      if ret == 1 {
        LogLostEvent(item, true);
      }
    }

    /** The datagram's bytes are in the item it goes to. */
    method Accept(p: Packet, now: int, ghost id: nat) returns (item: EventItem, ghost a: Alloc)
      requires Valid() && reas.Valid()
      requires p.offset + |p.payload| <= if Attaches(View(), p) then |View().inProgress[p.key].event| else p.length
      modifies this`eventsInProgress, this`entries, this`owner, reas`buffers, reas`displaced
      modifies if p.key in eventsInProgress then {eventsInProgress[p.key], eventsInProgress[p.key].event} else {}
      ensures Valid() && reas.Valid() && a.id == id && |a.contents| == p.length && InBounds(old(View()), p, a, now)
      ensures p.key in eventsInProgress && eventsInProgress[p.key] == item && item.event in owner
      ensures item.View() == Reassembly.Place(Target(old(View()), p, a, now), p)
      ensures fresh(item) || (p.key in old(eventsInProgress) && item == old(eventsInProgress[p.key]))
      ensures reas.arrays == old(reas.arrays)
      ensures eventsInProgress == old(eventsInProgress)[p.key := item]
      ensures var th := old(View()); View() == th.(
        inProgress := th.inProgress[p.key := Target(th, p, a, now)][p.key := item.View()])
      ensures reas.View() == Install(old(View()), old(reas.View()), p, a)
      ensures forall b :: b in owner.Keys ==> b in old(owner.Keys) || fresh(b)
    {
      item, a := Attach(p, now, id);
      Store(item, p);
    }

    /** An item with all of its bytes is finished. */
    method Conclude(item: EventItem, pushOk: bool)
      requires Valid() && reas.Valid() && item.key in eventsInProgress && eventsInProgress[item.key] == item
      modifies this, reas`eventQueue, reas`queue, reas`arrays, reas`eventSuccess, reas`finished
      modifies reas`lostEventsQueue, reas`enqueueLoss, reas`reassemblyLoss, reas`losses
      ensures Valid() && reas.Valid()
      ensures View() == Concluded(old(View()), old(reas.View()), old(item.View()), pushOk).0
      ensures reas.View() == Concluded(old(View()), old(reas.View()), old(item.View()), pushOk).1
      ensures forall b :: b in reas.arrays ==> b in old(reas.arrays) || b == item.event
      ensures forall b :: b in owner.Keys ==> b in old(owner.Keys)
      ensures forall k :: k in eventsInProgress ==>
        k in old(eventsInProgress) && eventsInProgress[k] == old(eventsInProgress[k])
    {
      if item.curBytes == item.bytes {
        Finish(item, pushOk);
      }
    }

    /** The receive loop for one datagram with a valid header. The only buffers that
        come to this thread are new, and the only ones that come to the queue are new
        or were this thread's. */
    method Receive(p: Packet, now: int, pushOk: bool, ghost id: nat) returns (ghost a: Alloc)
      requires Valid() && reas.Valid()
      requires p.offset + |p.payload| <= if Attaches(View(), p) then |View().inProgress[p.key].event| else p.length
      modifies this, reas`eventQueue, reas`queue, reas`arrays, reas`eventSuccess, reas`finished
      modifies reas`lostEventsQueue, reas`enqueueLoss, reas`reassemblyLoss, reas`losses
      modifies reas`buffers, reas`displaced
      modifies if p.key in eventsInProgress then {eventsInProgress[p.key], eventsInProgress[p.key].event} else {}
      ensures Valid() && reas.Valid() && a.id == id && |a.contents| == p.length && InBounds(old(View()), p, a, now)
      ensures View() == Reassembly.Receive(old(View()), old(reas.View()), p, now, a, pushOk).0
      ensures reas.View() == Reassembly.Receive(old(View()), old(reas.View()), p, now, a, pushOk).1
      ensures forall b :: b in owner.Keys ==> b in old(owner.Keys) || fresh(b)
      ensures forall b :: b in reas.arrays ==> b in old(reas.arrays) || b in old(owner.Keys) || fresh(b)
      ensures forall k :: k in eventsInProgress ==>
        fresh(eventsInProgress[k]) || (k in old(eventsInProgress) && eventsInProgress[k] == old(eventsInProgress[k]))
    {
      var item;
      item, a := Accept(p, now, id);
      ReceiveComposes(old(View()), old(reas.View()), p, now, a, pushOk, item.View(), View());
      assert item.event in old(owner.Keys) || fresh(item.event);
      Conclude(item, pushOk);
    }

    /** Find the RE header of a frame, behind the LB header if there is one, and
        validate it. The frame is read as a packet exactly when it is that packet's
        header and payload, and refused exactly when it is no packet's. */
    method ReadHeader(withLBHeader: bool, frame: seq<u8>) returns (read: Received)
      requires |frame| >= Skip(withLBHeader) + RE_LEN
      ensures read == Parse(withLBHeader, frame) && !read.Undersized?
      ensures forall p :: read == Good(p) <==> frame[Skip(withLBHeader)..] == REBytes(HeaderOf(p)) + p.payload
      ensures read.BadHeader? <==> forall p :: frame[Skip(withLBHeader)..] != REBytes(HeaderOf(p)) + p.payload
    {
      forall p ensures Parse(withLBHeader, frame) == Good(p)
        <==> frame[Skip(withLBHeader)..] == REBytes(HeaderOf(p)) + p.payload
      {
        ParseIffWritten(withLBHeader, frame, p);
      }
      var skip := if withLBHeader then LB_LEN else 0;
      if !REValid(frame[skip..]) { return BadHeader; }
      var f := REParse(frame[skip..]);
      return Good(Packet(Key(f.eventNum, f.dataId), f.bufferOffset, f.bufferLength, frame[skip + RE_LEN..]));
    }

    /** The garbage collector at one entry of this thread's map. */
    method Collect(k: Key, now: int, timeoutMs: int)
      requires Valid() && reas.Valid()
      modifies this, reas
      ensures Valid() && reas.Valid()
      ensures View() == Reassembly.Collect(old(View()), old(reas.View()), k, now, timeoutMs).0
      ensures reas.View() == Reassembly.Collect(old(View()), old(reas.View()), k, now, timeoutMs).1
      ensures reas.arrays == old(reas.arrays) && owner.Keys <= old(owner.Keys)
      ensures eventsInProgress == old(eventsInProgress) || eventsInProgress == old(eventsInProgress) - {k}
    {
      if k in eventsInProgress && WaitedMs(now - eventsInProgress[k].firstSegment) > timeoutMs {
        var item := eventsInProgress[k];
        reas.expired := reas.expired + [item.View()];
        LogLostEvent(item, false);
        Detach(item);
      }
    }

    /** The garbage collector's pass over this thread's map, in some order. */
    method Sweep(now: int, timeoutMs: int) returns (ks: seq<Key>)
      requires Valid() && reas.Valid()
      modifies this, reas
      ensures Valid() && reas.Valid() && forall k :: k in ks <==> k in old(View()).inProgress
      ensures forall i, j :: 0 <= i < j < |ks| ==> ks[i] != ks[j]
      ensures View() == Reassembly.Sweep(old(View()), old(reas.View()), ks, now, timeoutMs).0
      ensures reas.View() == Reassembly.Sweep(old(View()), old(reas.View()), ks, now, timeoutMs).1
    {
      var left := eventsInProgress.Keys;
      ks := [];
      while left != {}
        invariant Valid() && reas.Valid()
        invariant Visiting(ks, left, old(View()).inProgress.Keys)
        invariant View() == Reassembly.Sweep(old(View()), old(reas.View()), ks, now, timeoutMs).0
        invariant reas.View() == Reassembly.Sweep(old(View()), old(reas.View()), ks, now, timeoutMs).1
        decreases left
      {
        var k :| k in left;
        SweepSnoc(old(View()), old(reas.View()), ks, k, now, timeoutMs);
        Collect(k, now, timeoutMs);
        VisitsNext(ks, left, old(View()).inProgress.Keys, k);
        ks, left := ks + [k], left - {k};
      }
    }
  }
}
