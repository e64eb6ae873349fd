/** The MPSC and MPMC queues of bounded_threadsafe_queue.h: many threads contend for the mutexes around one ring. */
module SharedQueue {
  import opened SpscQueue
  import opened Options

  /** What a thread inside a call wants. A thread outside has no entry. */
  datatype Client<T> =
    | WantsWrite(pushMode: PushMode, value: T)
    | Pushing(value: T)
    | WantsRead(popMode: PopMode)
    | Popping

  ghost function Of<T>(m: map<nat, seq<T>>, t: nat): seq<T> {
    if t in m then m[t] else []
  }

  /** The items that belong to thread t, in order. */
  ghost function Share<T>(items: seq<T>, owners: seq<nat>, t: nat): seq<T>
    requires |items| == |owners|
  {
    if items == [] then []
    else
      var n := |items| - 1;
      Share(items[..n], owners[..n], t) + if owners[n] == t then [items[n]] else []
  }

  lemma ShareSnoc<T>(items: seq<T>, owners: seq<nat>, item: T, owner: nat, t: nat)
    requires |items| == |owners|
    ensures Share(items + [item], owners + [owner], t) == Share(items, owners, t) + if owner == t then [item] else []
  {
    assert (items + [item])[..|items|] == items && (owners + [owner])[..|owners|] == owners;
  }

  /** Every thread's share follows when thread t gets one item more, or nothing. */
  lemma ShareMore<T>(items: seq<T>, owners: seq<nat>, had: map<nat, seq<T>>, t: nat, more: seq<T>)
    requires |items| == |owners| && |more| <= 1 && forall u: nat :: Share(items, owners, u) == Of(had, u)
    ensures var owners' := if more == [] then owners else owners + [t];
            var has := if more == [] then had else had[t := Of(had, t) + more];
            |items + more| == |owners'| && forall u: nat :: Share(items + more, owners', u) == Of(has, u)
  {
    hide Share;
    if more == [] {
      assert items + more == items;
    } else {
      forall u: nat ensures Share(items + more, owners + [t], u) == Of(had[t := Of(had, t) + more], u) {
        assert Share(items, owners, u) == Of(had, u) && more == [more[0]];
        ShareSnoc(items, owners, more[0], t, u);
      }
    }
  }

  /** The published item v of thread t's push that has not returned. */
  ghost function Open<T>(u: nat, t: nat, v: T, published: bool): seq<T> {
    if u == t && published then [v] else []
  }

  /** Every thread's share follows when thread t publishes its item, and when it is told so. */
  lemma ShareAnswered<T>(items: seq<T>, owners: seq<nat>, had: map<nat, seq<T>>, t: nat, v: T, published: bool,
                         publishes: bool,
                         told: bool)
    requires |items| == |owners| && !(published && publishes) && (told ==> published)
    requires forall u: nat :: Share(items, owners, u) == Of(had, u) + Open(u, t, v, published)
    ensures var items' := if publishes then items + [v] else items;
            var owners' := if publishes then owners + [t] else owners;
            var has := if told then had[t := Of(had, t) + [v]] else had;
            forall u: nat :: Share(items', owners', u) == Of(has, u) + Open(u, t, v, (published || publishes) && !told)
  {
    hide Share;
    var items' := if publishes then items + [v] else items;
    var owners' := if publishes then owners + [t] else owners;
    var has := if told then had[t := Of(had, t) + [v]] else had;
    forall u: nat ensures Share(items', owners', u) == Of(has, u) + Open(u, t, v, (published || publishes) && !told) {
      assert Share(items, owners, u) == Of(had, u) + Open(u, t, v, published);
      ShareSnoc(items, owners, v, t, u);
    }
  }

  class SharedQueue<T> {
    const ring: Queue<T>
    /** The MPMC queue has a mutex for its readers too; the MPSC queue relies on there being one. */
    const locksReads: bool
    const soleReader: nat
    var writeMutex: Option<nat>
    /** The thread inside a pop: in the MPMC queue the one that holds the read mutex. */
    var reader: Option<nat>
    var clients: map<nat, Client<T>>
    /** Who pushed each item, and who got each one. */
    ghost var pushers: seq<nat>
    ghost var receivers: seq<nat>
    /** What each thread was told it pushed, and what it was given. */
    ghost var put: map<nat, seq<T>>
    ghost var took: map<nat, seq<T>>

    /** Exactly the holder of the write mutex is inside a push of the ring, and exactly the reader inside a pop. */
    ghost predicate Exclusive()
      reads this, ring
    {
      && (forall t :: t in clients ==> (clients[t].Pushing? <==> writeMutex == Some(t)))
      && (forall t :: t in clients ==> (clients[t].Popping? <==> reader == Some(t)))
      && (writeMutex.Some? ==> writeMutex.value in clients) && (reader.Some? ==> reader.value in clients)
      && (ring.producer.Away? <==> writeMutex.None?) && (ring.consumer.Away? <==> reader.None?)
      && (writeMutex.Some? && !ring.Published() ==> ring.InHand() == [clients[writeMutex.value].value])
      && (!locksReads ==>
            forall t :: t in clients && (clients[t].WantsRead? || clients[t].Popping?) ==> t == soleReader)
    }

    /** An item published by a push that has not returned yet. */
    ghost function Unanswered(t: nat): seq<T>
      requires Exclusive()
      reads this, ring
    {
      if writeMutex == Some(t) && ring.Published() then [clients[t].value] else []
    }

    ghost predicate Accounts()
      requires Exclusive()
      reads this, ring
    {
      && |pushers| == |ring.pushed| && |receivers| == |ring.delivered|
      && (forall t: nat :: Share(ring.pushed, pushers, t) == Of(put, t) + Unanswered(t))
      && (forall t: nat :: Share(ring.delivered, receivers, t) == Of(took, t))
    }

    ghost predicate Valid()
      reads this, ring, ring.data
    {
      ring.Valid() && Exclusive() && Accounts()
    }

    constructor (log: nat, locksReads: bool, soleReader: nat)
      requires log < 64
      ensures Valid() && fresh(ring) && fresh(ring.data) && clients == map[] && put == took == map[]
      ensures this.locksReads == locksReads && this.soleReader == soleReader
    {
      ring := new Queue<T>(log);
      this.locksReads, this.soleReader := locksReads, soleReader;
      writeMutex, reader, clients := None, None, map[];
      pushers, receivers, put, took := [], [], map[], map[];
    }

    /** A thread calls TryEmplace or EmplaceWait. */
    method CallPush(t: nat, mode: PushMode, value: T)
      requires Valid()
      modifies `clients
      ensures Valid()
      ensures clients == if t in old(clients) then old(clients) else old(clients)[t := WantsWrite(mode, value)]
    {
      hide ring.Valid, Share;
      if t !in clients {
        clients := clients[t := WantsWrite(mode, value)];
      }
    }

    /** A thread calls one of the pops; in the MPSC queue only the one reader does. */
    method CallPop(t: nat, mode: PopMode)
      requires Valid()
      modifies `clients
      ensures Valid()
      ensures clients == if t in old(clients) || !(locksReads || t == soleReader) then old(clients)
                         else old(clients)[t := WantsRead(mode)]
    {
      hide ring.Valid, Share;
      if t !in clients && (locksReads || t == soleReader) {
        clients := clients[t := WantsRead(mode)];
      }
    }

    /** The mutex is taken when nobody holds it. */
    method LockWrite(t: nat)
      requires Valid() && t in clients && clients[t].WantsWrite?
      modifies `clients, `writeMutex, ring`producer
      ensures Valid()
    {
      hide ring.Valid, Share;
      if writeMutex == None {
        ring.BeginPush(clients[t].pushMode, clients[t].value);
        clients := clients[t := Pushing(clients[t].value)];
        writeMutex := Some(t);
      }
    }

    /** In the MPSC queue there is no mutex to wait for, and no other reader either. */
    method EnterRead(t: nat)
      requires Valid() && t in clients && clients[t].WantsRead?
      modifies `clients, `reader, ring`consumer
      ensures Valid() && (!locksReads ==> reader == Some(t))
    {
      hide ring.Valid, Share;
      if !locksReads || reader == None {
        assert reader == None;
        ring.BeginPop(clients[t].popMode);
        clients := clients[t := Popping];
        reader := Some(t);
      }
    }

    lemma OpenShare(t: nat)
      requires Valid() && writeMutex == Some(t)
      ensures forall u: nat ::
                Share(ring.pushed, pushers, u) == Of(put, u) + Open(u, t, clients[t].value, ring.Published())
    {
      hide ring.Valid, Share;
      forall u: nat ensures Unanswered(u) == Open(u, t, clients[t].value, ring.Published()) {
      }
    }

    /** The holder of the write mutex does the next thing in the ring; returning, it unlocks. */
    method StepPush(t: nat) returns (answer: Answer<T>)
      requires Valid() && t in clients && clients[t].Pushing?
      modifies `clients, `writeMutex, `pushers, `put, ring, ring.data
      ensures Valid()
      ensures answer.Returned? <==> t !in clients
      ensures put == if answer.Returned? && answer.ok
                     then old(put)[t := Of(old(put), t) + [old(clients)[t].value]] else old(put)
    {
      hide ring.Valid, Share, Of;
      var v := clients[t].value;
      ghost var publishes := ring.producer.Written?;
      ghost var items, owners, had, open := ring.pushed, pushers, put, ring.Published();
      OpenShare(t);
      answer := ring.ProducerStep();
      if publishes {
        assert ring.pushed == items + [v];
        pushers := pushers + [t];
      }
      if answer.Returned? {
        writeMutex := None;
        clients := clients - {t};
        if answer.ok {
          put := put[t := Of(put, t) + [v]];
        }
      }
      ShareAnswered(items, owners, had, t, v, open, publishes, answer.Returned? && answer.ok);
      forall u: nat ensures Unanswered(u) == if u == t && ring.Published() && !answer.Returned? then [v] else [] {
      }
      assert ring.pushed == if publishes then items + [v] else items;
    }

    /** The reader does the next thing in the ring. */
    method StepPop(t: nat, stopped: bool) returns (answer: Answer<T>)
      requires Valid() && t in clients && clients[t].Popping?
      modifies `clients, `reader, `receivers, `took, ring, ring.data
      ensures Valid()
      ensures answer.Returned? <==> t !in clients
      ensures took == if answer.Returned? && answer.ok
                      then old(took)[t := Of(old(took), t) + answer.values] else old(took)
    {
      hide ring.Valid, Share, Of;
      ghost var items, owners, had := ring.delivered, receivers, took;
      answer := ring.ConsumerStep(stopped);
      var more := if answer.Returned? then answer.values else [];
      if answer.Returned? {
        reader := None;
        clients := clients - {t};
      }
      if more != [] {
        receivers := receivers + [t];
        took := took[t := Of(took, t) + more];
      }
      ShareMore(items, owners, had, t, more);
      forall u: nat ensures Unanswered(u) == old(Unanswered(u)) {
      }
    }

    /** A thread runs on: it tries to enter, or does its next action. */
    method Step(t: nat, stopped: bool)
      requires Valid()
      modifies this, ring, ring.data
      ensures Valid()
    {
      hide Valid;
      if t in clients {
        match clients[t] {
          case WantsWrite(_, _) => LockWrite(t);
          case WantsRead(_) => EnterRead(t);
          case Pushing(_) => var pushes := StepPush(t);
          case Popping => var pops := StepPop(t, stopped);
        }
      }
    }

    method SpuriousWakeup(ofProducer: bool)
      requires Valid()
      modifies ring`producer, ring`consumer
      ensures Valid()
    {
      hide ring.Valid, Share;
      ring.SpuriousWakeup(ofProducer);
    }

    /** Two threads are never inside a push, nor inside a pop. */
    lemma OneInside(a: nat, b: nat)
      requires Valid() && a in clients && b in clients
      ensures clients[a].Pushing? && clients[b].Pushing? ==> a == b
      ensures clients[a].Popping? && clients[b].Popping? ==> a == b
    {
    }

    /** What came out went in, in order; each item went to one thread, and what a thread was told it pushed is its share
        but for a published item it is still to hear of. */
    lemma Fair(t: nat)
      requires Valid()
      ensures ring.delivered <= ring.pushed && |ring.pushed| <= |ring.popped| + ring.capacity
      ensures |pushers| == |ring.pushed| && |receivers| == |ring.delivered|
      ensures Of(took, t) == Share(ring.delivered, receivers, t)
      ensures Of(put, t) <= Share(ring.pushed, pushers, t) && |Share(ring.pushed, pushers, t)| <= |Of(put, t)| + 1
    {
      hide ring.Valid;
      ring.InOrder();
    }
  }

  datatype Event<T> =
    | CallPush(thread: nat, pushMode: PushMode, value: T)
    | CallPop(thread: nat, popMode: PopMode)
    | Step(thread: nat, stopped: bool)
    | Wake(ofProducer: bool)

  /** Any interleaving of the calls and actions of any threads. */
  method Run<T>(queue: SharedQueue<T>, schedule: seq<Event<T>>)
    requires queue.Valid()
    modifies queue, queue.ring, queue.ring.data
    ensures queue.Valid()
    ensures forall t: nat :: Of(queue.took, t) == Share(queue.ring.delivered, queue.receivers, t)
    ensures queue.ring.delivered <= queue.ring.pushed
    ensures |queue.ring.pushed| <= |queue.ring.popped| + queue.ring.capacity
  {
    hide queue.Valid, Share;
    for i := 0 to |schedule|
      invariant queue.Valid()
    {
      match schedule[i] {
        case CallPush(t, m, v) => queue.CallPush(t, m, v);
        case CallPop(t, m) => queue.CallPop(t, m);
        case Step(t, stopped) => queue.Step(t, stopped);
        case Wake(p) => queue.SpuriousWakeup(p);
      }
    }
    queue.Fair(0);
    forall t: nat ensures Of(queue.took, t) == Share(queue.ring.delivered, queue.receivers, t) {
      queue.Fair(t);
    }
  }
}
