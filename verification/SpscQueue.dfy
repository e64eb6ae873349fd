/** bounded_threadsafe_queue.h: a ring shared by one producer and one consumer, one atomic action at a time. */
module SpscQueue {
  import opened Bits
  import opened Division

  const WRAP := 0x1_0000_0000_0000_0000

  type Index = n: int | 0 <= n < WRAP

  // ----- indices that wrap ----------------------------------------------------------------------------------------

  lemma {:induction false} Pow2Adds(a: nat, b: nat)
    ensures Pow2(a + b) == Pow2(a) * Pow2(b)
  {
    if a > 0 {
      Pow2Adds(a - 1, b);
      assert Pow2(a + b) == 2 * (Pow2(a - 1) * Pow2(b));
    }
  }

  lemma PowerOf4(k: nat)
    requires k == 4
    ensures Pow2(k) == 16
  {
    assert Pow2(k) == 2 * Pow2(k - 1) && Pow2(k - 1) == 2 * Pow2(k - 2) && Pow2(k - 2) == 2 * Pow2(k - 3);
  }

  lemma PowersDivide(k: nat)
    requires k <= 64
    ensures WRAP == Pow2(k) * Pow2(64 - k)
  {
    hide Pow2;
    PowerOf4(4);
    Pow2Adds(4, 4);
    Pow2Adds(8, 8);
    Pow2Adds(16, 16);
    Pow2Adds(32, 32);
    Pow2Adds(k, 64 - k);
  }

  lemma Pow2Next(k: nat)
    ensures Pow2(k + 1) == 2 * Pow2(k)
  {
  }

  lemma PowerFits(k: nat)
    requires k < 64
    ensures Pow2(k) < WRAP
  {
    hide Pow2;
    PowersDivide(k);
    Pow2Next(63 - k);
    Regroup(Pow2(k), 2, Pow2(63 - k));
    Regroup(Pow2(63 - k), 2, Pow2(k));
    AtLeastOneTimes(Pow2(63 - k), 2 * Pow2(k));
  }

  /** Position of the item with running number n. */
  function Slot(n: nat, capacity: nat): (s: nat)
    requires capacity > 0
    ensures s < capacity
  {
    n % capacity
  }

  lemma SlotIs(n: nat, q: nat, r: nat, capacity: nat)
    requires r < capacity && n == q * capacity + r
    ensures Slot(n, capacity) == r
  {
    Divide(n, capacity);
    DivisionIsUnique(q, r, n / capacity, n % capacity, capacity);
  }

  lemma SlotPeriod(n: nat, t: nat, capacity: nat)
    requires capacity > 0
    ensures Slot(n + t * capacity, capacity) == Slot(n, capacity)
  {
    Divide(n, capacity);
    var q := n / capacity;
    assert (q + t) * capacity == q * capacity + t * capacity;
    SlotIs(n + t * capacity, q + t, n % capacity, capacity);
  }

  /** The wrapped index finds the same slot, since the capacity divides 2^64. */
  lemma SlotOfIndex(n: nat, k: nat)
    requires k <= 64
    ensures Slot(n % WRAP, Pow2(k)) == Slot(n, Pow2(k))
  {
    PowersDivide(k);
    var q, r, other := n / WRAP, n % WRAP, Pow2(64 - k);
    assert n == r + q * WRAP;
    assert q * WRAP == (q * other) * Pow2(k) by {
      Reassociate(q, other, Pow2(k));
    }
    SlotPeriod(r, q * other, Pow2(k));
  }

  lemma Reassociate(a: nat, b: nat, c: nat)
    ensures a * (c * b) == (a * b) * c
  {
  }

  /** Items less than a capacity apart never share a slot. */
  lemma SlotsDiffer(a: nat, b: nat, capacity: nat)
    requires a < b < a + capacity
    ensures Slot(a, capacity) != Slot(b, capacity)
  {
    if a % capacity == b % capacity {
      Divide(a, capacity);
      Divide(b, capacity);
      var p, q := a / capacity, b / capacity;
      assert (q - p) * capacity == b - a && (p - q) * capacity == a - b;
      if q > p {
        AtLeastOneTimes(q - p, capacity);
      }
      if p > q {
        AtLeastOneTimes(p - q, capacity);
      }
    }
  }

  /** Unsigned subtraction of indices. */
  function Distance(w: Index, r: Index): Index {
    (w - r) % WRAP
  }

  function Next(i: Index): Index {
    (i + 1) % WRAP
  }

  lemma NextIsCount(n: nat)
    ensures Next(n % WRAP) == (n + 1) % WRAP
  {
  }

  lemma DistanceIsCount(w: nat, r: nat)
    requires r <= w < r + WRAP
    ensures Distance(w % WRAP, r % WRAP) == w - r
  {
  }

  // ----- the queue --------------------------------------------------------------------------------------------------

  /** A slot of the ring: constructed, half constructed, or holding nothing of value. */
  datatype Cell<T> = Vacant | Torn | Item(value: T)

  datatype Holder = Free | ByProducer | ByConsumer

  datatype PushMode = TryPush | WaitPush

  datatype PopMode = TryPop | WaitPop | WaitPopOrStop

  datatype Answer<T> = Running | Returned(ok: bool, values: seq<T>)

  /** Where a push stands. index is the write index it loaded. */
  datatype Producer<T> =
    | Away
    | Loaded(mode: PushMode, value: T, index: Index)
    | WantsLock(value: T, index: Index)
    | HasLock(value: T, index: Index)
    | AboutToSleep(value: T, index: Index)
    | Asleep(value: T, index: Index)
    | HasRoom(value: T, index: Index)
    | Writing(value: T, index: Index)
    | Written(value: T, index: Index)
    | MustNotify
    | Notifying

  /** Where a pop stands. index is the read index it loaded. */
  datatype Consumer<T> =
    | Away
    | Loaded(mode: PopMode, index: Index)
    | WantsLock(mode: PopMode, index: Index)
    | HasLock(mode: PopMode, index: Index)
    | AboutToSleep(mode: PopMode, index: Index)
    | Asleep(mode: PopMode, index: Index)
    | HasItem(index: Index)
    | Moved(value: T, index: Index)
    | MustNotify(value: T)
    | Notifying(value: T)

  class Queue<T> {
    const log: nat
    const capacity: nat
    const data: array<Cell<T>>
    var writeIndex: Index
    var readIndex: Index
    var producerMutex: Holder
    var consumerMutex: Holder
    var producer: Producer<T>
    var consumer: Consumer<T>
    /** Every value whose write index, or read index, was incremented, in that order. */
    ghost var pushed: seq<T>
    ghost var popped: seq<T>
    /** The values successful pops returned to their callers. */
    ghost var delivered: seq<T>

    ghost predicate Shape() {
      log < 64 && capacity == Pow2(log) && data.Length == capacity
    }

    /** Outstanding items fit, indices count modulo 2^64, and what came out is what went in, in order. */
    ghost predicate Counts()
      reads `writeIndex, `readIndex, `pushed, `popped
    {
      && |popped| <= |pushed| <= |popped| + capacity
      && writeIndex == |pushed| % WRAP && readIndex == |popped| % WRAP
      && popped == pushed[..|popped|]
    }

    /** Item j is still to be read. */
    ghost predicate Unread(j: int)
      reads `pushed, `popped, `consumer
    {
      |popped| <= j < |pushed| && (consumer.Moved? ==> j != |popped|)
    }

    ghost predicate Ring()
      requires Shape()
      reads `pushed, `popped, `consumer, data
    {
      forall j :: Unread(j) ==> data[Slot(j, capacity)] == Item(pushed[j])
    }

    ghost predicate Room()
      reads `pushed, `popped
    {
      |pushed| < |popped| + capacity
    }

    ghost predicate ProducerHonest()
      requires Shape()
      reads `writeIndex, `producer, `pushed, `popped, data
    {
      && (!producer.Away? && !producer.MustNotify? && !producer.Notifying? ==> producer.index == writeIndex)
      && (producer.HasRoom? || producer.Writing? || producer.Written? ==> Room())
      && (producer.Written? ==> data[Slot(|pushed|, capacity)] == Item(producer.value))
    }

    ghost predicate ConsumerHonest()
      reads `readIndex, `consumer, `pushed, `popped
    {
      && (!consumer.Away? && !consumer.MustNotify? && !consumer.Notifying? ==> consumer.index == readIndex)
      && (consumer.HasItem? || consumer.Moved? ==> |popped| < |pushed|)
      && (consumer.Moved? ==> consumer.value == pushed[|popped|])
    }

    ghost predicate Locks()
      reads `producerMutex, `consumerMutex, `producer, `consumer
    {
      && (producerMutex == ByProducer <==> producer.HasLock? || producer.AboutToSleep?)
      && (producerMutex == ByConsumer <==> consumer.Notifying?)
      && (consumerMutex == ByConsumer <==> consumer.HasLock? || consumer.AboutToSleep?)
      && (consumerMutex == ByProducer <==> producer.Notifying?)
    }

    /** Whoever sleeps, or is about to, while it could go on has a locked notify still to come. */
    ghost predicate NoLostWakeup()
      reads `producer, `consumer, `pushed, `popped
    {
      && (producer.Asleep? && Room() ==> consumer.MustNotify? || consumer.Notifying?)
      && (producer.AboutToSleep? && Room() ==> consumer.MustNotify?)
      && (consumer.Asleep? && |popped| < |pushed| ==> producer.MustNotify? || producer.Notifying?)
      && (consumer.AboutToSleep? && |popped| < |pushed| ==> producer.MustNotify?)
    }

    /** The push under way has published its value. */
    predicate Published()
      reads `producer
    {
      producer.MustNotify? || producer.Notifying?
    }

    /** The value of a push under way, until it is published. */
    function InHand(): seq<T>
      reads `producer
    {
      if producer.Away? || Published() then [] else [producer.value]
    }

    /** A popped value on its way to the caller. */
    ghost function OnTheWay(): seq<T>
      reads `consumer
    {
      if consumer.MustNotify? || consumer.Notifying? then [consumer.value] else []
    }

    ghost predicate Delivery()
      reads `popped, `delivered, `consumer
    {
      popped == delivered + OnTheWay()
    }

    ghost predicate Valid()
      reads this, data
    {
      Delivery() && Shape() && Counts() && Ring() && ProducerHonest() && ConsumerHonest() && Locks() && NoLostWakeup()
    }

    constructor (log: nat)
      requires log < 64
      ensures Valid() && this.log == log && pushed == [] && popped == [] && delivered == [] && fresh(data)
      ensures producer.Away? && consumer.Away?
    {
      this.log, capacity := log, Pow2(log);
      data := new Cell<T>[Pow2(log)](_ => Vacant);
      writeIndex, readIndex, producerMutex, consumerMutex := 0, 0, Free, Free;
      producer, consumer := Producer.Away, Consumer.Away;
      pushed, popped, delivered := [], [], [];
    }

    /** A push starts when no other runs. */
    method BeginPush(mode: PushMode, value: T)
      requires Valid()
      modifies `producer
      ensures Valid()
      ensures producer == if old(producer).Away? then Producer.Loaded(mode, value, writeIndex) else old(producer)
    {
      hide Slot, Pow2;
      if producer.Away? {
        producer := Producer.Loaded(mode, value, writeIndex);
      }
    }

    /** From the loaded index to the permission to write. */
    method PushAdmission() returns (answer: Answer<T>)
      requires Valid()
      modifies `producer, `producerMutex
      ensures Valid()
      ensures answer.Returned? ==> answer == Returned(false, []) && !Room() && producer.Away?
      ensures answer.Running? && !old(producer).Away? && !old(Published()) ==>
                !producer.Away? && !Published() && producer.value == old(producer).value
      ensures old(producer).Away? || old(Published()) ==> answer.Running? && producer == old(producer)
    {
      hide Slot, Pow2;
      answer := Running;
      PowerFits(log);
      DistanceIsCount(|pushed|, |popped|);
      match producer {
        case Loaded(TryPush, v, i) =>
          if Distance(i, readIndex) == capacity {
            producer := Producer.Away;
            return Returned(false, []);
          }
          producer := HasRoom(v, i);
        case Loaded(WaitPush, v, i) =>
          producer := Producer.WantsLock(v, i);
        case WantsLock(v, i) =>
          if producerMutex == Free {
            producerMutex, producer := ByProducer, Producer.HasLock(v, i);
          }
        case HasLock(v, i) =>
          if Distance(i, readIndex) < capacity {
            producerMutex, producer := Free, HasRoom(v, i);
          } else {
            producer := Producer.AboutToSleep(v, i);
          }
        case AboutToSleep(v, i) =>
          producerMutex, producer := Free, Producer.Asleep(v, i);
        case _ =>
      }
    }

    lemma SlotOfWriter()
      requires Shape() && Counts()
      ensures Slot(writeIndex, capacity) == Slot(|pushed|, capacity)
      ensures Room() ==> forall j :: |popped| <= j < |pushed| ==> Slot(j, capacity) != Slot(|pushed|, capacity)
    {
      hide Slot, Pow2;
      SlotOfIndex(|pushed|, log);
      if Room() {
        forall j | |popped| <= j < |pushed| ensures Slot(j, capacity) != Slot(|pushed|, capacity) {
          SlotsDiffer(j, |pushed|, capacity);
        }
      }
    }

    /** Constructs the value in its slot, which no unread item uses. */
    method PushConstruct()
      requires Valid() && (producer.HasRoom? || producer.Writing?)
      modifies `producer, data
      ensures Valid()
      ensures forall j :: Unread(j) ==> data[Slot(j, capacity)] == old(data[Slot(j, capacity)])
      ensures !producer.Away? && !Published() && producer.value == old(producer).value
    {
      hide Slot, Pow2, Locks, Counts;
      SlotOfWriter();
      if producer.HasRoom? {
        data[Slot(producer.index, capacity)] := Torn;
        producer := Producer.Writing(producer.value, producer.index);
      } else {
        data[Slot(producer.index, capacity)] := Item(producer.value);
        producer := Producer.Written(producer.value, producer.index);
      }
      LocksKept();
    }

    twostate lemma LocksKept()
      requires old(Locks()) && unchanged(`producerMutex, `consumerMutex, `consumer)
      requires !old(producer).HasLock? && !old(producer).AboutToSleep? && !old(producer).Notifying?
      requires !producer.HasLock? && !producer.AboutToSleep? && !producer.Notifying?
      ensures Locks()
    {
    }

    /** Publishes the constructed item. */
    method PushPublish()
      requires Valid() && producer.Written?
      modifies `producer, `writeIndex, `pushed
      ensures Valid() && pushed == old(pushed) + [old(producer.value)] && producer.MustNotify?
    {
      hide Slot, Pow2, Next;
      SlotOfWriter();
      NextIsCount(|pushed|);
      pushed := pushed + [producer.value];
      writeIndex := Next(writeIndex);
      producer := Producer.MustNotify;
    }

    /** Wakes a sleeping consumer while holding its mutex. */
    method PushNotify() returns (answer: Answer<T>)
      requires Valid()
      modifies `producer, `consumer, `consumerMutex
      ensures Valid()
      ensures answer.Returned? ==> answer == Returned(true, []) && !consumer.Asleep?
      ensures answer.Returned? == old(producer).Notifying? && (answer.Returned? ==> producer.Away?)
      ensures old(producer).MustNotify? && old(consumerMutex) == Free ==>
                producer.Notifying? && consumer == old(consumer)
      ensures answer.Running? ==> producer == old(producer) || (old(producer).MustNotify? && producer.Notifying?)
      ensures consumer == old(consumer) || (old(consumer).Asleep? && consumer.WantsLock?)
    {
      hide Slot, Pow2;
      answer := Running;
      match producer {
        case MustNotify =>
          if consumerMutex == Free {
            consumerMutex, producer := ByProducer, Producer.Notifying;
          }
        case Notifying =>
          if consumer.Asleep? {
            consumer := Consumer.WantsLock(consumer.mode, consumer.index);
          }
          consumerMutex, producer := Free, Producer.Away;
          return Returned(true, []);
        case _ =>
      }
    }

    method ProducerStep() returns (answer: Answer<T>)
      requires Valid()
      modifies this, data
      ensures Valid()
      ensures popped == old(popped) && delivered == old(delivered)
      ensures pushed == old(pushed) + if old(producer).Written? then [old(producer).value] else []
      ensures answer.Returned? && !answer.ok ==> !Room()
      ensures answer.Returned? ==> producer.Away? && answer.ok == old(Published()) && answer.values == []
      ensures answer.Running? ==> producer.Away? == old(producer).Away?
      ensures old(producer).Written? ==> answer.Running?
      ensures answer.Running? ==> Published() == (old(Published()) || old(producer).Written?)
      ensures answer.Running? ==> InHand() == if old(producer).Written? then [] else old(InHand())
      ensures consumer.Away? == old(consumer).Away?
    {
      hide Valid;
      match producer {
        case HasRoom(_, _) => PushConstruct(); answer := Running;
        case Writing(_, _) => PushConstruct(); answer := Running;
        case Written(_, _) => PushPublish(); answer := Running;
        case MustNotify => answer := PushNotify();
        case Notifying => answer := PushNotify();
        case _ => answer := PushAdmission();
      }
    }

    /** A pop starts when no other runs. */
    method BeginPop(mode: PopMode)
      requires Valid()
      modifies `consumer
      ensures Valid()
      ensures consumer == if old(consumer).Away? then Consumer.Loaded(mode, readIndex) else old(consumer)
    {
      hide Slot, Pow2;
      if consumer.Away? {
        consumer := Consumer.Loaded(mode, readIndex);
      }
    }

    /** Is there an item? stopped says whether the stop token asks to give up. */
    method PopCheck(stopped: bool) returns (answer: Answer<T>)
      requires Valid() && ((consumer.Loaded? && consumer.mode == TryPop) || consumer.HasLock?)
      modifies `consumer, `consumerMutex
      ensures Valid()
      ensures answer.Returned? ==> answer == Returned(false, []) && (|popped| == |pushed| || stopped)
      ensures answer.Returned? == consumer.Away?
    {
      hide Slot, Pow2, Counts, Room, ProducerHonest;
      answer := Running;
      IndicesTell();
      var i := consumer.index;
      if consumer.Loaded? {
        if i == writeIndex {
          consumer := Consumer.Away;
          return Returned(false, []);
        }
        consumer := HasItem(i);
      } else {
        if consumer.mode == WaitPopOrStop && stopped {
          consumerMutex, consumer := Free, Consumer.Away;
          return Returned(false, []);
        }
        if i != writeIndex {
          consumerMutex, consumer := Free, HasItem(i);
        } else {
          consumer := Consumer.AboutToSleep(consumer.mode, i);
        }
      }
    }

    /** Taking the mutex to look, and letting it go to sleep. */
    method PopLocking()
      requires Valid()
      modifies `consumer, `consumerMutex
      ensures Valid() && consumer.Away? == old(consumer).Away?
    {
      hide Slot, Pow2, Counts, Room, ProducerHonest;
      match consumer {
        case Loaded(m, i) =>
          if m != TryPop {
            consumer := Consumer.WantsLock(m, i);
          }
        case WantsLock(m, i) =>
          if consumerMutex == Free {
            consumerMutex, consumer := ByConsumer, Consumer.HasLock(m, i);
          }
        case AboutToSleep(m, i) =>
          consumerMutex, consumer := Free, Consumer.Asleep(m, i);
        case _ =>
      }
    }

    /** Equal indices mean an empty queue, although both wrap. */
    lemma IndicesTell()
      requires Shape() && Counts()
      ensures |popped| <= |pushed| && (readIndex == writeIndex <==> |popped| == |pushed|)
    {
      hide Pow2;
      PowerFits(log);
      DistanceIsCount(|pushed|, |popped|);
      DistanceIsCount(|popped|, |popped|);
    }

    /** Moves the oldest item out of its slot. */
    method PopMove()
      requires Valid() && consumer.HasItem?
      modifies `consumer, data
      ensures Valid() && consumer.Moved?
      ensures forall j :: Unread(j) ==> data[Slot(j, capacity)] == old(data[Slot(j, capacity)])
    {
      hide Slot, Pow2;
      SlotOfIndex(|popped|, log);
      OthersApart();
      var i := consumer.index;
      var taken := data[Slot(i, capacity)].value;
      data[Slot(i, capacity)] := Vacant;
      consumer := Moved(taken, i);
    }

    /** Gives the slot back. */
    method PopPublish()
      requires Valid() && consumer.Moved?
      modifies `consumer, `readIndex, `popped
      ensures Valid() && |old(popped)| < |pushed| && popped == old(popped) + [pushed[|old(popped)|]]
      ensures consumer.MustNotify?
    {
      hide Slot, Pow2, Next;
      NextIsCount(|popped|);
      popped := popped + [consumer.value];
      readIndex := Next(readIndex);
      consumer := Consumer.MustNotify(consumer.value);
    }

    lemma OthersApart()
      requires Shape() && Counts()
      ensures forall j :: |popped| < j < |pushed| ==> Slot(j, capacity) != Slot(|popped|, capacity)
      ensures Room() && |popped| < |pushed| ==> Slot(|pushed|, capacity) != Slot(|popped|, capacity)
    {
      hide Slot, Pow2;
      forall j | |popped| < j < |popped| + capacity ensures Slot(j, capacity) != Slot(|popped|, capacity) {
        SlotsDiffer(|popped|, j, capacity);
      }
    }

    method PopNotify() returns (answer: Answer<T>)
      requires Valid()
      modifies `consumer, `producer, `producerMutex, `delivered
      ensures Valid()
      ensures answer.Returned? ==> answer.ok && |answer.values| == 1 && !producer.Asleep?
      ensures delivered == old(delivered) + if answer.Returned? then answer.values else []
      ensures old(consumer).Notifying? ==> answer.Returned?
      ensures old(consumer).MustNotify? && old(producerMutex) == Free ==>
                consumer.Notifying? && producer == old(producer)
      ensures answer.Returned? == (old(consumer).Notifying? && consumer.Away?)
      ensures answer.Running? ==> consumer.Away? == old(consumer).Away?
      ensures producer == old(producer)
           || (old(producer).Asleep? && producer == Producer.WantsLock(old(producer).value, old(producer).index))
    {
      hide Slot, Pow2;
      answer := Running;
      match consumer {
        case MustNotify(v) =>
          if producerMutex == Free {
            producerMutex, consumer := ByConsumer, Consumer.Notifying(v);
          }
        case Notifying(v) =>
          if producer.Asleep? {
            producer := Producer.WantsLock(producer.value, producer.index);
          }
          producerMutex, consumer := Free, Consumer.Away;
          delivered := delivered + [v];
          return Returned(true, [v]);
        case _ =>
      }
    }

    method ConsumerStep(stopped: bool) returns (answer: Answer<T>)
      requires Valid()
      modifies this, data
      ensures Valid()
      ensures pushed == old(pushed) && old(popped) <= popped
      ensures delivered == old(delivered) + if answer.Returned? then answer.values else []
      ensures answer.Returned? && !answer.ok ==> |popped| == |pushed| || stopped
      ensures answer.Returned? ==>
                consumer.Away? && !old(consumer).Away? && |answer.values| == if answer.ok then 1 else 0
      ensures answer.Running? ==> consumer.Away? == old(consumer).Away?
      ensures producer.Away? == old(producer).Away? && Published() == old(Published())
      ensures InHand() == old(InHand())
    {
      hide Valid;
      match consumer {
        case HasItem(_) => PopMove(); answer := Running;
        case Moved(_, _) => PopPublish(); answer := Running;
        case MustNotify(_) => answer := PopNotify();
        case Notifying(_) => answer := PopNotify();
        case HasLock(_, _) => answer := PopCheck(stopped);
        case Loaded(TryPop, _) => answer := PopCheck(stopped);
        case _ => PopLocking(); answer := Running;
      }
    }

    /** A condition variable may wake a waiter for no reason. */
    method SpuriousWakeup(ofProducer: bool)
      requires Valid()
      modifies `producer, `consumer
      ensures Valid()
      ensures producer.Away? == old(producer).Away? && Published() == old(Published())
      ensures consumer.Away? == old(consumer).Away?
      ensures InHand() == old(InHand())
    {
      hide Slot, Pow2;
      if ofProducer && producer.Asleep? {
        producer := Producer.WantsLock(producer.value, producer.index);
      } else if !ofProducer && consumer.Asleep? {
        consumer := Consumer.WantsLock(consumer.mode, consumer.index);
      }
    }

    /** What every pop so far returned is a prefix of what was pushed, in order, and the rest fits the ring. */
    lemma InOrder()
      requires Valid()
      ensures delivered <= popped <= pushed && |pushed| <= |popped| + capacity
    {
      hide Slot;
    }

    /** A producer asleep although there is room is awake after at most two actions of the consumer. */
    method ProducerIsWoken()
      requires Valid() && producer.Asleep? && Room()
      modifies `consumer, `producer, `producerMutex, `delivered
      ensures Valid() && producer.WantsLock?
    {
      hide Slot, Pow2, Ring, Counts, ProducerHonest, ConsumerHonest, Delivery;
      var answer := PopNotify();
      if answer.Running? {
        answer := PopNotify();
      }
    }

    /** A consumer asleep although there is an item is awake after at most two actions of the producer. */
    method ConsumerIsWoken()
      requires Valid() && consumer.Asleep? && |popped| < |pushed|
      modifies `producer, `consumer, `consumerMutex
      ensures Valid() && consumer.WantsLock?
    {
      hide Slot, Pow2, Ring, Counts, ProducerHonest, ConsumerHonest, Delivery;
      var answer := PushNotify();
      if answer.Running? {
        answer := PushNotify();
      }
    }

    /** Whoever sleeps, or is about to, while it could go on has a locked notify still to come. */
    lemma NoWakeupIsLost()
      requires Valid()
      ensures producer.Asleep? && Room() ==> consumer.Notifying? || (consumer.MustNotify? && producerMutex == Free)
      ensures consumer.Asleep? && |popped| < |pushed| ==>
                producer.Notifying? || (producer.MustNotify? && consumerMutex == Free)
      ensures (producer.AboutToSleep? && Room() ==> consumer.MustNotify?)
           && (consumer.AboutToSleep? && |popped| < |pushed| ==> producer.MustNotify?)
    {
      hide Slot, Pow2, Ring, Counts, ProducerHonest, ConsumerHonest, Delivery;
    }

    /** The two sides never sleep at the same time. */
    lemma NeverBothAsleep()
      requires Valid()
      ensures !(producer.Asleep? && consumer.Asleep?)
    {
      hide Slot;
    }
  }

  datatype Event<T> =
    | Push(pushMode: PushMode, value: T)
    | Pop(popMode: PopMode)
    | Produce
    | Consume(stopped: bool)
    | Wake(ofProducer: bool)

  /** Any interleaving of calls, atomic actions and stray wake-ups: pops return the pushed values, in order. */
  method Run<T>(queue: Queue<T>, schedule: seq<Event<T>>) returns (got: seq<T>)
    requires queue.Valid() && queue.delivered == []
    modifies queue, queue.data
    ensures queue.Valid() && got == queue.delivered
    ensures got <= queue.pushed && |queue.pushed| <= |queue.popped| + queue.capacity
    ensures old(queue.pushed) <= queue.pushed
  {
    hide queue.Valid;
    got := [];
    for i := 0 to |schedule|
      invariant queue.Valid() && got == queue.delivered
      invariant old(queue.pushed) <= queue.pushed
    {
      match schedule[i] {
        case Push(m, v) => queue.BeginPush(m, v);
        case Pop(m) => queue.BeginPop(m);
        case Produce =>
          var pushes := queue.ProducerStep();
        case Consume(stopped) =>
          var pops := queue.ConsumerStep(stopped);
          got := got + if pops.Returned? then pops.values else [];
        case Wake(p) => queue.SpuriousWakeup(p);
      }
    }
    queue.InOrder();
  }
}
