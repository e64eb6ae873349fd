/** d3d12_device_context.cpp: the direct queue, its fence, and the device working behind them. */
module DeviceContext {
  import opened D3d12
  import opened CommandEncoder
  import opened ZeroBytes

  /** Tickets still to be signalled ascend and follow every completed one. */
  ghost predicate TicketsAscend(queue: seq<Command>, completed: nat, last: nat) {
    && completed <= last
    && (forall i :: 0 <= i < |queue| && queue[i].Signal? ==> completed < queue[i].ticket <= last)
    && (forall i, j :: 0 <= i < j < |queue| && queue[i].Signal? && queue[j].Signal? ==>
               queue[i].ticket < queue[j].ticket)
  }

  /** Every command still queued has a later ticket. */
  ghost predicate Ticketed(queue: seq<Command>, completed: nat, last: nat) {
    if queue == [] then completed == last else queue[|queue| - 1] == Signal(last)
  }

  function BufferOf(size: nat): Description {
    Description(Buffer, size, 1, 1, 1, 0, 1, false, false, false, false, false)
  }

  class Context {
    var fenceValue: U64
    var submittedLists: nat
    var blockingWaits: nat
    var submissionError: bool

    // The device: what it has still to do, the last signalled fence value, and what every resource holds.
    var queue: seq<Command>
    var completed: U64
    var memory: Memory
    var nextId: nat
    const device: Device
    /** The state of every resource once the queue is empty. */
    var states: States
    /** A list was executed without a ticket. */
    ghost var unticketed: bool

    ghost predicate Valid()
      reads this
    {
      && TicketsAscend(queue, completed, fenceValue)
      && (!unticketed ==> Ticketed(queue, completed, fenceValue))
      && fenceValue < MAX_U64
      && Sized(memory) && states.Keys == memory.Keys && Names(queue) <= memory.Keys
      && (forall r :: r in memory ==> r.id < nextId)
    }

    /** What memory holds once the queue is empty. */
    ghost function Settled(): Memory
      reads this`queue, this`memory
    {
      ExecuteAll(memory, queue)
    }

    constructor (device: Device)
      ensures Valid() && queue == [] && !unticketed && fenceValue == completed == 0 && !submissionError
      ensures this.device == device && memory == map[]
    {
      fenceValue, submittedLists, blockingWaits, submissionError := 0, 0, 0, false;
      queue, completed, memory, nextId := [], 0, map[], 0;
      this.device := device;
      states, unticketed := map[], false;
    }

    /** The device does the next thing in its queue. */
    method Step()
      requires Valid() && queue != []
      modifies `queue, `completed, `memory
      ensures Valid() && queue == old(queue)[1..]
      ensures Names(queue) <= old(Names(queue)) && memory.Keys == old(memory.Keys)
      ensures Settled() == old(Settled())
      ensures completed >= old(completed)
    {
      StepSettles(memory, queue);
      StepKeepsTickets(queue, completed, fenceValue, unticketed);
      ExecuteKeepsSizes(memory, [queue[0]]);
      ExecuteSnoc(memory, [], queue[0]);
      NamesAdd([queue[0]], queue[1..]);
      assert queue == [queue[0]] + queue[1..];
      if queue[0].Signal? {
        completed := queue[0].ticket;
      }
      memory := Execute(memory, queue[0]);
      queue := queue[1..];
    }

    /** Nothing happened but that the device took some things from the front of its queue and did them. */
    twostate predicate Progressed()
      reads this`queue, this`memory, this`completed
    {
      && Suffix(queue, old(queue))
      && Names(queue) <= old(Names(queue)) && memory.Keys == old(memory.Keys)
      && Settled() == old(Settled())
      && completed >= old(completed)
    }

    /** A stalled device does not even that. */
    twostate predicate Stands()
      reads this`queue, this`memory, this`completed
    {
      device.stalled ==> unchanged(`queue, `memory, `completed)
    }

    /** Nothing was submitted: the queue can only have become shorter, at its front. */
    twostate predicate SubmitsNothing()
      reads `queue, `submittedLists, `fenceValue, `submissionError, `unticketed
    {
      Suffix(queue, old(queue)) && unchanged(`submittedLists, `fenceValue, `submissionError, `unticketed)
    }

    /** The queue becomes longer only by submissions, and those are counted. */
    twostate predicate Counted()
      reads `queue, `submittedLists
    {
      submittedLists >= old(submittedLists) && (unchanged(`submittedLists) ==> Suffix(queue, old(queue)))
    }

    twostate lemma Unmoved()
      requires unchanged(`queue, `memory, `completed)
      ensures Progressed() && Stands() && Suffix(queue, old(queue))
    {
    }

    /** The device works on while the host is not looking. */
    method Progress()
      requires Valid()
      modifies `queue, `completed, `memory
      ensures Valid() && Progressed() && Stands()
    {
      hide Settled, ExecuteAll, Valid, Names;
      var steps: nat := *;
      while steps > 0 && queue != [] && !device.stalled
        invariant Valid() && Progressed() && Stands()
      {
        Step();
        steps := steps - 1;
      }
    }

    /** Puts the next ticket behind everything queued. A queue that refuses it leaves the error for good. */
    method SignalFence() returns (r: Result<U64>)
      requires Valid()
      modifies `queue, `fenceValue, `submissionError, `unticketed
      ensures Valid()
      ensures r.Value? ==> !old(submissionError) && r.value == fenceValue == old(fenceValue) + 1
      ensures r.Value? ==> queue == old(queue) + [Signal(r.value)] && !unticketed && !submissionError
      ensures r.Error? ==> queue == old(queue) && fenceValue == old(fenceValue) && unticketed == old(unticketed)
      ensures r.Error? ==> (submissionError <==> old(submissionError) || old(fenceValue) < MAX_U64 - 1)
      ensures device.stalled && !old(submissionError) && old(fenceValue) < MAX_U64 - 1 ==> r.Value?
    {
      if submissionError {
        return Error(DeviceError);
      }
      if fenceValue >= MAX_U64 - 1 {
        return Error(Unexpected);
      }
      var value := fenceValue + 1;
      submissionError := device.Refuses();
      if submissionError {
        return Error(DeviceError);
      }
      NamesAdd(queue, [Signal(value)]);
      queue := queue + [Signal(value)];
      fenceValue := value;
      unticketed := false;
      return Value(value);
    }

    /** Executes the list, then signals. A list executed without a ticket is remembered in unticketed. */
    method Submit(list: CommandList) returns (r: Result<U64>)
      requires Valid() && !list.open && Legal(states, list.commands)
      modifies `queue, `fenceValue, `submissionError, `unticketed, `submittedLists, `states
      ensures Valid()
      ensures r.Value? ==> !old(submissionError) && r.value == fenceValue == old(fenceValue) + 1 && !unticketed
      ensures r.Value? ==> queue == old(queue) + list.commands + [Signal(r.value)] && !submissionError
      ensures r.Error? ==> fenceValue == old(fenceValue)
      ensures r.Error? ==> queue == if old(submissionError) then old(queue) else old(queue) + list.commands
      ensures r.Error? ==> unticketed == (!old(submissionError) || old(unticketed))
      ensures r.Error? ==> (submissionError <==> old(submissionError) || old(fenceValue) < MAX_U64 - 1)
      ensures states == if old(submissionError) then old(states) else Decayed(Run(old(states), list.commands))
      ensures submittedLists == old(submittedLists) + if old(submissionError) then 0 else 1
      ensures device.stalled && !old(submissionError) && old(fenceValue) < MAX_U64 - 1 ==> r.Value?
    {
      hide Legal, Run;
      if submissionError {
        return Error(DeviceError);
      }
      RunKeepsKeys(states, list.commands);
      NamesAdd(queue, list.commands);
      LegalListsHaveNoSignals(states, list.commands);
      queue := queue + list.commands;
      states := Decayed(Run(states, list.commands));
      unticketed := true;
      submittedLists := submittedLists + 1;
      r := SignalFence();
    }

    /** What a submission adds, with its ticket or without. */
    twostate lemma Submitted(new cmds: seq<Command>, new ticket: nat)
      requires unchanged(`memory)
      ensures queue == old(queue) + cmds || queue == old(queue) + cmds + [Signal(ticket)] ==>
                Settled() == ExecuteAll(old(Settled()), cmds) && Names(queue) == old(Names(queue)) + Names(cmds)
    {
      hide ExecuteAll, Names;
      SubmittedSettles(memory, old(queue), cmds, ticket);
    }

    method CompletedValue() returns (r: Result<U64>)
      requires Valid()
      modifies `queue, `completed, `memory
      ensures Valid() && Progressed() && Stands()
      ensures r.Value? ==> !submissionError && r.value == completed
      ensures r.Error? ==> r.error == DeviceError && (device.stalled ==> submissionError)
    {
      hide Valid, Progressed;
      Progress();
      if submissionError {
        return Error(DeviceError);
      }
      var refused := device.Refuses();
      if refused {
        return Error(DeviceError);
      }
      return Value(completed);
    }

    /** Success means the ticket's work is done; with the last ticket, and nothing unticketed, all work. */
    method Wait(ticket: nat) returns (e: Status)
      requires Valid()
      modifies `queue, `completed, `memory, `blockingWaits
      ensures Valid() && Progressed() && Stands()
      ensures e.Success? ==> !submissionError && ticket <= completed
      ensures device.stalled ==> (e.Success? <==> !submissionError && ticket <= completed <= fenceValue)
      ensures e.Success? && ticket == fenceValue && !unticketed ==> queue == []
    {
      hide Settled, Names;
      if ticket > fenceValue {
        return Failed(InvalidArg);
      }
      var now :- CompletedValue();
      if now >= ticket {
        return Success;
      }
      var refused := device.RefusesEvents();
      if refused {
        return Failed(DeviceError);
      }
      blockingWaits := blockingWaits + 1;
      refused := device.Refuses();
      if refused {
        return Failed(DeviceError);
      }
      now :- CompletedValue();
      if now < ticket {
        return Failed(Unexpected);
      }
      return Success;
    }

    method WaitForGpu() returns (e: Status)
      requires Valid()
      modifies `queue, `completed, `memory, `blockingWaits, `fenceValue, `submissionError, `unticketed
      ensures Valid() && Settled() == old(Settled())
      ensures e.Success? ==> !old(submissionError) && queue == []
      ensures old(submissionError) ==> submissionError && fenceValue == old(fenceValue)
    {
      hide ExecuteAll;
      var ticket :- SignalFence();
      assert Settled() == old(Settled()) by {
        ExecuteSnoc(memory, old(queue), Signal(ticket));
      }
      e := Wait(ticket);
    }

    /** A buffer nobody else has, all zero. */
    method CreateBuffer(size: nat, heap: Heap, state: State) returns (r: Result<Resource>)
      requires Valid()
      modifies `memory, `states, `nextId
      ensures Valid()
      ensures r.Error? ==> unchanged(this)
      ensures r.Value? ==>
                r.value !in old(memory) && r.value !in Names(queue) && memory == old(memory)[r.value := Zeros(size)]
      ensures r.Value? ==> r.value !in old(states) && states == old(states)[r.value := state]
      ensures r.Value? ==> r.value.heap == heap && r.value.device == device && r.value.description == BufferOf(size)
      ensures r.Value? ==>
                size != 0 && (heap == Upload ==> state == GENERIC_READ) && (heap == Readback ==> state == COPY_DEST)
      ensures device.stalled ==> (r.Value? <==> size != 0 && heap != OtherHeap && (heap == Upload ==>
                  state == GENERIC_READ)
                                                && (heap == Readback ==> state == COPY_DEST))
    {
      hide Zeros;
      if size == 0 || heap == OtherHeap || (heap == Upload && state != GENERIC_READ)
         || (heap == Readback && state != COPY_DEST) {
        return Error(InvalidArg);
      }
      var refused := device.Refuses();
      if refused {
        return Error(OutOfMemory);
      }
      var created := Resource(nextId, BufferOf(size), heap, device);
      nextId := nextId + 1;
      memory := memory[created := Zeros(size)];
      states := states[created := state];
      return Value(created);
    }

    /** A texture nobody else has; its content is not defined yet. */
    method CreateTexture2D(description: Description, state: State) returns (r: Result<Resource>)
      requires Valid()
      modifies `memory, `states, `nextId
      ensures Valid()
      ensures r.Error? ==> unchanged(this)
      ensures r.Value? ==> r.value !in old(memory) && r.value !in Names(queue) && memory == old(memory)[r.value := []]
      ensures r.Value? ==> r.value !in old(states) && states == old(states)[r.value := state]
      ensures r.Value? ==> r.value.heap == Default && r.value.device == device && r.value.description == description
      ensures r.Value? ==> description.dimension == Texture2D
    {
      if description.dimension != Texture2D || description.width == 0 || description.height == 0
          || description.layers == 0
         || description.mips == 0 || description.format == 0 || description.samples == 0 {
        return Error(InvalidArg);
      }
      var refused := device.Refuses();
      if refused {
        return Error(OutOfMemory);
      }
      var created := Resource(nextId, description, Default, device);
      nextId := nextId + 1;
      memory := memory[created := []];
      states := states[created := state];
      return Value(created);
    }

    /** The host fills a mapped buffer the device is not using. */
    method WriteMapped(r: Resource, v: Bytes)
      requires Valid() && r in memory && r !in Names(queue) && r.IsBuffer() && |v| == r.description.width
      modifies `memory
      ensures Valid() && memory == old(memory)[r := v]
      ensures Settled() == old(Settled())[r := v]
    {
      hide ExecuteAll;
      ExecuteAllElsewhere(memory, r, v, queue);
      memory := memory[r := v];
    }
  }

  lemma StepSettles(m: Memory, queue: seq<Command>)
    requires queue != []
    ensures ExecuteAll(Execute(m, queue[0]), queue[1..]) == ExecuteAll(m, queue)
  {
    hide Execute;
    assert queue == [queue[0]] + queue[1..];
    ExecuteAppend(m, [queue[0]], queue[1..]);
    ExecuteSnoc(m, [], queue[0]);
    assert [] + [queue[0]] == [queue[0]];
  }

  lemma StepKeepsTickets(queue: seq<Command>, completed: nat, last: nat, unticketed: bool)
    requires queue != [] && TicketsAscend(queue, completed, last)
    ensures var done := if queue[0].Signal? then queue[0].ticket else completed;
            && TicketsAscend(queue[1..], done, last) && done >= completed
            && (Ticketed(queue, completed, last) ==> Ticketed(queue[1..], done, last))
  {
  }

  lemma {:induction false} LegalListsHaveNoSignals(states: States, cmds: seq<Command>)
    requires Legal(states, cmds)
    ensures forall i :: 0 <= i < |cmds| ==> !cmds[i].Signal?
  {
    hide Run, ValidState, Meets;
    if cmds != [] {
      LegalListsHaveNoSignals(states, cmds[..|cmds| - 1]);
    }
  }

  // ----- the last ticket but one -------------------------------------------------------------------------------------

  /** No ticket is left: the list is executed all the same and no error stays. With every ticket done a wait for the
      newest one then succeeds over unfinished work. */
  method SubmitAtLimit(c: Context, list: CommandList) returns (r: Result<U64>, waited: Status)
    requires c.Valid() && c.fenceValue == MAX_U64 - 1 && !c.submissionError
    requires !list.open && list.commands != [] && Legal(c.states, list.commands)
    modifies c
    ensures c.Valid() && r.Error? && c.unticketed && !c.submissionError && Suffix(c.queue, old(c.queue) + list.commands)
    ensures c.device.stalled && old(c.completed == c.fenceValue) ==>
              waited.Success? && c.completed == c.fenceValue && c.queue == old(c.queue) + list.commands != []
  {
    hide Legal, ExecuteAll, Names;
    r := c.Submit(list);
    waited := c.Wait(c.fenceValue);
  }

  // ----- a refused signal is final -----------------------------------------------------------------------------------

  datatype DeviceCall = SubmitList | AskCompleted | WaitFor(ticket: nat) | WaitForAll

  /** After a refused signal no submission, question or wait ever succeeds, so no old ticket can recycle anything. */
  method AfterRefusal(c: Context, list: CommandList, calls: seq<DeviceCall>) returns (anySucceeded: bool)
    requires c.Valid() && c.submissionError && !list.open && Legal(c.states, list.commands)
    modifies c
    ensures !anySucceeded && c.submissionError && c.submittedLists == old(c.submittedLists)
    ensures c.fenceValue == old(c.fenceValue) && c.states == old(c.states) && c.Settled() == old(c.Settled())
  {
    hide c.Valid, Legal, ExecuteAll;
    anySucceeded := false;
    for i := 0 to |calls|
      invariant c.Valid() && c.submissionError && !anySucceeded
      invariant c.submittedLists == old(c.submittedLists) && c.fenceValue == old(c.fenceValue)
      invariant c.states == old(c.states) && c.Settled() == old(c.Settled())
    {
      match calls[i] {
        case SubmitList =>
          var r := c.Submit(list);
          anySucceeded := anySucceeded || r.Value?;
        case AskCompleted =>
          var r := c.CompletedValue();
          anySucceeded := anySucceeded || r.Value?;
        case WaitFor(ticket) =>
          var e := c.Wait(ticket);
          anySucceeded := anySucceeded || e.Success?;
        case WaitForAll =>
          var e := c.WaitForGpu();
          anySucceeded := anySucceeded || e.Success?;
      }
    }
  }
}
