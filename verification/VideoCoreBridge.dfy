/** d3d12_videocore_bridge.cpp: guest memory requests recorded, batched, submitted and recycled on the direct queue. */
module VideoCoreBridge {
  import opened D3d12
  import opened CommandEncoder
  import opened DeviceContext
  import opened GuestMemory
  import opened ZeroBytes

  const MAX_TRANSFER := 16 * 1024 * 1024
  const MAX_BINDINGS := 16
  const B8G8R8A8_UNORM := 87

  function Elements(s: seq<Resource>): set<Resource> {
    set r | r in s
  }

  // ----- what a recording does to the guest's view -----------------------------------------------------------------

  /** Memory m shows the guest's bytes and every frame handed out. */
  ghost predicate Represents(g: Guest, frames: Memory, bs: seq<Binding>, m: Memory) {
    Mirrors(g, bs, m) && forall f :: f in frames ==> f in m && !f.IsBuffer() && m[f] == frames[f]
  }

  lemma BarrierMovesNothing(m: Memory, cmds: seq<Command>, states: States, r: Resource, s: State)
    requires r in states
    ensures ExecuteAll(m, cmds + BarrierTo(states, r, s)) == ExecuteAll(m, cmds)
  {
    if states[r] == s {
      assert cmds + [] == cmds;
    } else {
      ExecuteSnoc(m, cmds, Barrier(r, states[r], s));
    }
  }

  lemma CopyCommandsCopy(m: Memory, cmds: seq<Command>, states: States, d: Resource, dOffset: nat, s: Resource,
                         sOffset: nat,
                         bytes: nat)
    requires d in states && s in states
    ensures ExecuteAll(m, cmds + CopyCommands(states, d, dOffset, s, sOffset, bytes))
         == Execute(ExecuteAll(m, cmds), CopyRegion(d, dOffset, s, sOffset, bytes))
    ensures Names(cmds + CopyCommands(states, d, dOffset, s, sOffset, bytes)) <= Names(cmds) + {d, s}
  {
    hide Execute, ExecuteAll;
    var c := CopyRegion(d, dOffset, s, sOffset, bytes);
    var first := if s.heap == Upload then [] else BarrierTo(states, s, COPY_SOURCE);
    var second := BarrierTo(states, d, COPY_DEST);
    var all := ((cmds + first) + second) + [c];
    assert cmds + CopyCommands(states, d, dOffset, s, sOffset, bytes) == all;
    ExecuteSnoc(m, (cmds + first) + second, c);
    BarrierMovesNothing(m, cmds + first, states, d, COPY_DEST);
    if s.heap == Upload {
      assert cmds + first == cmds;
    } else {
      BarrierMovesNothing(m, cmds, states, s, COPY_SOURCE);
    }
  }

  /** Bytes n from sOffset of s land in binding i: the guest sees one write. */
  lemma CopyRepresents(g: Guest, frames: Memory, bs: seq<Binding>, m: Memory, i: nat, a: nat, s: Resource, sOffset: nat,
                       v: Bytes)
    requires Represents(g, frames, bs, m) && Separate(bs) && i < |bs| && bs[i].Contains(a, |v|)
    requires s in m && sOffset + |v| <= |m[s]| && v == m[s][sOffset..sOffset + |v|]
    ensures Represents(Write(g, a, v), frames, bs,
                       Execute(m, CopyRegion(bs[i].resource, a - bs[i].base, s, sOffset, |v|)))
  {
    hide Mirrors, Patch;
    assert bs[i].resource in m && |m[bs[i].resource]| == bs[i].size by {
      BoundSizes(g, bs, m, i);
    }
    WriteMirrors(g, bs, m, i, a, v);
  }

  lemma BoundSizes(g: Guest, bs: seq<Binding>, m: Memory, i: nat)
    requires Mirrors(g, bs, m) && i < |bs|
    ensures bs[i].resource in m && |m[bs[i].resource]| == bs[i].size
  {
  }

  /** A resource that is no binding and no frame does not show. */
  lemma OthersDoNotRepresent(g: Guest, frames: Memory, bs: seq<Binding>, m: Memory, r: Resource, v: Bytes)
    requires Represents(g, frames, bs, m) && r !in Resources(bs) && r !in frames
    ensures Represents(g, frames, bs, m[r := v])
  {
    hide Mirrors;
    OthersDoNotShow(g, bs, m, r, v);
  }

  lemma UnseenRepresents(g: Guest, frames: Memory, bs: seq<Binding>, m: Memory, cmds: seq<Command>, r: Resource,
                         v: Bytes)
    requires Represents(g, frames, bs, ExecuteAll(m, cmds)) && Sized(m) && Names(cmds) <= m.Keys && r !in m
    ensures Represents(g, frames, bs, ExecuteAll(m[r := v], cmds))
  {
    hide Mirrors, ExecuteAll;
    ExecuteKeepsSizes(m, cmds);
    BoundKeys(g, bs, ExecuteAll(m, cmds));
    ExecuteAllElsewhere(m, r, v, cmds);
    OthersDoNotRepresent(g, frames, bs, ExecuteAll(m, cmds), r, v);
  }

  /** The guest's bytes end up in a readback buffer; nothing else shows. */
  lemma ReadbackRepresents(g: Guest, frames: Memory, bs: seq<Binding>, m: Memory, i: nat, a: nat, n: nat, r: Resource)
    requires Represents(g, frames, bs, m) && Separate(bs) && i < |bs| && bs[i].Contains(a, n)
    requires r in m && |m[r]| == n && r.heap == Readback && r.IsBuffer()
    ensures var after := Execute(m, CopyRegion(r, 0, bs[i].resource, a - bs[i].base, n));
            Represents(g, frames, bs, after) && r in after && after[r] == Read(g, a, n)
  {
    hide Mirrors, Read;
    BoundSizes(g, bs, m, i);
    ReadMirrors(g, bs, m, i, a, n);
    assert forall b :: b in bs ==> b.resource != r;
    assert Patch(m[r], 0, Read(g, a, n)) == Read(g, a, n);
    OthersDoNotRepresent(g, frames, bs, m, r, Read(g, a, n));
  }

  lemma BarrierNames(cmds: seq<Command>, states: States, r: Resource, s: State)
    requires r in states
    ensures Names(cmds + BarrierTo(states, r, s)) <= Names(cmds) + {r}
  {
  }

  lemma TextureAccepted(states: States, t: Resource, b: Resource, f: Footprint, planes: nat, expected: Footprint)
    requires TextureCopyAccepted(states, t, b, f, planes, expected, true)
    ensures t in states && b in states
  {
  }

  lemma TextureCommandsCopy(m: Memory, cmds: seq<Command>, states: States, t: Resource, b: Resource, f: Footprint)
    requires t in states && b in states && b.heap == Default
    ensures ExecuteAll(m, cmds + TextureCopyCommands(states, t, b, f, true))
                == Execute(ExecuteAll(m, cmds), CopyTexture(t, b, f, true))
    ensures Names(cmds + TextureCopyCommands(states, t, b, f, true)) <= Names(cmds) + {t, b}
  {
    hide Execute, ExecuteAll;
    var first, second := BarrierTo(states, t, COPY_DEST), BarrierTo(states, b, COPY_SOURCE);
    assert cmds + TextureCopyCommands(states, t, b, f, true)
               == ((cmds + first) + second) + [CopyTexture(t, b, f, true)];
    ExecuteSnoc(m, (cmds + first) + second, CopyTexture(t, b, f, true));
    BarrierMovesNothing(m, cmds + first, states, b, COPY_SOURCE);
    BarrierMovesNothing(m, cmds, states, t, COPY_DEST);
  }

  /** The rows of a footprint lie within n bytes. */
  predicate Fits(f: Footprint, n: nat) {
    f.rows * f.pitch <= n && f.rowBytes <= f.pitch
  }

  /** The rows of a footprint in the n bytes of guest memory at a. */
  function Picture(g: Guest, a: nat, n: nat, f: Footprint): Bytes {
    Gather(Read(g, a, n), 0, f.pitch, f.rowBytes, f.rows)
  }

  /** A frame shows the rows of guest memory; nothing else shows. */
  lemma FrameRepresents(g: Guest, frames: Memory, bs: seq<Binding>, m: Memory, i: nat, a: nat, f: Footprint, n: nat,
                        t: Resource)
    requires Represents(g, frames, bs, m) && Separate(bs) && i < |bs| && bs[i].Contains(a, n)
    requires f.offset == a - bs[i].base
    requires Fits(f, n) && t in m && !t.IsBuffer()
    ensures Represents(g, frames[t := Picture(g, a, n, f)], bs, Execute(m, CopyTexture(t, bs[i].resource, f, true)))
  {
    hide Mirrors, Read, Gather;
    BoundSizes(g, bs, m, i);
    ReadMirrors(g, bs, m, i, a, n);
    GatherInside(m[bs[i].resource], f.offset, f.pitch, f.rowBytes, f.rows, n);
    assert forall x :: x in bs ==> x.resource != t;
    OthersDoNotShow(g, bs, m, t, Gather(m[bs[i].resource], f.offset, f.pitch, f.rowBytes, f.rows));
  }

  lemma FrameRecorded(g: Guest, frames: Memory, bs: seq<Binding>, m: Memory, cmds: seq<Command>, states: States,
                      i: nat, a: nat,
                      f: Footprint, n: nat, t: Resource)
    requires Represents(g, frames, bs, ExecuteAll(m, cmds)) && Separate(bs) && Sized(m) && t in m && !t.IsBuffer()
    requires i < |bs| && bs[i].Contains(a, n) && f.offset == a - bs[i].base && Fits(f, n)
    requires t in states && bs[i].resource in states
    ensures var all := cmds + TextureCopyCommands(states, t, bs[i].resource, f, true);
            && Represents(g, frames[t := Picture(g, a, n, f)], bs, ExecuteAll(m, all))
            && Names(all) <= Names(cmds) + {t, bs[i].resource}
  {
    hide Represents, ExecuteAll, Execute, Fits, Picture, Names, TextureCopyCommands;
    TextureCommandsCopy(m, cmds, states, t, bs[i].resource, f);
    ExecuteKeepsSizes(m, cmds);
    FrameRepresents(g, frames, bs, ExecuteAll(m, cmds), i, a, f, n, t);
  }

  lemma Accepted(states: States, d: Resource, dOffset: nat, s: Resource, sOffset: nat, n: nat)
    requires CopyAccepted(states, d, dOffset, s, sOffset, n)
    ensures d in states && s in states
  {
  }

  lemma BoundKeys(g: Guest, bs: seq<Binding>, m: Memory)
    requires Mirrors(g, bs, m)
    ensures Resources(bs) <= m.Keys
  {
  }

  /** Fills a mapped buffer with value, one word at a time. */
  method FillPattern(value: bv32, n: nat) returns (v: Bytes)
    requires n % 4 == 0
    ensures v == Pattern(value, n)
  {
    hide LittleByte;
    v := [];
    for w := 0 to n / 4
      invariant |v| == 4 * w
      invariant forall k :: 0 <= k < |v| ==> v[k] == LittleByte(value, k % 4)
    {
      v := v + [LittleByte(value, 0), LittleByte(value, 1), LittleByte(value, 2), LittleByte(value, 3)];
    }
  }

  /** What two memories agree on shows the same. */
  lemma AgreeRepresents(g: Guest, frames: Memory, bs: seq<Binding>, m: Memory, l: Memory)
    requires Represents(g, frames, bs, m) && Agree(m, l, Resources(bs) + frames.Keys)
    ensures Represents(g, frames, bs, l)
  {
    forall i | 0 <= i < |bs| ensures bs[i].resource in Resources(bs) {
      assert bs[i] in bs;
    }
  }

  /** Commands that name no binding and no frame do not show, neither before nor after a recording that names nothing
      of theirs. */
  lemma ElsewhereRepresents(g: Guest, frames: Memory, bs: seq<Binding>, m: Memory, cmds: seq<Command>,
                            more: seq<Command>)
    requires Represents(g, frames, bs, ExecuteAll(m, cmds)) && Sized(m)
    requires Names(more) !! Resources(bs) + frames.Keys + Names(cmds)
    ensures Represents(g, frames, bs, ExecuteAll(ExecuteAll(m, more), cmds))
  {
    hide Represents, ExecuteAll, Agree, Names, Sized;
    var rs := Resources(bs) + frames.Keys + Names(cmds);
    ExecuteAllLeaves(m, rs, more);
    ExecuteAllAgrees(m, ExecuteAll(m, more), rs, cmds);
    Narrow(ExecuteAll(m, cmds), ExecuteAll(ExecuteAll(m, more), cmds), rs, Resources(bs) + frames.Keys);
    AgreeRepresents(g, frames, bs, ExecuteAll(m, cmds), ExecuteAll(ExecuteAll(m, more), cmds));
  }

  lemma Narrow(m: Memory, l: Memory, rs: set<Resource>, few: set<Resource>)
    requires Agree(m, l, rs) && few <= rs
    ensures Agree(m, l, few)
  {
  }

  lemma NoNames()
    ensures Names([]) == {}
  {
  }

  // ----- the bridge --------------------------------------------------------------------------------------------------

  class Bridge {
    const context: Context
    var bindings: seq<Binding>
    var list: CommandList?
    var encoder: Encoder?
    var staging: seq<Resource>
    var pendingImages: seq<Resource>
    var lastTicket: U64
    var stagedBytes: nat
    var markerDepth: nat
    /** Flat guest memory: every accepted request applied at once, in call order. */
    ghost var guest: Guest
    /** The frames handed out and not recorded on by others since, with the bytes they are to show. */
    ghost var frames: Memory
    /** What the bridge gave up while a queued command still named it. */
    ghost var dangling: set<Resource>
    /** What the lists of others name. */
    ghost var others: set<Resource>

    /** What the bridge itself keeps alive, recording or not. */
    function Held(): set<Resource>
      reads this`bindings, this`staging, this`pendingImages
    {
      Resources(bindings) + Elements(staging) + Elements(pendingImages)
    }

    /** What only the last batch needs. */
    ghost function Transient(): set<Resource>
      reads this`staging, this`pendingImages
    {
      Elements(staging) + Elements(pendingImages)
    }

    ghost predicate Owned(extra: set<Resource>)
      reads this, context
    {
      Names(context.queue) <= Held() + extra + dangling + others
    }

    /** No recording: the last batch may still be running, all of it in front of the last ticket. */
    ghost predicate Idle(extra: set<Resource>)
      reads this, context
    {
      && markerDepth == 0 && Owned(extra)
      && Before(context.queue, lastTicket, Transient() + extra)
      && Represents(guest, frames, bindings, context.Settled())
    }

    /** An open recording: whatever is queued names nothing the next batch will own. */
    ghost predicate Recording(l: CommandList, e: Encoder, extra: set<Resource>)
      reads this, context, l`commands, e
    {
      && Owned({}) && Names(context.queue) !! Transient() + extra
      && Extends(context.states, e.initial) && (forall r :: r in e.initial && r.Decays() ==> e.initial[r] == COMMON)
      && Names(l.commands) <= Held() + extra
      && Represents(guest, frames, bindings, ExecuteAll(context.Settled(), l.commands))
    }

    /** A list that failed to close or to get its ticket: it stays forever. */
    ghost predicate Stuck(e: Encoder, extra: set<Resource>)
      reads this, context, e
    {
      Owned(extra + e.resources.Keys)
    }

    ghost predicate Bound()
      reads this, context
    {
      && Separate(bindings) && |bindings| <= MAX_BINDINGS
      && (forall r :: r in Held() ==> r in context.memory)
      && (forall r :: r in dangling ==> r in context.memory && r.heap == Readback)
      && (forall r :: r in Resources(bindings) ==>
                 r in context.states && context.states[r] == COMMON && r.device == context.device)
    }

    ghost predicate Keeps(extra: set<Resource>)
      reads this, context, list, encoder
    {
      && context.Valid() && Bound() && lastTicket <= context.fenceValue && stagedBytes <= MAX_TRANSFER
      && (list != null ==> list.device == context.device)
      && (encoder == null ==> Idle(extra))
      && (encoder != null ==>
            && list != null && encoder.list == list && encoder.device == context.device && encoder.Valid()
            && encoder.resources.Keys <= context.memory.Keys
            && if list.open then Recording(list, encoder, extra) else Stuck(encoder, extra))
    }

    ghost predicate Valid()
      reads this, context, list, encoder
    {
      Keeps({})
    }

    /** A recording that can never be submitted, so no later request that needs the device succeeds. */
    predicate Dead()
      reads this`encoder, this`list, list
    {
      encoder != null && (list == null || !list.open)
    }

    /** Objects the bridge replaces are new. */
    twostate predicate OwnsNew()
      reads this
    {
      (encoder == null || encoder == old(encoder) || fresh(encoder))
          && (list == null || list == old(list) || fresh(list))
    }

    constructor (context: Context)
      requires context.Valid()
      ensures Valid() && this.context == context && encoder == null && bindings == [] && guest == map[]
      ensures frames == map[]
      ensures list == null && lastTicket == 0 && dangling == {} && markerDepth == 0
    {
      this.context := context;
      bindings, list, encoder, staging, pendingImages := [], null, null, [], [];
      lastTicket, stagedBytes, markerDepth := 0, 0, 0;
      guest, frames, dangling, others := map[], map[], {}, Names(context.queue);
    }

    /** Where the whole range lies: in one binding, at most 16 MiB. */
    method Find(address: nat, bytes: nat) returns (r: Result<nat>)
      requires Separate(bindings)
      ensures r.Value? ==>
                r.value < |bindings| && bindings[r.value].Contains(address, bytes) && 0 < bytes <= MAX_TRANSFER
      ensures r.Error? ==> r.error == InvalidArg
      ensures r.Error? ==>
                bytes == 0 || bytes > MAX_TRANSFER || forall b :: b in bindings ==> !b.Contains(address, bytes)
    {
      if bytes == 0 || bytes > MAX_TRANSFER {
        return Error(InvalidArg);
      }
      for i := 0 to |bindings|
        invariant forall j :: 0 <= j < i ==> !bindings[j].Contains(address, bytes)
      {
        if address >= bindings[i].base {
          var offset := address - bindings[i].base;
          if offset < bindings[i].size && bytes <= bindings[i].size - offset {
            return Value(i);
          }
        }
      }
      return Error(InvalidArg);
    }

    /** The device's progress changes nothing the bridge promises. */
    twostate lemma ProgressKeeps(extra: set<Resource>)
      requires old(Keeps(extra)) && unchanged(this)
      requires encoder != null ==> list != null && unchanged(encoder, list)
      requires list != null ==> unchanged(list)
      requires context.Valid() && context.Progressed() && unchanged(context`states, context`fenceValue)
      ensures Keeps(extra)
    {
      hide Represents, ExecuteAll, Separate, Context.Valid, Context.Settled, Encoder.Valid, Names, Resources, Before,
           Suffix;
      if encoder == null {
        BeforeSuffix(old(context.queue), context.queue, lastTicket, Transient() + extra);
      }
    }

    lemma TicketGone()
      requires context.Valid() && context.completed >= lastTicket
      ensures Signal(lastTicket) !in context.queue
    {
    }

    method TrackBindings(l: CommandList, e: Encoder) returns (s: Status)
      requires Bound() && e.list == l && e.Valid() && e.device == context.device && l.commands == []
      requires e.resources == e.initial == map[]
      requires context.states.Keys == context.memory.Keys
      modifies e
      ensures e.Valid() && Extends(context.states, e.initial) && (forall r :: r in e.initial ==> e.initial[r] == COMMON)
      ensures e.resources.Keys <= context.memory.Keys
      ensures e.resources.Keys <= Resources(bindings)
      ensures s.Success? ==> forall b :: b in bindings ==>
                      b.resource in e.resources && e.resources[b.resource] == COMMON
      ensures context.device.stalled ==> s.Success?
    {
      hide ValidState, Legal, Run, Encoder.Valid, Separate, Resources, Bound;
      BindingsKnown();
      for i := 0 to |bindings|
        invariant e.Valid() && OnlyBindings(e)
        invariant forall j :: 0 <= j < i ==> bindings[j].resource in e.resources
      {
        BindingKnown(i);
        :- e.Track(bindings[i].resource, COMMON);
      }
      return Success;
    }

    /** Nothing but bindings is tracked, all in COMMON. */
    ghost predicate OnlyBindings(e: Encoder)
      reads e, `bindings
    {
      && e.resources.Keys <= Resources(bindings) && e.initial.Keys <= Resources(bindings)
      && (forall r :: r in e.resources ==> e.resources[r] == COMMON)
      && (forall r :: r in e.initial ==> e.initial[r] == COMMON)
    }

    lemma BindingsKnown()
      requires Bound()
      ensures forall r :: r in Resources(bindings) ==>
                      r in context.memory && r in context.states && context.states[r] == COMMON
    {
    }

    lemma BindingKnown(i: nat)
      requires Bound() && i < |bindings|
      ensures var r := bindings[i].resource;
              r in Resources(bindings) && r.device == context.device && r.heap == Default && ValidState(r, COMMON)
    {
      assert bindings[i] in bindings;
      MayBeCopied(bindings[i].resource);
    }

    /** Waits for the last ticket, then recycles what only its batch needed. */
    method Recycle(ghost extra: set<Resource>) returns (e: Status)
      requires Keeps(extra) && encoder == null
      modifies `staging, `pendingImages, `stagedBytes
      modifies context`queue, context`completed, context`memory, context`blockingWaits
      ensures context.Valid() && context.Progressed() && context.Stands()
      ensures e.Failed? ==> Keeps(extra) && unchanged(this)
      ensures e.Success? ==> Valid() && Names(context.queue) !! extra && Signal(lastTicket) !in context.queue
      ensures e.Success? ==> staging == [] && pendingImages == [] && stagedBytes == 0
      ensures e.Success? ==> context.completed >= lastTicket && markerDepth == 0
      ensures context.device.stalled ==>
                (e.Success? <==> !context.submissionError && old(context.completed) >= lastTicket)
    {
      hide Keeps, ExecuteAll, Context.Valid, Context.Settled, Names, Suffix;
      KeptTickets(extra);
      e := context.Wait(lastTicket);
      ProgressKeeps(extra);
      if e.Success? {
        label Waited:
        staging, pendingImages, stagedBytes := [], [], 0;
        DropKeeps@Waited(extra);
      }
    }

    /** Staging buffers and images may go once the last ticket is done. */
    twostate lemma DropKeeps(extra: set<Resource>)
      requires old(Keeps(extra)) && encoder == null && context.completed >= lastTicket && unchanged(context)
      requires unchanged(`bindings, `list, `encoder, `lastTicket, `markerDepth, `guest, `frames, `dangling, `others)
      requires (list != null ==> unchanged(list)) && staging == [] && pendingImages == [] && stagedBytes == 0
      ensures Valid() && Names(context.queue) !! extra && Signal(lastTicket) !in context.queue && markerDepth == 0
    {
      hide Represents, ExecuteAll, Separate, Context.Valid, Context.Settled, Names, Resources, Before, Suffix;
      TicketGone();
      BeforeDone(context.queue, lastTicket, old(Transient()) + extra);
      BeforeUnnamed(context.queue, lastTicket, {});
      assert Transient() + {} == {};
    }

    /** A list nobody runs, empty and open. */
    method OpenList() returns (e: Status)
      requires Valid() && encoder == null && Signal(lastTicket) !in context.queue
      modifies `list, list
      ensures Valid()
      ensures e.Success? ==> list != null && list.open && list.commands == []
      ensures list == old(list) || fresh(list)
      ensures context.device.stalled ==> e.Success?
    {
      hide Represents, ExecuteAll, Separate, Context.Valid, Encoder.Valid, Names, Resources, Before;
      var refused := context.device.Refuses();
      if refused {
        return Failed(DeviceError);
      }
      if list == null {
        list := new CommandList(context.device);
      } else {
        list.Reset(context.queue, lastTicket);
      }
      return Success;
    }

    /** An encoder that knows the bindings; when tracking fails it knows only the first of them. */
    method OpenEncoder() returns (e: Status)
      requires Valid() && encoder == null && Signal(lastTicket) !in context.queue && staging == []
      requires pendingImages == []
      requires list != null && list.open && list.commands == []
      modifies `encoder
      ensures Valid() && encoder != null && fresh(encoder)
      ensures e.Success? ==> Knows()
      ensures context.device.stalled ==> e.Success?
    {
      hide Keeps, Encoder.Valid;
      var created := new Encoder(list);
      Ready();
      e := TrackBindings(list, created);
      encoder := created;
      Opened();
    }

    lemma Ready()
      requires Valid()
      ensures Bound() && context.states.Keys == context.memory.Keys && (list != null ==> list.device == context.device)
    {
    }

    twostate lemma Opened()
      requires old(Valid()) && old(encoder) == null && unchanged(context, this`bindings)
      requires Signal(lastTicket) !in context.queue
      requires unchanged(`list) && list != null && unchanged(list) && list.open && list.commands == []
      requires encoder != null && encoder.list == list && encoder.Valid() && encoder.device == context.device
      requires staging == pendingImages == []
      requires Extends(context.states, encoder.initial)
      requires (forall r :: r in encoder.initial ==> encoder.initial[r] == COMMON)
      requires encoder.resources.Keys <= context.memory.Keys
      requires unchanged(`list, `staging, `pendingImages, `markerDepth, `lastTicket)
      requires unchanged(`stagedBytes, `guest, `frames, `dangling, `others)
      ensures Valid()
    {
      hide Represents, ExecuteAll, Separate, Context.Valid, Context.Settled, Encoder.Valid, Names, Resources, Before;
      ExecuteNothing(context.Settled());
      NoNames();
      assert Transient() + {} == Transient();
      BeforeDone(context.queue, lastTicket, Transient());
    }

    lemma ExecuteNothing(m: Memory)
      ensures ExecuteAll(m, []) == m
    {
    }

    /** The bindings, and nothing else, are tracked, all in COMMON. */
    predicate Knows()
      reads this`encoder, this`bindings, encoder
      requires encoder != null
    {
      && encoder.resources.Keys <= Resources(bindings)
      && forall b :: b in bindings ==> b.resource in encoder.resources && encoder.resources[b.resource] == COMMON
    }

    method BeginRecording() returns (e: Status)
      requires Valid()
      modifies this, context, list
      ensures Valid() && OwnsNew()
      ensures bindings == old(bindings) && guest == old(guest) && frames == old(frames) && lastTicket == old(lastTicket)
      ensures markerDepth == old(markerDepth) && dangling == old(dangling)
      ensures context.Progressed() && context.Stands() && context.SubmitsNothing() && unchanged(context`states)
      ensures old(encoder) != null ==> e.Success? && unchanged(this) && unchanged(context) && unchanged(list)
      ensures e.Success? ==> encoder != null
      ensures old(encoder) == null && encoder != null ==> fresh(encoder) && list.open && list.commands == []
      ensures old(encoder) == null && encoder != null ==> staging == [] && pendingImages == [] && stagedBytes == 0
      ensures old(encoder) == null && e.Success? ==> context.completed >= lastTicket && Knows()
      ensures context.device.stalled && !context.submissionError && old(context.completed) >= lastTicket ==> e.Success?
      ensures old(Able()) ==> e.Success? && Tracking() && context.device.stalled
    {
      hide Keeps, Represents, Context.Settled, Context.Valid, Before, Suffix;
      context.Unmoved();
      if encoder != null {
        return Success;
      }
      :- Recycle({});
      :- OpenList();
      e := OpenEncoder();
    }

    /** What recording more may change, and what it must show. */
    twostate lemma Recorded(new kept: set<Resource>)
      requires unchanged(context, `bindings, `list, `encoder, `staging)
      requires unchanged(`pendingImages, `lastTicket, `stagedBytes, `markerDepth)
      requires unchanged(`dangling, `others)
      requires old(Valid()) && encoder != null && list != null && encoder.list == list && encoder.Valid()
      requires unchanged(list`open, encoder`initial) && encoder.resources.Keys == old(encoder.resources.Keys)
      requires list.open ==> Names(list.commands) <= Held() + kept && Names(context.queue) !! kept
      requires list.open ==> Represents(guest, frames, bindings, ExecuteAll(context.Settled(), list.commands))
      ensures Keeps(kept)
    {
      hide Represents, ExecuteAll, Separate, Context.Valid, Context.Settled, Encoder.Valid, Names, Resources, Before;
    }

    /** Records a copy of n bytes into binding i and applies it to guest memory. */
    method RecordCopy(i: nat, a: nat, s: Resource, sOffset: nat, n: nat, ghost v: Bytes) returns (e: Status)
      requires Valid() && encoder != null && list != null && encoder.list == list
      requires i < |bindings| && bindings[i].Contains(a, n) && |v| == n && s in Held()
      requires !Dead() ==> var m := ExecuteAll(context.Settled(), list.commands);
                           s in m && sOffset + n <= |m[s]| && m[s][sOffset..sOffset + n] == v
      modifies `guest, encoder`resources, list`commands
      ensures Valid()
      ensures guest == if e.Success? then Write(old(guest), a, v) else old(guest)
      ensures e == if CopyAccepted(old(encoder.resources), bindings[i].resource, a - bindings[i].base, s, sOffset, n)
                   then Success else Failed(InvalidArg)
      ensures e.Success? ==> s in Names(list.commands)
    {
      hide Keeps, Represents, ExecuteAll, Separate, Encoder.Valid, Names, CopyCommands, CopyAccepted, Execute,
           Context.Settled;
      Showing();
      ghost var states, cmds := encoder.resources, list.commands;
      var d := bindings[i].resource;
      :- encoder.CopyBuffer(d, a - bindings[i].base, s, sOffset, n);
      guest := Write(guest, a, v);
      Accepted(states, d, a - bindings[i].base, s, sOffset, n);
      BoundHeld(i);
      LastIsNamed(cmds, states, d, a - bindings[i].base, s, sOffset, n);
      if list.open {
        CopyCommandsCopy(context.Settled(), cmds, states, d, a - bindings[i].base, s, sOffset, n);
        CopyRepresents(old(guest), frames, bindings, ExecuteAll(context.Settled(), cmds), i, a, s, sOffset, v);
      }
      Recorded({});
      return Success;
    }

    lemma LastIsNamed(cmds: seq<Command>, states: States, d: Resource, dOffset: nat, s: Resource, sOffset: nat, n: nat)
      requires d in states && s in states
      ensures s in Names(cmds + CopyCommands(states, d, dOffset, s, sOffset, n))
    {
      hide BarrierTo;
      var all, c := cmds + CopyCommands(states, d, dOffset, s, sOffset, n), CopyRegion(d, dOffset, s, sOffset, n);
      assert all[|all| - 1] == c && c in all && s in c.Names();
    }

    /** A copy into a binding from a tracked buffer that may be read and holds the range is accepted. */
    lemma CopyIsAccepted(i: nat, a: nat, s: Resource, sOffset: nat, n: nat, states: States)
      requires Separate(bindings) && i < |bindings| && bindings[i].Contains(a, n) && n != 0
      requires bindings[i].resource in states && s in states && s != bindings[i].resource && s.IsBuffer()
      requires sOffset + n <= s.description.width && s.heap != Readback
      ensures CopyAccepted(states, bindings[i].resource, a - bindings[i].base, s, sOffset, n)
    {
    }

    lemma BoundHeld(i: nat)
      requires i < |bindings|
      ensures bindings[i].resource in Held()
    {
      assert bindings[i] in bindings;
    }

    /** Tracks a resource in the state it is in. */
    method TrackHere(r: Resource, s: State) returns (e: Status)
      requires Valid() && encoder != null && r in context.memory && r in context.states && context.states[r] == s
      requires r.Decays() ==> s == COMMON
      modifies encoder
      ensures Valid()
      ensures e.Success? ==> encoder.resources == old(encoder.resources)[r := s]
      ensures e.Failed? ==> encoder.resources == old(encoder.resources)
      ensures (&& context.device.stalled && ValidState(r, s) && r.device == context.device && r.heap != OtherHeap
               && r !in old(encoder.resources)) ==> e.Success?
    {
      hide Represents, ExecuteAll, Separate, Context.Valid, Context.Settled, Encoder.Valid, Names, Resources, Before,
           ValidState;
      e := encoder.Track(r, s);
    }

    /** An upload buffer full of value; when it cannot be mapped it is forgotten. */
    method CreateUpload(n: nat, value: bv32) returns (r: Result<Resource>)
      requires Valid() && encoder != null && n % 4 == 0
      modifies context`memory, context`states, context`nextId
      ensures Valid()
      ensures r.Value? ==> r.value !in old(context.memory) && r.value !in Names(context.queue) && r.value.heap == Upload
      ensures r.Value? ==> context.memory == old(context.memory)[r.value := Pattern(value, n)]
      ensures r.Value? ==> context.states == old(context.states)[r.value := GENERIC_READ]
      ensures r.Value? ==> r.value.description == BufferOf(n) && r.value.device == context.device
      ensures context.device.stalled && n != 0 ==> r.Value?
      ensures r.Value? && list != null && list.open ==>
                var m := ExecuteAll(context.Settled(), list.commands); r.value in m && m[r.value] == Pattern(value, n)
    {
      hide Keeps, ExecuteAll, Context.Valid, Context.Settled, Pattern, Names;
      Basics();
      r := context.CreateBuffer(n, Upload, GENERIC_READ);
      if r.Error? {
        return;
      }
      var upload := r.value;
      var refused := context.device.Refuses();
      if !refused {
        var v := FillPattern(value, n);
        context.WriteMapped(upload, v);
      }
      NewResource(upload, context.memory[upload], GENERIC_READ);
      if refused {
        return Error(DeviceError);
      }
    }

    /** An upload buffer full of value, owned by staging before any command can name it. */
    method StageUpload(n: nat, value: bv32) returns (r: Result<Resource>)
      requires Valid() && encoder != null && n % 4 == 0
      modifies `staging, context`memory, context`states, context`nextId
      ensures Valid()
      ensures r.Error? ==> staging == old(staging)
      ensures r.Value? ==>
                staging == old(staging) + [r.value] && r.value !in old(context.memory) && r.value.heap == Upload
      ensures r.Value? ==> context.memory == old(context.memory)[r.value := Pattern(value, n)]
      ensures r.Value? ==> context.states == old(context.states)[r.value := GENERIC_READ]
      ensures r.Value? ==> r.value.description == BufferOf(n) && r.value.device == context.device
      ensures context.device.stalled && n != 0 ==> r.Value?
      ensures r.Value? && list != null && list.open ==>
                var m := ExecuteAll(context.Settled(), list.commands); r.value in m && m[r.value] == Pattern(value, n)
    {
      hide Keeps, ExecuteAll, Context.Valid, Context.Settled, Names, Pattern;
      r := CreateUpload(n, value);
      if r.Value? {
        label Created:
        staging := staging + [r.value];
        StagedKeeps@Created(r.value);
      }
    }

    twostate lemma StagedKeeps(new upload: Resource)
      requires unchanged(`bindings, `list, `encoder, `pendingImages, `markerDepth)
      requires unchanged(`lastTicket, `stagedBytes, `guest, `frames)
      requires unchanged(`dangling, `others) && unchanged(context) && encoder != null && unchanged(encoder)
      requires (list != null ==> unchanged(list)) && staging == old(staging) + [upload]
      requires old(Valid()) && upload in context.memory && upload !in Names(context.queue)
      ensures Valid()
    {
      hide Represents, ExecuteAll, Separate, Context.Valid, Context.Settled, Encoder.Valid, Names, Resources, Before;
      assert Transient() + {} == old(Transient()) + {} + {upload};
    }

    /** A resource just created changes nothing the bridge promises. */
    twostate lemma NewResource(new r: Resource, new v: Bytes, new s: State)
      requires unchanged(this) && old(Valid()) && (list != null ==> unchanged(list))
      requires (encoder != null ==> unchanged(encoder))
      requires unchanged(context`queue, context`fenceValue)
      requires r !in old(context.memory) && r !in old(context.states) && r !in Names(context.queue)
      requires context.Valid() && context.memory == old(context.memory)[r := v]
      requires context.states == old(context.states)[r := s]
      ensures Valid() && r !in dangling
      ensures encoder != null && list.open ==>
                  var m := ExecuteAll(context.Settled(), list.commands); r in m && m[r] == v
    {
      hide Represents, ExecuteAll, Separate, Context.Valid, Encoder.Valid, Names, Resources, Before;
      StatesKnown();
      ExecuteAllElsewhere(old(context.memory), r, v, context.queue);
      if encoder == null {
        UnseenRepresents(guest, frames, bindings, old(context.memory), context.queue, r, v);
      } else if list.open {
        ghost var settled := old(context.Settled());
        SettledKnownBefore();
        ExecuteAllElsewhere(settled, r, v, list.commands);
        UnseenRepresents(guest, frames, bindings, settled, list.commands, r, v);
      }
    }

    twostate lemma SettledKnownBefore()
      requires old(context.Valid())
      ensures old(context.Settled()).Keys == old(context.memory).Keys && Sized(old(context.Settled()))
    {
      ExecuteKeepsSizes(old(context.memory), old(context.queue));
    }

    lemma SettledKnown()
      requires context.Valid()
      ensures context.Settled().Keys == context.memory.Keys && Sized(context.Settled())
    {
      ExecuteKeepsSizes(context.memory, context.queue);
    }

    /** An upload buffer full of value, staged and tracked. */
    method StageAndTrack(n: nat, value: bv32) returns (r: Result<Resource>)
      requires Valid() && encoder != null && n % 4 == 0
      modifies `staging, encoder, context`memory, context`states, context`nextId
      ensures Valid()
      ensures r.Value? ==>
                r.value in Held() && r.value in staging && r.value.heap == Upload && r.value.description == BufferOf(n)
      ensures r.Value? ==> encoder.resources == old(encoder.resources)[r.value := GENERIC_READ]
      ensures r.Value? ==> staging != [] && staging[|staging| - 1] == r.value
      ensures context.device.stalled && n != 0 ==> r.Value?
      ensures r.Value? && list != null && list.open ==>
                var m := ExecuteAll(context.Settled(), list.commands); r.value in m && m[r.value] == Pattern(value, n)
    {
      hide Keeps, ExecuteAll, Pattern, Context.Settled, Context.Valid, Names, ValidState;
      NotTracked();
      r := StageUpload(n, value);
      if r.Value? {
        UploadKnown(r.value);
        MayBeStaged(r.value);
        var e := TrackHere(r.value, GENERIC_READ);
        r := if e.Success? then r else Error(e.error);
      }
    }

    method RecordFill(i: nat, address: nat, n: nat, value: bv32) returns (e: Status)
      requires Valid() && encoder != null && list != null && encoder.list == list && n % 4 == 0
      requires i < |bindings| && bindings[i].Contains(address, n) && stagedBytes + n <= MAX_TRANSFER
      modifies `guest, `staging, `stagedBytes, encoder, list`commands, context`memory, context`states, context`nextId
      ensures Valid() && stagedBytes <= MAX_TRANSFER
      ensures guest == if e.Success? then Write(old(guest), address, Pattern(value, n)) else old(guest)
      ensures stagedBytes == old(stagedBytes) + if e.Success? then n else 0
      ensures e.Success? ==> staging != [] && staging[|staging| - 1] in Names(list.commands)
      ensures context.device.stalled && n != 0 && old(Tracking()) ==> e.Success?
    {
      hide Keeps, ExecuteAll, Pattern, Write, Context.Settled, Context.Valid, Names, CopyAccepted, Separate;
      Basics();
      var upload :- StageAndTrack(n, value);
      assert bindings[i] in bindings;
      FillIsAccepted(i, address, upload, n, encoder.resources);
      :- RecordCopy(i, address, upload, 0, n, Pattern(value, n));
      Count(n);
      return Success;
    }

    lemma FillIsAccepted(i: nat, a: nat, upload: Resource, n: nat, states: States)
      requires Separate(bindings) && i < |bindings| && bindings[i].Contains(a, n)
      requires upload.heap == Upload && upload.description == BufferOf(n)
      ensures n != 0 && bindings[i].resource in states && upload in states ==>
                CopyAccepted(states, bindings[i].resource, a - bindings[i].base, upload, 0, n)
    {
    }

    lemma NotTracked()
      requires Valid() && encoder != null
      ensures encoder.resources.Keys <= context.memory.Keys
    {
    }

    lemma UploadKnown(upload: Resource)
      requires upload in staging
      ensures upload in Held()
    {
    }

    /** A device that refuses no work, and a recording that is open with every binding tracked or can be opened. */
    predicate Able()
      reads this`encoder, this`bindings, this`lastTicket, encoder, context`submissionError, context`completed
    {
      && context.device.stalled
      && if encoder == null then !context.submissionError && context.completed >= lastTicket
         else Tracking()
    }

    /** Every binding is tracked. */
    predicate Tracking()
      reads this`encoder, this`bindings, encoder
    {
      encoder != null && forall b :: b in bindings ==> b.resource in encoder.resources
    }

    /** The range lies in one binding, and is of a size the bridge transfers. */
    predicate Reachable(address: nat, n: nat)
      reads this`bindings
    {
      0 < n <= MAX_TRANSFER && exists b :: b in bindings && b.Contains(address, n)
    }

    method FillBuffer(address: nat, numBytes: nat, value: bv32, isGds: bool) returns (e: Status)
      requires Valid()
      modifies this, context, list, encoder
      ensures Valid() && OwnsNew() && (old(Dead()) ==> Dead())
      ensures guest == if e.Success? then Write(old(guest), address, Pattern(value, numBytes)) else old(guest)
      ensures e.Success? ==> encoder != null && !isGds && numBytes % 4 == 0
      ensures e.Success? ==> stagedBytes == numBytes + if old(encoder) == null then 0 else old(stagedBytes)
      ensures bindings == old(bindings) && frames == old(frames) && lastTicket == old(lastTicket)
      ensures markerDepth == old(markerDepth) && dangling == old(dangling)
      ensures context.SubmitsNothing()
      ensures e.Success? ==> list != null && staging != [] && staging[|staging| - 1] in Names(list.commands)
      ensures old(encoder) == null && encoder != null ==> !Dead()
      ensures context.device.stalled ==> unchanged(context`completed)
      ensures (&& old(Able()) && !isGds && Reachable(address, numBytes) && numBytes % 4 == 0
               && (forall b :: b in bindings && b.Contains(address, numBytes) ==> (address - b.base) % 4 == 0)
               && numBytes + (if old(encoder) == null then 0 else old(stagedBytes)) <= MAX_TRANSFER) ==> e.Success?
    {
      hide Keeps, ExecuteAll, Names, Pattern, Write, Able, Context.Settled, Context.Valid, Suffix;
      Basics();
      context.Unmoved();
      if isGds {
        return Failed(NotImplemented);
      }
      var i :- Find(address, numBytes);
      if numBytes % 4 != 0 || (address - bindings[i].base) % 4 != 0 {
        return Failed(InvalidArg);
      }
      e := FillRange(i, address, numBytes, value);
    }

    method FillRange(i: nat, address: nat, numBytes: nat, value: bv32) returns (e: Status)
      requires Valid() && numBytes % 4 == 0 && numBytes != 0 && i < |bindings|
      requires bindings[i].Contains(address, numBytes)
      modifies this, context, list, encoder
      ensures Valid() && OwnsNew() && (old(Dead()) ==> Dead())
      ensures guest == if e.Success? then Write(old(guest), address, Pattern(value, numBytes)) else old(guest)
      ensures e.Success? ==> encoder != null
      ensures e.Success? ==> stagedBytes == numBytes + if old(encoder) == null then 0 else old(stagedBytes)
      ensures bindings == old(bindings) && frames == old(frames) && lastTicket == old(lastTicket)
      ensures markerDepth == old(markerDepth) && dangling == old(dangling)
      ensures context.SubmitsNothing()
      ensures e.Success? ==> list != null && staging != [] && staging[|staging| - 1] in Names(list.commands)
      ensures old(encoder) == null && encoder != null ==> !Dead()
      ensures context.device.stalled ==> unchanged(context`completed)
      ensures old(Able()) && numBytes + (if old(encoder) == null then 0 else old(stagedBytes)) <= MAX_TRANSFER ==>
                e.Success?
    {
      hide Keeps, ExecuteAll, Names, Pattern, Write, Able, Tracking, Binding.Contains, Context.Settled, Context.Valid,
           Context.Progressed, Knows, Suffix, Separate;
      e := BeginRecording();
      Basics();
      if e.Failed? {
        return;
      }
      if numBytes > MAX_TRANSFER - stagedBytes {
        return Failed(InvalidArg);
      }
      e := RecordFill(i, address, numBytes, value);
    }

    method Count(n: nat)
      requires Valid() && stagedBytes + n <= MAX_TRANSFER
      modifies `stagedBytes
      ensures Valid() && stagedBytes == old(stagedBytes) + n
    {
      hide Represents, ExecuteAll, Separate, Context.Valid, Context.Settled, Encoder.Valid, Names, Resources, Before;
      stagedBytes := stagedBytes + n;
    }

    /** While recording, a bound buffer will hold the guest's bytes once the recording has run. */
    lemma ShowsGuest(j: nat, a: nat, n: nat)
      requires Valid() && encoder != null && list != null && list.open && j < |bindings| && bindings[j].Contains(a, n)
      ensures var m, r, o := ExecuteAll(context.Settled(), list.commands), bindings[j].resource, a - bindings[j].base;
              r in m && o + n <= |m[r]| && m[r][o..o + n] == Read(guest, a, n)
    {
      hide Keeps, ExecuteAll, Read, Mirrors, Context.Settled;
      Showing();
      ReadMirrors(guest, bindings, ExecuteAll(context.Settled(), list.commands), j, a, n);
      BoundSizes(guest, bindings, ExecuteAll(context.Settled(), list.commands), j);
    }

    method CopyBuffer(dst: nat, src: nat, numBytes: nat, dstGds: bool, srcGds: bool) returns (e: Status)
      requires Valid()
      modifies this, context, list, encoder
      ensures Valid() && OwnsNew() && (old(Dead()) ==> Dead())
      ensures guest == if e.Success? then Write(old(guest), dst, Read(old(guest), src, numBytes)) else old(guest)
      ensures e.Success? ==> encoder != null && !dstGds && !srcGds
      ensures bindings == old(bindings) && frames == old(frames) && lastTicket == old(lastTicket)
      ensures markerDepth == old(markerDepth) && dangling == old(dangling)
      ensures context.SubmitsNothing()
      ensures (&& old(Able()) && !dstGds && !srcGds && Reachable(dst, numBytes) && Reachable(src, numBytes)
               && (forall b :: b in bindings && b.Contains(dst, numBytes) ==> !b.Contains(src, numBytes)))
              ==> e.Success?
    {
      hide Keeps, ExecuteAll, Read, Write, Able, Context.Settled, Context.Valid, Suffix, Separate;
      Basics();
      context.Unmoved();
      if dstGds || srcGds {
        return Failed(NotImplemented);
      }
      var i :- Find(dst, numBytes);
      var j :- Find(src, numBytes);
      if bindings[i].resource == bindings[j].resource {
        OneBinding(i, j);
        return Failed(InvalidArg);
      }
      e := CopyRange(i, dst, j, src, numBytes);
    }

    lemma OneBinding(i: nat, j: nat)
      requires Separate(bindings) && i < |bindings| && j < |bindings| && bindings[i].resource == bindings[j].resource
      ensures i == j
    {
    }

    method CopyRange(i: nat, dst: nat, j: nat, src: nat, numBytes: nat) returns (e: Status)
      requires Valid() && i < |bindings| && bindings[i].Contains(dst, numBytes)
      requires j < |bindings| && bindings[j].Contains(src, numBytes) && bindings[i].resource != bindings[j].resource
      requires numBytes != 0
      modifies this, context, list, encoder
      ensures Valid() && OwnsNew() && (old(Dead()) ==> Dead())
      ensures guest == if e.Success? then Write(old(guest), dst, Read(old(guest), src, numBytes)) else old(guest)
      ensures e.Success? ==> encoder != null
      ensures bindings == old(bindings) && frames == old(frames) && lastTicket == old(lastTicket)
      ensures markerDepth == old(markerDepth) && dangling == old(dangling)
      ensures context.SubmitsNothing()
      ensures old(Able()) ==> e.Success?
    {
      hide Keeps, ExecuteAll, Read, Write, Represents, CopyAccepted, Able, Context.Settled, Context.Valid,
           Context.Progressed,
           Context.Stands, Knows, Suffix, Separate;
      :- BeginRecording();
      Basics();
      BoundHeld(j);
      if list.open {
        ShowsGuest(j, src, numBytes);
      }
      CopyBetween(i, dst, j, src, numBytes);
      assert bindings[i] in bindings && bindings[j] in bindings;
      :- RecordCopy(i, dst, bindings[j].resource, src - bindings[j].base, numBytes, Read(guest, src, numBytes));
      return Success;
    }

    lemma CopyBetween(i: nat, a: nat, j: nat, b: nat, n: nat)
      requires Separate(bindings) && encoder != null && i < |bindings| && j < |bindings| && n != 0
      requires bindings[i].Contains(a, n) && bindings[j].Contains(b, n) && bindings[i].resource != bindings[j].resource
      ensures bindings[i].resource in encoder.resources && bindings[j].resource in encoder.resources ==>
                CopyAccepted(encoder.resources, bindings[i].resource, a - bindings[i].base, bindings[j].resource,
                             b - bindings[j].base, n)
    {
      hide CopyAccepted;
      if bindings[i].resource in encoder.resources && bindings[j].resource in encoder.resources {
        CopyIsAccepted(i, a, bindings[j].resource, b - bindings[j].base, n, encoder.resources);
      }
    }

    /** Every resource the encoder tracked is in the state the encoder announced for the time after execution. */
    ghost predicate LeftBehind(en: Encoder)
      reads context`states, en`resources
    {
      forall r :: r in en.resources ==>
                    r in context.states && context.states[r] == r.AtBoundary(en.resources[r])
    }

    /** The device's states permit the recording, and it leaves the states the encoder tracked. */
    lemma Executable(l: CommandList, en: Encoder, kept: set<Resource>)
      requires en.Valid() && en.list == l && Recording(l, en, kept) && context.Valid()
      requires en.resources.Keys <= context.memory.Keys
      ensures Legal(context.states, l.commands) && Run(context.states, l.commands) == context.states + en.resources
      ensures Names(l.commands) <= en.resources.Keys
    {
      hide Represents, ExecuteAll, Separate, Context.Valid, Context.Settled, Names, Resources, Legal, Run, ValidState,
           Before;
      StatesKnown();
      RunKeepsKeys(en.initial, l.commands);
      RunInLarger(en.initial, context.states, l.commands);
    }

    /** Executes the closed recording. The caller still holds kept. */
    method SubmitClosed(l: CommandList, en: Encoder, ghost kept: set<Resource>) returns (r: Result<U64>)
      requires context.Valid() && Bound() && lastTicket <= context.fenceValue && stagedBytes <= MAX_TRANSFER
      requires list == l && encoder == en && markerDepth == 0 && !l.open && Recording(l, en, kept)
      requires l.device == context.device
      requires en.list == l && en.Valid() && en.device == context.device && en.resources.Keys <= context.memory.Keys
      modifies `lastTicket, `encoder
      modifies context`queue, context`fenceValue, context`submissionError, context`unticketed, context`submittedLists
      modifies context`states
      ensures Keeps(kept)
      ensures r.Value? ==> encoder == null && r.value == lastTicket == context.fenceValue == old(context.fenceValue) + 1
      ensures r.Value? ==> context.Settled() == ExecuteAll(old(context.Settled()), l.commands)
      ensures r.Value? ==> context.queue == old(context.queue) + l.commands + [Signal(r.value)] && LeftBehind(en)
      ensures r.Value? ==> !context.submissionError
      ensures r.Error? ==> encoder == en && lastTicket == old(lastTicket)
      ensures r.Error? ==> context.queue == if old(context.submissionError) then old(context.queue)
                  else old(context.queue) + l.commands
      ensures context.submissionError ==> old(context.submissionError) || old(context.fenceValue) < MAX_U64 - 1
      ensures context.Counted()
      ensures context.device.stalled && !old(context.submissionError) && old(context.fenceValue) < MAX_U64 - 1 ==>
                r.Value?
    {
      hide *;
      Executable(l, en, kept);
      r := context.Submit(l);
      if r.Value? {
        lastTicket := r.value;
        encoder := null;
      }
      SubmittedKeeps(kept, r);
    }

    twostate lemma SubmittedKeeps(new kept: set<Resource>, new r: Result<U64>)
      requires old(context.Valid()) && old(Bound()) && old(lastTicket) <= old(context.fenceValue)
      requires stagedBytes <= MAX_TRANSFER
      requires list != null && old(list) == list && old(encoder) != null && markerDepth == 0 && !list.open
      requires old(Recording(list, encoder, kept)) && list.device == context.device
      requires old(encoder).list == list && old(encoder.Valid()) && old(encoder).device == context.device
      requires old(encoder).resources.Keys <= context.memory.Keys
      requires Names(list.commands) <= old(encoder).resources.Keys
      requires Run(old(context.states), list.commands) == old(context.states) + old(encoder).resources
      requires unchanged(`bindings, `staging, `pendingImages, `stagedBytes, `markerDepth)
      requires unchanged(`guest, `frames, `dangling, `others)
      requires unchanged(list, old(encoder), context`memory) && context.Valid()
      requires context.fenceValue >= old(context.fenceValue)
      requires encoder == if r.Value? then null else old(encoder)
      requires lastTicket == if r.Value? then r.value else old(lastTicket)
      requires r.Value? ==>
                 && r.value == context.fenceValue
                 && context.queue == old(context.queue) + list.commands + [Signal(r.value)]
      requires context.queue == old(context.queue) || context.queue == old(context.queue) + list.commands || r.Value?
      requires context.states == old(context.states)
                   || context.states == Decayed(Run(old(context.states), list.commands))
      requires r.Value? ==> context.states == Decayed(Run(old(context.states), list.commands))
      requires || context.submittedLists == old(context.submittedLists) + 1
               || (unchanged(context`submittedLists) && context.queue == old(context.queue))
      ensures Keeps(kept) && context.Counted()
      ensures r.Value? ==>
                LeftBehind(old(encoder)) && context.Settled() == ExecuteAll(old(context.Settled()), list.commands)
    {
      hide Represents, ExecuteAll, Separate, Context.Valid, Context.Settled, Encoder.Valid, Names, Resources, Legal,
           Run, Before, Extends;
      context.Submitted(list.commands, context.fenceValue);
      BindingsDecay();
      if r.Value? {
        BeforeLast(old(context.queue) + list.commands, r.value, Transient() + kept);
      }
    }

    /** The recording is executed for a ticket; without one it is stuck. */
    method CloseAndSubmit(l: CommandList, en: Encoder, ghost kept: set<Resource>) returns (r: Result<U64>)
      requires Keeps(kept) && list == l && encoder == en && markerDepth == 0
      modifies `lastTicket, `encoder, l`open
      modifies context`queue, context`fenceValue, context`submissionError, context`unticketed, context`submittedLists
      modifies context`states
      ensures Keeps(kept)
      ensures r.Value? ==> old(l.open) && encoder == null
      ensures r.Value? ==> r.value == lastTicket == context.fenceValue == old(context.fenceValue) + 1
      ensures r.Value? ==> context.Settled() == ExecuteAll(old(context.Settled()), l.commands)
      ensures r.Value? ==> context.queue == old(context.queue) + l.commands + [Signal(r.value)] && LeftBehind(en)
      ensures r.Value? ==> !context.submissionError
      ensures r.Error? ==> encoder == en && !l.open && lastTicket == old(lastTicket)
      ensures context.submissionError ==> old(context.submissionError) || old(context.fenceValue) < MAX_U64 - 1
      ensures context.Counted() && (!old(l.open) ==> unchanged(context))
      ensures context.device.stalled && old(l.open) && r.Error? ==>
                context.queue == if old(context.submissionError) then old(context.queue)
                    else old(context.queue) + l.commands
      ensures context.device.stalled && old(l.open) && !old(context.submissionError)
                  && old(context.fenceValue) < MAX_U64 - 1 ==>
                r.Value?
    {
      hide Represents, ExecuteAll, Separate, Context.Valid, Context.Settled, Encoder.Valid, Names, Resources,
           LeftBehind, Before;
      SuffixSelf(context.queue);
      var closed := l.Close();
      if !closed {
        return Error(DeviceError);
      }
      r := SubmitClosed(l, en, kept);
    }

    lemma BindingsDecay()
      requires Separate(bindings)
      ensures forall r :: r in Resources(bindings) ==> r.Decays()
    {
    }

    lemma HasList(kept: set<Resource>)
      requires Keeps(kept)
      ensures encoder != null ==> list != null
    {
    }

    method Flush(ghost kept: set<Resource>) returns (r: Result<U64>)
      requires Keeps(kept)
      modifies `lastTicket, `encoder, list
      modifies context`queue, context`fenceValue, context`submissionError, context`unticketed, context`submittedLists
      modifies context`states
      ensures Keeps(kept)
      ensures r.Value? ==> encoder == null && r.value == lastTicket
      ensures old(encoder) == null ==> r.Value? && unchanged(this) && unchanged(context)
      ensures old(encoder) != null && r.Value? ==>
                && lastTicket == context.fenceValue == old(context.fenceValue) + 1
                && context.Settled() == ExecuteAll(old(context.Settled()), old(list.commands))
                && context.queue == old(context.queue) + old(list.commands) + [Signal(r.value)]
                && LeftBehind(old(encoder)) && !context.submissionError
      ensures r.Error? ==> encoder == old(encoder) && lastTicket == old(lastTicket) && (markerDepth != 0 || Dead())
      ensures old(Dead()) || (old(encoder) != null && markerDepth != 0) ==> r.Error?
      ensures old(Dead()) ==> Dead()
      ensures context.submissionError ==> old(context.submissionError) || old(context.fenceValue) < MAX_U64 - 1
      ensures context.Counted() && (old(Dead()) || (old(encoder) != null && markerDepth != 0) ==> unchanged(context))
      ensures context.device.stalled && markerDepth == 0 && !old(Dead()) && r.Error? ==>
                context.queue == old(context.queue) + if old(context.submissionError) then [] else old(list.commands)
      ensures (&& context.device.stalled && markerDepth == 0 && !old(Dead()) && !old(context.submissionError)
               && old(context.fenceValue) < MAX_U64 - 1) ==> r.Value?
    {
      hide Keeps, ExecuteAll, Context.Settled, LeftBehind, Suffix;
      SuffixSelf(context.queue);
      if encoder == null {
        return Value(lastTicket);
      }
      if markerDepth != 0 {
        return Error(InvalidArg);
      }
      HasList(kept);
      r := CloseAndSubmit(list, encoder, kept);
    }

    /** Flushes and waits. A failure with no encoder left is a failed wait. */
    method Finish(ghost kept: set<Resource>) returns (e: Status)
      requires Keeps(kept)
      modifies `lastTicket, `encoder, `staging, `pendingImages, `stagedBytes, list, context
      ensures context.memory.Keys == old(context.memory.Keys)
      ensures e.Success? ==> Valid() && encoder == null && markerDepth == 0
      ensures e.Success? ==>
                context.completed >= lastTicket && Signal(lastTicket) !in context.queue && Names(context.queue) !! kept
      ensures old(encoder) == null ==>
                Suffix(context.queue, old(context.queue)) && context.fenceValue == old(context.fenceValue)
      ensures e.Success? && old(encoder) == null ==> context.Settled() == old(context.Settled())
      ensures old(encoder) != null && encoder == null ==>
                && lastTicket == context.fenceValue == old(context.fenceValue) + 1
                && context.Settled() == ExecuteAll(old(context.Settled()), old(list.commands))
                && Suffix(context.queue, old(context.queue) + old(list.commands) + [Signal(lastTicket)])
      ensures e.Failed? ==> staging == old(staging) && pendingImages == old(pendingImages)
      ensures e.Failed? ==>
                Keeps(kept) && (encoder == null || (encoder == old(encoder) && (markerDepth != 0 || Dead())))
      ensures old(Dead()) || (old(encoder) != null && markerDepth != 0) ==>
                e.Failed? && encoder == old(encoder) && unchanged(context)
      ensures old(Dead()) ==> Dead()
      ensures context.Counted()
      ensures context.device.stalled && !old(context.submissionError) ==>
                if old(encoder) == null then
                  old(context.completed) >= old(lastTicket) ==>
                    e.Success? && context.Stands() && unchanged(context`states, context`submissionError, `lastTicket)
                else
                  !old(Dead()) && markerDepth == 0 && old(context.fenceValue) < MAX_U64 - 1 ==>
                    && e.Failed? && encoder == null
                    && context.queue == old(context.queue) + old(list.commands) + [Signal(lastTicket)]
    {
      hide Keeps, ExecuteAll, Context.Valid, LeftBehind, Context.Settled, Suffix;
      HasList(kept);
      ghost var queue, submitted := context.queue, context.submittedLists;
      SuffixSelf(queue);
      var ticket :- Flush(kept);
      KeptTickets(kept);
      ghost var flushed := context.queue;
      e := Recycle(kept);
      if context.submittedLists == submitted {
        SuffixOfSuffix(context.queue, flushed, queue);
      }
    }

    lemma KeptTickets(kept: set<Resource>)
      requires Keeps(kept)
      ensures context.Valid() && lastTicket <= context.fenceValue && context.completed <= context.fenceValue < MAX_U64
    {
    }

    /** The host submitted elsewhere: a good moment to look, never to wait. */
    method OnSubmit() returns (e: Status)
      requires Valid()
      modifies `staging, `pendingImages, `stagedBytes, context`queue, context`completed, context`memory
      ensures Valid() && context.Progressed() && context.SubmitsNothing()
      ensures staging != old(staging) || pendingImages != old(pendingImages) ==>
                encoder == null && context.completed >= lastTicket
      ensures e.Success? && encoder == null && lastTicket != 0 && context.completed >= lastTicket ==>
                staging == [] && pendingImages == [] && stagedBytes == 0
    {
      hide Keeps, ExecuteAll, Context.Valid, Context.Settled, Context.Stands, Names, Suffix;
      context.Unmoved();
      Basics();
      if encoder == null && lastTicket != 0 {
        var done := context.CompletedValue();
        ProgressKeeps({});
        if done.Error? {
          return Failed(done.error);
        }
        if done.value >= lastTicket {
          label Looked:
          staging, pendingImages, stagedBytes := [], [], 0;
          DropKeeps@Looked({});
        }
      }
      return Success;
    }

    method ScopeMarkerBegin(text: string) returns (e: Status)
      requires Valid()
      modifies this, context, list
      ensures Valid() && OwnsNew() && (old(Dead()) ==> Dead())
      ensures bindings == old(bindings) && guest == old(guest) && frames == old(frames) && lastTicket == old(lastTicket)
      ensures e.Success? <==> markerDepth == old(markerDepth) + 1
      ensures e.Failed? ==> markerDepth == old(markerDepth)
      ensures e.Success? ==> encoder != null && 0 < |text| <= 1024
      ensures dangling == old(dangling) && context.SubmitsNothing()
    {
      hide Keeps, ExecuteAll, Context.Valid, Context.Settled, Context.Progressed, Context.Stands, Knows, Suffix;
      context.Unmoved();
      if text == "" || |text| > 1024 {
        return Failed(InvalidArg);
      }
      Basics();
      :- BeginRecording();
      Basics();
      label Open:
      markerDepth := markerDepth + 1;
      MarkerKeeps@Open();
      return Success;
    }

    twostate lemma MarkerKeeps()
      requires unchanged(`bindings, `list, `encoder, `staging, `pendingImages)
      requires unchanged(`lastTicket, `stagedBytes, `guest, `frames)
      requires old(Valid()) && encoder != null && unchanged(context, encoder) && (list != null ==> unchanged(list))
      requires unchanged(`dangling, `others)
      ensures Valid()
    {
      hide Represents, ExecuteAll, Separate, Context.Valid, Context.Settled, Encoder.Valid, Names, Resources, Before;
    }

    method ScopeMarkerEnd() returns (e: Status)
      requires Valid()
      modifies `markerDepth
      ensures Valid()
      ensures e == if encoder == null || old(markerDepth) == 0 then Failed(InvalidArg) else Success
      ensures markerDepth == if e.Success? then old(markerDepth) - 1 else old(markerDepth)
    {
      hide Keeps;
      if encoder == null || markerDepth == 0 {
        return Failed(InvalidArg);
      }
      markerDepth := markerDepth - 1;
      MarkerKeeps();
      return Success;
    }

    /** What a registration may rely on: a free place, an idle bridge, and a default buffer of this device in a free
        range. */
    ghost predicate Registrable(base: nat, r: Resource)
      reads this, context
    {
      && base != 0 && |bindings| < MAX_BINDINGS && encoder == null
      && (lastTicket == 0 || context.completed >= lastTicket)
      && r.IsBuffer() && 0 < r.description.width <= MAX_U64 - base && r.heap == Default && r.device == context.device
      && forall b :: b in bindings ==> b.resource != r && !b.Overlaps(Binding(base, r.description.width, r))
    }

    /** Binds a whole default buffer, in COMMON once the queue is empty, at a free range of guest addresses. */
    method RegisterBuffer(base: U64, r: Resource) returns (e: Status)
      requires Valid() && r in context.memory && r in context.states && context.states[r] == COMMON
      modifies `bindings, `guest, context`queue, context`completed, context`memory
      ensures Valid() && context.Progressed() && context.Stands()
      ensures e.Failed? ==> bindings == old(bindings) && guest == old(guest)
      ensures e == Failed(InvalidArg) ==> !Registrable(base, r)
      ensures context.device.stalled && !context.submissionError ==> e.Success? || e == Failed(InvalidArg)
      ensures e.Success? ==> old(|bindings|) < MAX_BINDINGS && encoder == null
      ensures e.Success? ==> lastTicket == 0 || context.completed >= lastTicket
      ensures context.SubmitsNothing()
      ensures e.Success? ==> bindings == old(bindings) + [Binding(base, r.description.width, r)]
      ensures e.Success? ==> r in old(context.Settled()) && |old(context.Settled())[r]| == r.description.width
      ensures e.Success? ==> guest == Extend(old(guest), base, old(context.Settled())[r])
    {
      hide Keeps, Binding.Overlaps, Context.Settled, Context.Valid, Context.Stands, Suffix;
      :- CheckBuffer(base, r);
      Basics();
      SettledKnown();
      Bind(Binding(base, r.description.width, r));
      return Success;
    }

    method CheckBuffer(base: U64, r: Resource) returns (e: Status)
      requires Valid()
      modifies context`queue, context`completed, context`memory
      ensures Valid() && context.Progressed() && context.Stands() && context.SubmitsNothing()
      ensures e.Success? ==> Registrable(base, r)
      ensures e == Failed(InvalidArg) ==> !Registrable(base, r)
      ensures context.device.stalled && !context.submissionError ==> e.Success? || e == Failed(InvalidArg)
    {
      hide Keeps, Context.Valid, Context.Settled, Binding.Overlaps, Suffix;
      context.Unmoved();
      Basics();
      if base == 0 || |bindings| >= MAX_BINDINGS || encoder != null {
        return Failed(InvalidArg);
      }
      if lastTicket != 0 {
        var done := context.CompletedValue();
        ProgressKeeps({});
        if done.Error? {
          return Failed(done.error);
        }
        if done.value < lastTicket {
          return Failed(InvalidArg);
        }
      }
      if !r.IsBuffer() || r.description.width == 0 || r.description.width > MAX_U64 - base {
        return Failed(InvalidArg);
      }
      var refused := context.device.Refuses();
      if refused {
        return Failed(DeviceError);
      }
      if r.heap != Default || r.device != context.device {
        return Failed(InvalidArg);
      }
      var taken := Taken(Binding(base, r.description.width, r));
      return if taken then Failed(InvalidArg) else Success;
    }

    /** Is this buffer bound, or its range? */
    method Taken(b: Binding) returns (taken: bool)
      ensures taken <==> exists x :: x in bindings && (x.resource == b.resource || x.Overlaps(b))
    {
      for i := 0 to |bindings|
        invariant forall j :: 0 <= j < i ==> bindings[j].resource != b.resource && !bindings[j].Overlaps(b)
      {
        if bindings[i].resource == b.resource || bindings[i].Overlaps(b) {
          assert bindings[i] in bindings;
          return true;
        }
      }
      return false;
    }

    method Bind(b: Binding)
      requires Valid() && b.resource in context.memory && b.resource in context.states
      requires context.states[b.resource] == COMMON
      requires b.size == b.resource.description.width && b.resource in context.Settled()
      requires |context.Settled()[b.resource]| == b.size
      requires b.base <= MAX_U64 && Registrable(b.base, b.resource)
      modifies `bindings, `guest
      ensures Valid() && bindings == old(bindings) + [b]
      ensures guest == Extend(old(guest), b.base, context.Settled()[b.resource])
    {
      hide *;
      guest := Extend(guest, b.base, context.Settled()[b.resource]);
      bindings := bindings + [b];
      BoundKeeps(b);
    }

    twostate lemma BoundKeeps(new b: Binding)
      requires old(Valid()) && old(Registrable(b.base, b.resource)) && b.base <= MAX_U64
      requires b.size == b.resource.description.width
      requires b.resource in context.states && context.states[b.resource] == COMMON && b.resource in context.memory
      requires b.resource in context.Settled() && |context.Settled()[b.resource]| == b.size
      requires unchanged(context, `list, `encoder, `staging, `pendingImages)
      requires unchanged(`lastTicket, `stagedBytes, `markerDepth, `frames)
      requires unchanged(`dangling, `others) && (list != null ==> unchanged(list))
      requires bindings == old(bindings) + [b] && guest == Extend(old(guest), b.base, context.Settled()[b.resource])
      ensures Valid()
    {
      hide ExecuteAll, Context.Valid, Context.Settled, Encoder.Valid, Names, Mirrors, Before, Separate, Resources;
      SeparateMore(old(bindings), b);
      ExtendMirrors(old(guest), old(bindings), context.Settled(), b);
    }

    lemma SeparateMore(bs: seq<Binding>, b: Binding)
      requires Separate(bs) && b.resource.IsBuffer() && b.resource.heap == Default
      requires b.resource.description.width == b.size && 0 < b.base && 0 < b.size && b.base + b.size <= MAX_U64
      requires forall x :: x in bs ==> x.resource != b.resource && !x.Overlaps(b)
      ensures Separate(bs + [b])
      ensures Resources(bs + [b]) == Resources(bs) + {b.resource}
    {
      assert forall r :: r in Resources(bs + [b]) ==> r in Resources(bs) + {b.resource};
      assert (bs + [b])[|bs|] == b;
    }

    method CreateReadback(n: nat) returns (r: Result<Resource>)
      requires Valid()
      modifies context`memory, context`states, context`nextId
      ensures Valid() && context.memory.Keys >= old(context.memory.Keys)
      ensures r.Value? ==> IsReadback(r.value, n)
      ensures context.device.stalled && n != 0 ==> r.Value?
    {
      hide Keeps, ExecuteAll, Context.Valid, Context.Settled, Names;
      Basics();
      r := context.CreateBuffer(n, Readback, COPY_DEST);
      if r.Value? {
        NewResource(r.value, context.memory[r.value], COPY_DEST);
      }
    }

    /** A readback buffer nobody has used yet. */
    ghost predicate IsReadback(r: Resource, n: nat)
      reads context`memory, context`states, context`queue, `dangling
    {
      && r in context.memory && r in context.states && context.states[r] == COPY_DEST && r !in Names(context.queue)
      && r.heap == Readback && r.IsBuffer() && r.description.width == n && r.device == context.device && r !in dangling
    }

    /** The queue, or what is left of it, ends with a batch whose last command names r. */
    predicate EndsWith(cmds: seq<Command>, r: Resource) {
      cmds != [] && r in cmds[|cmds| - 1].Names()
    }

    method RecordReadback(i: nat, address: nat, n: nat, readback: Resource) returns (e: Status)
      requires Valid() && encoder != null && list != null && encoder.list == list && list.open
      requires IsReadback(readback, n) && i < |bindings| && bindings[i].Contains(address, n) && n != 0
      requires readback in encoder.resources && bindings[i].resource in encoder.resources
      modifies encoder`resources, list`commands
      ensures e.Success? && Keeps({readback}) && readback in encoder.resources && EndsWith(list.commands, readback)
      ensures var m := ExecuteAll(context.Settled(), list.commands);
              readback in m && m[readback] == Read(guest, address, n)
    {
      hide Keeps, Represents, ExecuteAll, Encoder.Valid, Names, Execute, Read, Context.Settled;
      hide Context.Valid, Before, BarrierTo;
      Showing();
      ghost var states, cmds := encoder.resources, list.commands;
      var s, o := bindings[i].resource, address - bindings[i].base;
      e := encoder.CopyBuffer(readback, 0, s, o, n);
      BoundHeld(i);
      SettledKnown();
      CopyCommandsCopy(context.Settled(), cmds, states, readback, 0, s, o, n);
      ExecuteKeepsSizes(context.Settled(), cmds);
      ReadbackRepresents(guest, frames, bindings, ExecuteAll(context.Settled(), cmds), i, address, n, readback);
      Recorded({readback});
    }

    /** Drains everything recorded so far, then opens a recording next to a new readback buffer. */
    method PrepareReadback(n: nat) returns (r: Result<Resource>)
      requires Valid()
      modifies this, context, list
      ensures Valid() && OwnsNew() && (old(Dead()) ==> Dead() && r.Error?)
      ensures guest == old(guest) && frames == old(frames) && bindings == old(bindings)
      ensures dangling == old(dangling) && context.Counted()
      ensures old(Dead()) || (old(encoder) != null && old(markerDepth) != 0) ==> r.Error? && unchanged(context)
      ensures r.Value? ==>
                && encoder != null
                && fresh(encoder)
                && list != null
                && list.open
                && list.commands == []
                && markerDepth == 0
      ensures r.Value? ==> IsReadback(r.value, n) && staging == [] && pendingImages == [] && Knows()
      ensures r.Value? || encoder == null ==>
                context.fenceValue == old(context.fenceValue) + if old(encoder) == null then 0 else 1
      ensures old(Quiet()) && n != 0 ==>
                r.Value? && !context.submissionError && context.fenceValue == old(context.fenceValue)
    {
      hide Keeps, ExecuteAll, Context.Valid, Context.Settled, Suffix;
      ghost var queue, submitted := context.queue, context.submittedLists;
      var e := Finish({});
      ghost var finished := context.queue;
      if e.Failed? {
        return Error(e.error);
      }
      r := CreateReadback(n);
      if r.Error? {
        return;
      }
      e := BeginRecording();
      if context.submittedLists == submitted {
        SuffixOfSuffix(context.queue, finished, queue);
      }
      if e.Failed? {
        return Error(e.error);
      }
      Basics();
    }

    /** Nothing recorded, nothing of the last batch outstanding, on a device that takes all work, does none and sets no
        events. */
    predicate Quiet()
      reads this`encoder, this`lastTicket, context`submissionError, context`completed
    {
      context.device.stalled && encoder == null && !context.submissionError && context.completed >= lastTicket
    }

    /** Everything recorded reaches the device, then the range is read back. A failed second wait lets the readback
        buffer go although the device may still write it: the only way a resource in use is given up. The batch behind
        the last ticket ends with the copy, so the buffer is lost exactly when more than that ticket is left of it. */
    method DownloadBuffer(address: nat, n: nat) returns (e: Status, output: Bytes)
      requires Valid()
      modifies this, context, list, encoder
      ensures Valid() && OwnsNew() && (old(Dead()) ==> Dead())
      ensures e.Success? ==> output == Read(guest, address, n)
      ensures guest == old(guest) && frames == old(frames) && bindings == old(bindings)
      ensures old(Dead()) ==> e.Failed?
      ensures context.Counted()
      ensures old(Dead()) || (old(encoder) != null && old(markerDepth) != 0) || !Reachable(address, n) ==>
                e.Failed? && unchanged(context)
      ensures dangling != old(dangling) <==>
                && e.Failed? && encoder == null && |context.queue| >= 2
                && context.fenceValue == old(context.fenceValue) + if old(encoder) == null then 1 else 2
      ensures dangling >= old(dangling) && dangling - old(dangling) <= Names(context.queue) - Held()
      ensures old(Quiet()) && old(context.fenceValue) < MAX_U64 - 1 && Reachable(address, n) ==>
                e.Failed? && dangling != old(dangling)
    {
      hide Keeps, ExecuteAll, Read, Context.Valid, Context.Settled, Suffix, Quiet, Names, Bridge.Held, Separate;
      output := [];
      Basics();
      SuffixSelf(context.queue);
      var i :- Find(address, n);
      assert bindings[i] in bindings;
      e, output := DownloadRange(i, address, n);
    }

    method DownloadRange(i: nat, address: nat, n: nat) returns (e: Status, output: Bytes)
      requires Valid() && i < |bindings| && bindings[i].Contains(address, n) && 0 < n <= MAX_TRANSFER
      modifies this, context, list, encoder
      ensures Valid() && OwnsNew() && (old(Dead()) ==> Dead())
      ensures e.Success? ==> output == Read(guest, address, n)
      ensures guest == old(guest) && frames == old(frames) && bindings == old(bindings)
      ensures old(Dead()) ==> e.Failed?
      ensures context.Counted()
      ensures old(Dead()) || (old(encoder) != null && old(markerDepth) != 0) ==>
                e.Failed? && unchanged(context)
      ensures dangling != old(dangling) <==>
                && e.Failed? && encoder == null && |context.queue| >= 2
                && context.fenceValue == old(context.fenceValue) + if old(encoder) == null then 1 else 2
      ensures dangling >= old(dangling) && dangling - old(dangling) <= Names(context.queue) - Held()
      ensures old(Quiet()) && old(context.fenceValue) < MAX_U64 - 1 ==> e.Failed? && dangling != old(dangling)
    {
      hide Keeps, ExecuteAll, Read, Context.Valid, Context.Settled, Context.Progressed, Context.Stands, Suffix, Knows,
           Separate,
           Names, Bridge.Held, Binding.Contains;
      output := [];
      ghost var queue, submitted := context.queue, context.submittedLists;
      var prepared := PrepareReadback(n);
      Basics();
      var readback :- prepared;
      OnlyBindingsHeld(readback);
      ghost var ready := context.queue;
      e, output := Fetch(i, address, n, readback);
      if context.submittedLists == submitted {
        SuffixOfSuffix(context.queue, ready, queue);
      }
    }

    lemma OnlyBindingsHeld(readback: Resource)
      requires Separate(bindings) && staging == [] && pendingImages == [] && readback.heap == Readback
      ensures readback !in Held()
    {
    }

    method Fetch(i: nat, address: nat, n: nat, readback: Resource) returns (e: Status, output: Bytes)
      requires Valid() && encoder != null && list != null && encoder.list == list && list.open && list.commands == []
      requires markerDepth == 0
      requires IsReadback(readback, n) && readback !in Held() && i < |bindings| && bindings[i].Contains(address, n)
      requires n != 0 && Knows()
      modifies `lastTicket, `encoder, `staging, `pendingImages, `stagedBytes, `dangling, list, context, encoder
      ensures Valid() && (encoder == null || encoder == old(encoder))
      ensures e.Success? ==> output == Read(guest, address, n)
      ensures context.Counted()
      ensures dangling != old(dangling) <==>
                e.Failed? && encoder == null && |context.queue| >= 2
                    && context.fenceValue == old(context.fenceValue) + 1
      ensures dangling >= old(dangling) && dangling - old(dangling) <= Names(context.queue) - Held()
      ensures context.device.stalled && !old(context.submissionError) && old(context.fenceValue) < MAX_U64 - 1 ==>
                e.Failed? && dangling != old(dangling)
    {
      hide Keeps, ExecuteAll, Read, Context.Valid, Context.Settled, ValidState, Names, Execute;
      output := [];
      Untracked(readback);
      MayBeCopied(readback);
      :- TrackHere(readback, COPY_DEST);
      assert bindings[i] in bindings;
      e := RecordReadback(i, address, n, readback);
      ghost var queue, cmds := context.queue, list.commands;
      e := Finish({readback});
      if e.Failed? {
        if encoder == null {
          EndOfBatch(queue, cmds, context.queue, lastTicket, readback);
        }
        LetGo(readback);
        return;
      }
      TicketLast(queue + cmds, context.queue, lastTicket);
      NoNames();
      var refused := context.device.Refuses();
      if refused {
        return Failed(DeviceError), output;
      }
      AtRest(readback);
      output := context.memory[readback];
    }

    lemma Untracked(readback: Resource)
      requires encoder != null && Knows() && readback !in Held()
      ensures readback !in encoder.resources
    {
    }

    /** What the queue does not name holds its bytes already. */
    lemma AtRest(r: Resource)
      requires r !in Names(context.queue) && r in context.memory
      ensures r in context.Settled() && context.Settled()[r] == context.memory[r]
    {
      hide ExecuteAll;
      ExecuteAllLeaves(context.memory, {r}, context.queue);
    }

    /** A batch that ends by naming r, and its ticket: what is left names r while it is more than the ticket. */
    lemma EndOfBatch(queue: seq<Command>, cmds: seq<Command>, rest: seq<Command>, ticket: nat, r: Resource)
      requires Suffix(rest, queue + cmds + [Signal(ticket)]) && EndsWith(cmds, r)
      ensures r in Names(rest) <==> |rest| >= 2
    {
      var all := queue + cmds + [Signal(ticket)];
      assert all[|all| - 2] == cmds[|cmds| - 1];
      if |rest| >= 2 {
        assert rest[|rest| - 2] == all[|all| - 2];
        assert rest[|rest| - 2] in rest;
      } else if |rest| == 1 {
        assert rest == [Signal(ticket)];
      }
    }

    /** The ticket is the last thing queued: when it is gone, all is. */
    lemma TicketLast(queue: seq<Command>, rest: seq<Command>, ticket: nat)
      requires Suffix(rest, queue + [Signal(ticket)])
      ensures rest == [] || Signal(ticket) in rest
    {
      if rest != [] {
        assert rest[|rest| - 1] == Signal(ticket);
      }
    }

    /** The local owner of the readback buffer goes; the encoder, if there is one, still owns it. */
    method LetGo(readback: Resource)
      requires Keeps({readback}) && (encoder == null || (Dead() && readback in encoder.resources))
      requires readback !in Held()
      requires readback in context.memory && readback.heap == Readback && readback !in dangling
      modifies `dangling
      ensures Valid()
      ensures dangling != old(dangling) <==> encoder == null && readback in Names(context.queue)
      ensures dangling >= old(dangling) && dangling - old(dangling) <= Names(context.queue) - Held()
    {
      hide Represents, ExecuteAll, Separate, Context.Valid, Context.Settled, Encoder.Valid, Names, Resources;
      if encoder == null {
        dangling := dangling + {readback} * Names(context.queue);
      }
    }

    /** The bridge goes, when the wait fails too, and with it the last references to its staging buffers and images.
        What it frees is not in use after a successful wait unless a recording is stuck. */
    method Destroy() returns (waited: Status, ghost freed: set<Resource>)
      requires Valid()
      modifies context`queue, context`completed, context`memory, context`blockingWaits
      ensures Valid() && context.Progressed() && context.Stands()
      ensures freed == Elements(staging) + Elements(pendingImages)
      ensures waited.Success? && !Dead() ==> freed !! Names(context.queue)
      ensures context.device.stalled ==>
                (waited.Success? <==> !context.submissionError && lastTicket <= context.completed)
    {
      hide Represents, ExecuteAll, Separate, Context.Valid, Context.Settled, Encoder.Valid, Names, Resources, Before,
           Suffix;
      freed := Elements(staging) + Elements(pendingImages);
      KeptTickets({});
      waited := context.Wait(lastTicket);
      ProgressKeeps({});
      if waited.Success? && encoder == null {
        TicketGone();
        BeforeDone(context.queue, lastTicket, Transient() + {});
      }
      assert Transient() + {} == Transient();
    }

    method CreateFrame(d: Description) returns (r: Result<Resource>)
      requires Valid() && !d.simultaneousAccess && !d.denyShaderResource
      modifies context`memory, context`states, context`nextId
      ensures Valid() && context.memory.Keys >= old(context.memory.Keys)
      ensures r.Value? ==> IsFrame(r.value)
    {
      hide Keeps, ExecuteAll, Context.Valid, Context.Settled, Names;
      Basics();
      StatesKnown();
      r := context.CreateTexture2D(d, COPY_DEST);
      if r.Value? {
        NewResource(r.value, [], COPY_DEST);
      }
    }

    ghost predicate IsFrame(r: Resource)
      reads context`memory, context`states, context`queue
    {
      && r in context.memory && r in context.states && context.states[r] == COPY_DEST && r !in Names(context.queue)
      && !r.IsBuffer() && r.heap == Default && !r.description.simultaneousAccess && !r.description.denyShaderResource
    }

    /** The bridge keeps a reference of its own until the batch is done. */
    method Retain(frame: Resource)
      requires Valid() && IsFrame(frame)
      modifies `pendingImages
      ensures Valid() && frame in Held()
    {
      hide *;
      pendingImages := pendingImages + [frame];
      RetainKeeps(frame);
    }

    twostate lemma RetainKeeps(new frame: Resource)
      requires unchanged(`bindings, `list, `encoder, `staging, `markerDepth, `lastTicket, `stagedBytes, `guest, `frames)
      requires old(Valid()) && unchanged(context) && IsFrame(frame) && (encoder != null ==> unchanged(encoder))
      requires (list != null ==> unchanged(list)) && pendingImages == old(pendingImages) + [frame]
      requires unchanged(`dangling, `others)
      ensures Valid() && frame in Held()
    {
      hide Represents, ExecuteAll, Separate, Context.Valid, Context.Settled, Encoder.Valid, Names, Resources, Before;
      assert Transient() + {} == old(Transient()) + {} + {frame};
      if encoder == null {
        BeforeGrows(context.queue, lastTicket, old(Transient()) + {}, {frame});
      }
    }

    method RecordFrame(i: nat, a: nat, f: Footprint, n: nat, frame: Resource, planes: nat) returns (e: Status)
      requires Valid() && encoder != null && list != null && encoder.list == list && frame in Held()
      requires !frame.IsBuffer()
      requires i < |bindings| && bindings[i].Contains(a, n) && f.offset == a - bindings[i].base && Fits(f, n)
      modifies `frames, encoder`resources, list`commands
      ensures Valid()
      ensures frames == if e.Success? then old(frames)[frame := Picture(guest, a, n, f)] else old(frames)
      ensures e.Success? ==> frame in encoder.resources
    {
      hide Keeps, Represents, ExecuteAll, Separate, Context.Valid, Encoder.Valid, Names, TextureCopyCommands,
           TextureCopyAccepted, Sized, Fits, Picture, Context.Settled;
      Showing();
      HeldKnown(frame);
      ghost var states, cmds := encoder.resources, list.commands;
      var s := bindings[i].resource;
      :- encoder.CopyTexture(frame, s, f, planes, f, true);
      TextureAccepted(states, frame, s, f, planes, f);
      BoundHeld(i);
      SettledKnown();
      if list.open {
        FrameRecorded(guest, frames, bindings, context.Settled(), cmds, states, i, a, f, n, frame);
      }
      frames := frames[frame := Picture(guest, a, n, f)];
      Recorded({});
      return Success;
    }

    method FinishFrame(frame: Resource) returns (e: Status)
      requires Valid() && encoder != null && list != null && encoder.list == list && frame in Held() && IsFrame(frame)
      requires frame in encoder.resources
      modifies encoder`resources, list`commands
      ensures Valid() && e.Success?
    {
      hide Keeps, Represents, ExecuteAll, Separate, Encoder.Valid, Names, BarrierTo, ValidState, Context.Settled;
      Showing();
      ghost var states, cmds := encoder.resources, list.commands;
      MayBeShown(frame);
      e := encoder.Transition(frame, PIXEL_SHADER_RESOURCE);
      if list.open {
        BarrierMovesNothing(context.Settled(), cmds, states, frame, PIXEL_SHADER_RESOURCE);
        BarrierNames(cmds, states, frame, PIXEL_SHADER_RESOURCE);
      }
      Recorded({});
    }

    /** A picture of pitch * height bytes of guest memory, as they are at the call. layout is what the device
        reports for a BGRA8 texture of this size at the range's offset, planes its answer on the format. */
    method CreateLinearFrame(address: nat, width: nat, height: nat, pitch: nat, occupied: bool, layout: Footprint,
                             planes: nat)
      returns (e: Status, output: seq<Resource>)
      requires Valid() && layout.rows == height && layout.rowBytes == 4 * width
      modifies this, context, list, encoder
      ensures Valid() && OwnsNew() && (old(Dead()) ==> Dead())
      ensures guest == old(guest) && bindings == old(bindings) && lastTicket == old(lastTicket)
      ensures markerDepth == old(markerDepth) && dangling == old(dangling)
      ensures context.SubmitsNothing()
      ensures e.Success? ==> |output| == 1 && !occupied && encoder != null
      ensures e.Success? ==>
                && frames == old(frames)[output[0] := Picture(guest, address, pitch * height, layout)]
                && layout.pitch == pitch
      ensures e.Failed? ==> output == [] && frames == old(frames)
    {
      hide Keeps, ExecuteAll, Picture, Context.Settled, Context.Valid, Context.Progressed, Context.Stands, Knows,
           Suffix;
      output := [];
      context.Unmoved();
      Basics();
      if width == 0 || height == 0 || width > 4096 || height > 4096 || occupied {
        return Failed(InvalidArg), output;
      }
      var i :- Find(address, pitch * height);
      var offset := address - bindings[i].base;
      if offset % 512 != 0 || layout.offset != offset || layout.pitch != pitch || pitch < width * 4 {
        return Failed(InvalidArg), output;
      }
      var d := Description(Texture2D, width, height, 1, 1, B8G8R8A8_UNORM, 1, false, false, false, false, false);
      e, output := RecordNewFrame(d, i, address, layout, pitch * height, planes);
    }

    method RecordNewFrame(d: Description, i: nat, a: nat, f: Footprint, n: nat, planes: nat)
      returns (e: Status, output: seq<Resource>)
      requires Valid() && !d.simultaneousAccess && !d.denyShaderResource
      requires i < |bindings| && bindings[i].Contains(a, n) && f.offset == a - bindings[i].base && Fits(f, n)
      modifies this, context, list, encoder
      ensures Valid() && OwnsNew() && (old(Dead()) ==> Dead())
      ensures guest == old(guest) && bindings == old(bindings) && lastTicket == old(lastTicket)
      ensures markerDepth == old(markerDepth) && dangling == old(dangling)
      ensures context.SubmitsNothing()
      ensures e.Success? ==>
                |output| == 1 && encoder != null && frames == old(frames)[output[0] := Picture(guest, a, n, f)]
      ensures e.Failed? ==> output == [] && frames == old(frames)
    {
      hide Keeps, ExecuteAll, Picture, Fits, Context.Settled, Context.Valid, Context.Stands, Knows, Suffix, Names,
           Binding.Contains;
      output := [];
      context.Unmoved();
      Basics();
      var created := CreateFrame(d);
      var frame :- created;
      :- BeginRecording();
      Basics();
      e := EmitFrame(i, a, f, n, frame, planes);
      if e.Success? {
        output := [frame];
      }
    }

    method EmitFrame(i: nat, a: nat, f: Footprint, n: nat, frame: Resource, planes: nat) returns (e: Status)
      requires Valid() && encoder != null && list != null && encoder.list == list && IsFrame(frame)
      requires i < |bindings| && bindings[i].Contains(a, n) && f.offset == a - bindings[i].base && Fits(f, n)
      modifies `frames, `pendingImages, encoder, list`commands
      ensures Valid()
      ensures frames == if e.Success? then old(frames)[frame := Picture(guest, a, n, f)] else old(frames)
    {
      hide Keeps, Fits, Picture;
      Retain(frame);
      :- TrackHere(frame, COPY_DEST);
      :- RecordFrame(i, a, f, n, frame, planes);
      e := FinishFrame(frame);
    }

    /** Markers are open only within a recording. */
    lemma MarkersNeedRecording()
      requires Valid()
      ensures markerDepth > 0 ==> encoder != null
    {
    }

    /** Whatever a recording or the queue still names is held by a binding, staging, a pending image or the encoder, or
        is named by the lists of others. The only exception is a readback buffer a failed download gave up. An open
        recording names nothing but what is held, and none of it but bindings is still named by the queue. */
    lemma NothingInUseIsGone()
      requires Valid()
      ensures forall r :: r in Names(context.queue) ==>
                            r in Held() || r in others || (encoder != null && r in encoder.resources)
                            || (r in dangling && r.heap == Readback)
      ensures encoder != null ==> list != null && Names(list.commands) <= encoder.resources.Keys
      ensures encoder != null && list.open ==> Names(list.commands) <= Held() && Names(context.queue) !! Transient()
    {
      hide Represents, ExecuteAll, Separate, Context.Valid, Context.Settled, Names, Resources, Legal, Run, ValidState,
           Before;
      if encoder != null {
        RunKeepsKeys(encoder.initial, list.commands);
      }
    }

    /** Staging buffers and images are named only in front of the last ticket, so once it is done they may go. */
    lemma BatchInFrontOfTicket()
      requires Valid() && encoder == null
      ensures Before(context.queue, lastTicket, Transient())
      ensures context.completed >= lastTicket ==> Names(context.queue) !! Transient()
    {
      hide Represents, ExecuteAll, Separate, Context.Settled, Resources, Before;
      assert Transient() + {} == Transient();
      if context.completed >= lastTicket {
        TicketGone();
        BeforeDone(context.queue, lastTicket, Transient());
      }
    }

    /** A frame whose commands have all run shows the rows of guest memory it was made from. */
    lemma FrameShows(f: Resource)
      requires Valid() && encoder == null && f in frames && f !in Names(context.queue)
      ensures f in context.memory && context.memory[f] == frames[f]
    {
      hide ExecuteAll, Context.Settled, Mirrors;
      SettledKnown();
      AtRest(f);
    }

    // ----- the rest of the shell -------------------------------------------------------------------------------------

    /** May others execute these commands? They need fitting states, and must leave what the bridge holds or tracks. */
    predicate MayExecute(commands: seq<Command>)
      reads context`states, this`bindings, this`staging, this`pendingImages, this`encoder, encoder
    {
      && Legal(context.states, commands) && Names(commands) !! Held()
      && (encoder != null ==> Names(commands) !! encoder.resources.Keys)
    }

    /** Another part of the shell submits a list on the same queue, whether or not it gets a ticket. What happens to
        frames it names is its own affair from then on. */
    method Elsewhere(commands: seq<Command>) returns (e: Status)
      requires Valid()
      modifies `frames, `others
      modifies context`queue, context`fenceValue, context`submissionError, context`unticketed, context`submittedLists
      modifies context`states
      ensures Valid()
      ensures e == if old(MayExecute(commands)) then Success else Failed(InvalidArg)
      ensures frames == if e.Success? then old(frames) - Names(commands) else old(frames)
      ensures e.Failed? ==> unchanged(context)
      ensures context.Counted()
      ensures e.Success? && !old(context.submissionError) ==>
                || context.queue == old(context.queue) + commands
                || context.queue == old(context.queue) + commands + [Signal(context.fenceValue)]
    {
      hide Keeps, ExecuteAll, Context.Valid, Context.Settled, Legal, Names;
      if !MayExecute(commands) {
        return Failed(InvalidArg);
      }
      Basics();
      var l := new CommandList(context.device);
      l.commands, l.open := commands, false;
      var refused := context.submissionError;
      var r := context.Submit(l);
      frames := frames - Names(commands);
      others := others + Names(commands);
      if refused {
        FewerKeep();
      } else {
        OthersKeep(commands, context.fenceValue);
      }
      return Success;
    }

    /** What a list of others changes. */
    twostate lemma OthersKeep(new commands: seq<Command>, new ticket: nat)
      requires old(Valid()) && context.Valid() && old(MayExecute(commands))
      requires unchanged(`bindings, `list, `encoder, `staging, `pendingImages)
      requires unchanged(`lastTicket, `stagedBytes, `markerDepth, `guest, `dangling)
      requires (list != null ==> unchanged(list)) && (encoder != null ==> unchanged(encoder))
      requires unchanged(context`memory) && context.fenceValue >= old(context.fenceValue)
      requires frames == old(frames) - Names(commands) && others == old(others) + Names(commands)
      requires context.states == Decayed(Run(old(context.states), commands))
      requires context.queue == old(context.queue) + commands
                   || context.queue == old(context.queue) + commands + [Signal(ticket)]
      ensures Valid()
    {
      hide Represents, ExecuteAll, Separate, Context.Valid, Context.Settled, Names, Resources, Legal, Run, ValidState,
           Before, Extends, Encoder.Valid, Decayed;
      context.Submitted(commands, ticket);
      SettledKnownBefore();
      FewerFrames(old(frames), frames);
      OthersLeave(old(context.states), commands);
      if encoder == null {
        OthersIdle(commands, ticket);
      } else if list.open {
        OthersRecording(commands);
      }
    }

    lemma OthersLeave(states: States, commands: seq<Command>)
      requires Names(commands) !! Resources(bindings)
      requires forall r :: r in Resources(bindings) ==> r in states && states[r] == COMMON
      ensures forall r :: r in Resources(bindings) ==>
                      r in Decayed(Run(states, commands)) && Decayed(Run(states, commands))[r] == COMMON
    {
      hide Run, Names, Resources, Decayed;
      forall r | r in Resources(bindings)
        ensures r in Decayed(Run(states, commands)) && Decayed(Run(states, commands))[r] == COMMON
      {
        StatesLeft(states, commands, r);
      }
    }

    twostate lemma OthersRecording(new commands: seq<Command>)
      requires unchanged(`encoder, `list, `bindings) && encoder != null && list != null && unchanged(encoder, list)
      requires encoder.Valid() && encoder.list == list
      requires Names(commands) !! Resources(bindings) + frames.Keys + encoder.resources.Keys
      requires Represents(guest, frames, bindings, ExecuteAll(old(context.Settled()), list.commands))
      requires Sized(old(context.Settled()))
      requires old(Extends(context.states, encoder.initial))
      requires context.states == Decayed(Run(old(context.states), commands))
      requires forall r :: r in encoder.initial && r.Decays() ==> encoder.initial[r] == COMMON
      requires context.Settled() == ExecuteAll(old(context.Settled()), commands)
      ensures Extends(context.states, encoder.initial)
      ensures Represents(guest, frames, bindings, ExecuteAll(context.Settled(), list.commands))
    {
      hide Represents, ExecuteAll, Context.Settled, Names, Resources, Legal, Run, ValidState;
      RunKeepsKeys(encoder.initial, list.commands);
      ElsewhereRepresents(guest, frames, bindings, old(context.Settled()), list.commands, commands);
      forall r | r in encoder.initial ensures r in context.states && context.states[r] == encoder.initial[r] {
        StatesLeft(old(context.states), commands, r);
      }
    }

    twostate lemma OthersIdle(new commands: seq<Command>, new ticket: nat)
      requires Represents(guest, frames, bindings, old(context.Settled())) && Sized(old(context.Settled()))
      requires old(Before(context.queue, lastTicket, Transient() + {}))
      requires unchanged(`bindings, `lastTicket, `staging, `pendingImages)
      requires context.Settled() == ExecuteAll(old(context.Settled()), commands)
      requires Names(commands) !! Held() + frames.Keys
      requires context.queue == old(context.queue) + commands
                   || context.queue == old(context.queue) + commands + [Signal(ticket)]
      ensures Represents(guest, frames, bindings, context.Settled())
      ensures Before(context.queue, lastTicket, Transient() + {})
    {
      hide Represents, ExecuteAll, Context.Settled, Names, Resources, Before;
      ExecuteNothing(old(context.Settled()));
      ExecuteNothing(context.Settled());
      NoNames();
      ElsewhereRepresents(guest, frames, bindings, old(context.Settled()), [], commands);
      BeforeMore(old(context.queue), commands, lastTicket, Transient() + {});
      SignalNamesNothing(ticket);
      BeforeMore(old(context.queue) + commands, [Signal(ticket)], lastTicket, Transient() + {});
    }

    twostate lemma FewerKeep()
      requires old(Valid()) && frames.Keys <= old(frames).Keys
      requires (forall f :: f in frames ==> frames[f] == old(frames)[f])
      requires unchanged(`bindings, `list, `encoder, `staging, `pendingImages)
      requires unchanged(`lastTicket, `stagedBytes, `markerDepth, `guest, `dangling)
      requires (list != null ==> unchanged(list)) && (encoder != null ==> unchanged(encoder)) && unchanged(context)
      requires others >= old(others)
      ensures Valid()
    {
      hide Represents, ExecuteAll, Separate, Context.Valid, Context.Settled, Names, Resources, Legal, Run, ValidState,
           Before;
      FewerFrames(old(frames), frames);
    }

    /** The device works on between two calls. */
    method Progress()
      requires Valid()
      modifies context`queue, context`completed, context`memory
      ensures Valid() && context.Progressed() && Suffix(context.queue, old(context.queue))
    {
      hide Keeps, Context.Valid;
      Basics();
      context.Progress();
      ProgressKeeps({});
    }

    lemma FewerFrames(many: Memory, few: Memory)
      requires few.Keys <= many.Keys && forall f :: f in few ==> few[f] == many[f]
      ensures forall m :: Represents(guest, many, bindings, m) ==> Represents(guest, few, bindings, m)
    {
      hide Mirrors;
    }

    lemma StatesLeft(states: States, cmds: seq<Command>, r: Resource)
      requires r in states && r !in Names(cmds) && r.AtBoundary(states[r]) == states[r]
      ensures var end := Decayed(Run(states, cmds)); r in end && end[r] == states[r]
    {
      RunLeaves(states, r, cmds);
    }

    lemma StatesKnown()
      requires context.Valid()
      ensures context.states.Keys == context.memory.Keys && Sized(context.memory)
      ensures Names(context.queue) <= context.memory.Keys
    {
    }

    lemma HeldKnown(r: Resource)
      requires Valid() && r in Held()
      ensures r in context.memory
    {
    }

    lemma Basics()
      requires Valid()
      ensures context.Valid() && (encoder != null ==> list != null && encoder.list == list)
      ensures Separate(bindings) && stagedBytes <= MAX_TRANSFER && lastTicket <= context.fenceValue
    {
    }

    lemma Showing()
      requires Valid() && encoder != null && list != null
      ensures context.Valid() && Separate(bindings) && encoder.Valid()
      ensures list.open ==> Represents(guest, frames, bindings, ExecuteAll(context.Settled(), list.commands))
      ensures list.open ==> Names(list.commands) <= Held()
    {
    }
  }

  // ----- a download that loses its buffer ----------------------------------------------------------------------------

  /** A bridge that comes to hold a queued copy into a readback buffer nobody owns. */
  method LoseReadback() returns (b: Bridge)
    ensures fresh(b) && fresh(b.context) && b.Valid() && b.encoder == null
    ensures exists r :: r in b.dangling && r in Names(b.context.queue) && r !in b.Held()
  {
    hide b.Keeps, Context.Valid, Context.Settled, Context.Progressed, Names, Binding.Overlaps, Bridge.Held;
    var c := new Context(Device(0, true));
    var made := c.CreateBuffer(4, Default, COMMON);
    b := new Bridge(c);
    var r := made.value;
    var bound := b.RegisterBuffer(0x1000, r);
    assert b.bindings[0].Contains(0x1000, 4);
    ghost var before := b.dangling;
    var e, bytes := b.DownloadBuffer(0x1000, 4);
    assert before == {} && b.dangling != before;
    ghost var lost :| lost in b.dangling;
    assert lost in b.dangling - before;
    assert lost in Names(b.context.queue) && lost !in b.Held();
  }

  // ----- a recording that is stuck when its bridge goes --------------------------------------------------------------

  /** The last ticket is spent, a flush executes its list without one, and the bridge goes: what it frees is still
      queued, although the last wait succeeds. */
  method LoseStaging() returns (b: Bridge, waited: Status, ghost freed: set<Resource>)
    ensures fresh(b) && b.Valid() && b.Dead() && waited.Success?
    ensures !(freed !! Names(b.context.queue))
  {
    hide b.Keeps, Context.Valid, Context.Settled, Context.Progressed, Names, Suffix, Context.Counted;
    var c := NearlySpent();
    b := FilledBridge(c);
    ghost var upload := b.staging[|b.staging| - 1];
    ghost var queue, cmds := c.queue, b.list.commands;
    var flushed := b.Flush({});
    b.KeptTickets({});
    NamesAdd(queue, cmds);
    waited, freed := b.Destroy();
    assert upload in freed;
  }

  /** A bridge with one fill recorded. */
  method FilledBridge(c: Context) returns (b: Bridge)
    requires c.Valid() && c.device.stalled && !c.submissionError
    modifies c
    ensures fresh(b) && b.context == c && b.Valid() && b.lastTicket == 0 && b.markerDepth == 0
    ensures b.encoder != null && fresh(b.encoder) && b.list != null && fresh(b.list) && b.list.open
    ensures b.encoder.list == b.list
    ensures b.staging != [] && b.staging[|b.staging| - 1] in Names(b.list.commands)
    ensures !c.submissionError && c.fenceValue == old(c.fenceValue) && c.completed == old(c.completed)
  {
    hide b.Keeps, Context.Valid, Context.Settled, Context.Progressed, Names, Binding.Overlaps, Bridge.Held, Suffix;
    var made := c.CreateBuffer(4, Default, COMMON);
    b := new Bridge(c);
    var r := made.value;
    var bound := b.RegisterBuffer(0x1000, r);
    assert b.bindings[0].Contains(0x1000, 4);
    var filled := b.FillBuffer(0x1000, 4, 0, false);
    b.Basics();
  }

  /** A stalled device's queue with one ticket less than it takes. */
  method NearlySpent() returns (c: Context)
    ensures fresh(c) && c.Valid() && c.device.stalled && !c.submissionError
    ensures c.fenceValue == c.completed == MAX_U64 - 1
  {
    c := new Context(Device(0, true));
    c.fenceValue, c.completed := MAX_U64 - 1, MAX_U64 - 1;
  }

  // ----- every sequence of calls -------------------------------------------------------------------------------------

  /** What a host may do with a bridge, and what may go on around it. */
  datatype Call =
    | Register(base: U64, size: nat)
    | Fill(address: nat, n: nat, value: bv32, gds: bool)
    | Copy(dst: nat, src: nat, n: nat, dstGds: bool, srcGds: bool)
    | Flush
    | Finish
    | HostSubmit
    | MarkerBegin(text: string)
    | MarkerEnd
    | Download(address: nat, n: nat)
    | Frame(address: nat, width: nat, height: nat, pitch: nat, occupied: bool, offset: nat, layoutPitch: nat,
            planes: nat)
    | Others(commands: seq<Command>)
    | DeviceWorks

  /** The outcome, the bytes of a download, the texture of a frame. */
  datatype Reply = Reply(status: Status, bytes: Bytes, frame: seq<Resource>)

  /** Flat guest memory, and the frames handed out with the bytes they are to show. */
  datatype View = View(guest: Guest, frames: Memory)

  /** The device's layout of a BGRA8 texture. */
  function Layout(c: Call): Footprint
    requires c.Frame?
  {
    Footprint(c.offset, B8G8R8A8_UNORM, c.width, c.height, 1, c.layoutPitch, c.height, 4 * c.width)
  }

  /** What a call does to the view: at once when accepted, nothing when not. */
  function Apply(v: View, c: Call, r: Reply): View {
    if r.status.Failed? then v
    else match c
      case Register(base, size) => v.(guest := Extend(v.guest, base, Zeros(size)))
      case Fill(a, n, value, _) => v.(guest := Write(v.guest, a, Pattern(value, n)))
      case Copy(d, s, n, _, _) => v.(guest := Write(v.guest, d, Read(v.guest, s, n)))
      case Frame(a, _, _, _, _, _, _, _) =>
        if r.frame == [] then v
        else v.(frames := v.frames[r.frame[0] := Picture(v.guest, a, c.pitch * c.height, Layout(c))])
      case Others(commands) => v.(frames := v.frames - Names(commands))
      case _ => v
  }

  function ApplyAll(v: View, calls: seq<Call>, replies: seq<Reply>): View
    requires |calls| == |replies|
  {
    if calls == [] then v
    else
      var n := |calls| - 1;
      Apply(ApplyAll(v, calls[..n], replies[..n]), calls[n], replies[n])
  }

  /** Every successful download returned the bytes flat guest memory held at that call. */
  predicate Truthful(v: View, calls: seq<Call>, replies: seq<Reply>)
    requires |calls| == |replies|
  {
    forall i :: 0 <= i < |calls| && calls[i].Download? && replies[i].status.Success? ==>
                  replies[i].bytes == Read(ApplyAll(v, calls[..i], replies[..i]).guest, calls[i].address, calls[i].n)
  }

  /** A new default buffer of zeros, bound at base. */
  method CreateAndRegister(b: Bridge, base: U64, size: nat) returns (e: Status)
    requires b.Valid()
    modifies b, b.context
    ensures b.Valid() && b.encoder == old(b.encoder) && b.list == old(b.list) && b.frames == old(b.frames)
    ensures Suffix(b.context.queue, old(b.context.queue))
    ensures b.guest == if e.Success? then Extend(old(b.guest), base, Zeros(size)) else old(b.guest)
  {
    hide b.Keeps, Context.Valid, Context.Settled, Context.Progressed, Zeros, Extend, Suffix;
    b.Basics();
    SuffixSelf(b.context.queue);
    label Before:
    var made := b.context.CreateBuffer(size, Default, COMMON);
    if made.Error? {
      return Failed(made.error);
    }
    b.NewResource@Before(made.value, Zeros(size), COMMON);
    b.AtRest(made.value);
    e := b.RegisterBuffer(base, made.value);
  }

  /** The calls that may put something into the queue. */
  predicate MaySubmit(c: Call) {
    c.Flush? || c.Finish? || c.Download? || c.Others?
  }

  method Perform(b: Bridge, c: Call) returns (r: Reply)
    requires b.Valid()
    modifies b, b.context, b.list, b.encoder
    ensures b.Valid() && b.OwnsNew()
    ensures View(b.guest, b.frames) == Apply(old(View(b.guest, b.frames)), c, r)
    ensures c.Download? && r.status.Success? ==> r.bytes == Read(old(b.guest), c.address, c.n)
    ensures b.Dead() || !old(b.Dead())
    ensures !MaySubmit(c) ==> Suffix(b.context.queue, old(b.context.queue))
  {
    hide *;
    if c.Flush? || c.Finish? || c.Download? || c.Others? {
      r := PerformSubmitting(b, c);
    } else {
      r := PerformRecording(b, c);
    }
  }

  method PerformSubmitting(b: Bridge, c: Call) returns (r: Reply)
    requires b.Valid() && (c.Flush? || c.Finish? || c.Download? || c.Others?)
    modifies b, b.context, b.list, b.encoder
    ensures b.Valid() && b.OwnsNew() && MaySubmit(c)
    ensures View(b.guest, b.frames) == Apply(old(View(b.guest, b.frames)), c, r)
    ensures c.Download? && r.status.Success? ==> r.bytes == Read(old(b.guest), c.address, c.n)
    ensures b.Dead() || !old(b.Dead())
  {
    hide b.Keeps, Read, Write, Pattern, Extend, Picture, Context.Valid, Context.Settled, Context.Progressed,
         Context.Stands, Names;
    hide Suffix, Context.Counted;
    var e, bytes := Success, [];
    match c {
    case Flush =>
      var t := b.Flush({});
      e := if t.Value? then Success else Failed(t.error);
    case Finish => e := b.Finish({});
    case Download(a, n) => e, bytes := b.DownloadBuffer(a, n);
    case Others(commands) => e := b.Elsewhere(commands);
    }
    r := Reply(e, bytes, []);
  }

  /** A recording that is not flushed is not executed: these calls put nothing into the queue. */
  method PerformRecording(b: Bridge, c: Call) returns (r: Reply)
    requires b.Valid() && !c.Flush? && !c.Finish? && !c.Download? && !c.Others?
    modifies b, b.context, b.list, b.encoder
    ensures b.Valid() && b.OwnsNew() && !c.Download?
    ensures View(b.guest, b.frames) == Apply(old(View(b.guest, b.frames)), c, r)
    ensures b.Dead() || !old(b.Dead())
    ensures Suffix(b.context.queue, old(b.context.queue))
  {
    hide b.Keeps, Read, Write, Pattern, Extend, Picture, Context.Valid, Context.Settled, Context.Progressed,
         Context.Stands, Names;
    hide Suffix;
    SuffixSelf(b.context.queue);
    var e, frame := Success, [];
    match c {
    case Register(base, size) => e := CreateAndRegister(b, base, size);
    case Fill(a, n, value, gds) => e := b.FillBuffer(a, n, value, gds);
    case Copy(d, s, n, dg, sg) => e := b.CopyBuffer(d, s, n, dg, sg);
    case HostSubmit => e := b.OnSubmit();
    case MarkerBegin(text) => e := b.ScopeMarkerBegin(text);
    case MarkerEnd => e := b.ScopeMarkerEnd();
    case Frame(a, w, h, pitch, occupied, _, _, planes) =>
      e, frame := b.CreateLinearFrame(a, w, h, pitch, occupied, Layout(c), planes);
    case DeviceWorks => b.Progress();
    }
    r := Reply(e, [], frame);
  }

  /** One queue before each call and one at the end; only some calls lengthen it. */
  predicate Queues(queues: seq<seq<Command>>, calls: seq<Call>) {
    |queues| == |calls| + 1
    && forall i :: 0 <= i < |calls| && !MaySubmit(calls[i]) ==> Suffix(queues[i + 1], queues[i])
  }

  /** While nothing is flushed, downloaded or submitted by others, whatever is recorded is not queued, let alone
      executed. */
  lemma {:induction false} UnflushedNeverExecutes(queues: seq<seq<Command>>, calls: seq<Call>, i: nat, j: nat)
    requires Queues(queues, calls) && i <= j <= |calls| && forall k :: i <= k < j ==> !MaySubmit(calls[k])
    ensures Suffix(queues[j], queues[i])
  {
    hide Suffix, MaySubmit;
    if i == j {
      SuffixSelf(queues[i]);
    } else {
      UnflushedNeverExecutes(queues, calls, i, j - 1);
      SuffixOfSuffix(queues[j], queues[j - 1], queues[i]);
    }
  }

  /** The refinement: whatever is called, whatever others submit, and however the device progresses, downloads see flat
      guest memory and frames show it; and only some of the calls put anything into the queue. */
  method Replay(b: Bridge, calls: seq<Call>) returns (replies: seq<Reply>, ghost queues: seq<seq<Command>>)
    requires b.Valid()
    modifies b, b.context, b.list, b.encoder
    ensures b.Valid() && |replies| == |calls|
    ensures View(b.guest, b.frames) == ApplyAll(old(View(b.guest, b.frames)), calls, replies)
    ensures Truthful(old(View(b.guest, b.frames)), calls, replies)
    ensures Queues(queues, calls) && queues[0] == old(b.context.queue) && queues[|calls|] == b.context.queue
    ensures (forall k :: 0 <= k < |calls| ==> !MaySubmit(calls[k])) ==> Suffix(b.context.queue, old(b.context.queue))
  {
    hide b.Valid, Read, Apply, ApplyAll, Truthful, Queues, Suffix, MaySubmit;
    replies, queues := [], [b.context.queue];
    ghost var v, q := View(b.guest, b.frames), b.context.queue;
    NothingYet(v, q);
    assert calls[..0] == [];
    for i := 0 to |calls|
      invariant b.Valid() && b.OwnsNew() && |replies| == i && |queues| == i + 1
      invariant View(b.guest, b.frames) == ApplyAll(v, calls[..i], replies)
      invariant Truthful(v, calls[..i], replies)
      invariant Queues(queues, calls[..i]) && queues[0] == q && queues[i] == b.context.queue
    {
      var r := Perform(b, calls[i]);
      ApplySnoc(v, calls[..i], replies, calls[i], r);
      QueuesSnoc(queues, calls[..i], b.context.queue, calls[i]);
      assert calls[..i + 1] == calls[..i] + [calls[i]];
      replies, queues := replies + [r], queues + [b.context.queue];
    }
    assert calls[..|calls|] == calls;
    if forall k :: 0 <= k < |calls| ==> !MaySubmit(calls[k]) {
      UnflushedNeverExecutes(queues, calls, 0, |calls|);
    }
  }

  lemma NothingYet(v: View, q: seq<Command>)
    ensures ApplyAll(v, [], []) == v && Truthful(v, [], []) && Queues([q], [])
  {
  }

  lemma QueuesSnoc(queues: seq<seq<Command>>, calls: seq<Call>, q: seq<Command>, c: Call)
    requires Queues(queues, calls) && (MaySubmit(c) || Suffix(q, queues[|calls|]))
    ensures Queues(queues + [q], calls + [c])
  {
    hide Suffix, MaySubmit;
  }

  lemma ApplySnoc(v: View, calls: seq<Call>, replies: seq<Reply>, c: Call, r: Reply)
    requires |calls| == |replies| && Truthful(v, calls, replies)
    requires c.Download? && r.status.Success? ==> r.bytes == Read(ApplyAll(v, calls, replies).guest, c.address, c.n)
    ensures ApplyAll(v, calls + [c], replies + [r]) == Apply(ApplyAll(v, calls, replies), c, r)
    ensures Truthful(v, calls + [c], replies + [r])
  {
    hide Apply, Read, ApplyAll;
    ApplyLast(v, calls, replies, c, r);
    forall i | 0 <= i < |calls| + 1 && (calls + [c])[i].Download? && (replies + [r])[i].status.Success?
      ensures (replies + [r])[i].bytes
           == Read(ApplyAll(v, (calls + [c])[..i], (replies + [r])[..i]).guest, (calls + [c])[i].address,
                   (calls + [c])[i].n)
    {
      assert i < |calls| ==> (calls + [c])[..i] == calls[..i] && (replies + [r])[..i] == replies[..i];
      assert i == |calls| ==> (calls + [c])[..i] == calls && (replies + [r])[..i] == replies;
    }
  }

  lemma ApplyLast(v: View, calls: seq<Call>, replies: seq<Reply>, c: Call, r: Reply)
    requires |calls| == |replies|
    ensures ApplyAll(v, calls + [c], replies + [r]) == Apply(ApplyAll(v, calls, replies), c, r)
  {
    hide Apply;
    assert (calls + [c])[..|calls|] == calls && (replies + [r])[..|replies|] == replies;
  }
}
