/** d3d12_command_encoder.cpp: one recording's explicit resource states. */
module CommandEncoder {
  import opened D3d12

  /** ID3D12GraphicsCommandList: what has been recorded, and whether it still takes commands. */
  class CommandList {
    const device: Device
    var commands: seq<Command>
    var open: bool

    constructor (device: Device)
      ensures commands == [] && open && this.device == device
    {
      this.device := device;
      commands, open := [], true;
    }

    method Append(c: Command)
      modifies this`commands
      ensures commands == old(commands) + [c]
    {
      commands := commands + [c];
    }

    /** Fails on a closed list, and on one whose recording went wrong; either way it takes no more. */
    method Close() returns (ok: bool)
      modifies `open
      ensures !open && (ok ==> old(open)) && (device.stalled ==> ok == old(open))
    {
      var refused := device.Refuses();
      ok := open && !refused;
      open := false;
    }

    /** Starts over, with the allocator's memory. The ticket of its last execution must be done. */
    method Reset(ghost queue: seq<Command>, ghost ticket: nat)
      requires Signal(ticket) !in queue
      modifies `commands, `open
      ensures commands == [] && open
    {
      commands, open := [], true;
    }
  }

  /** The barrier, if any, that takes r to state s. */
  function BarrierTo(states: States, r: Resource, s: State): seq<Command>
    requires r in states
  {
    if states[r] == s then [] else [Barrier(r, states[r], s)]
  }

  const D32_FLOAT := 40

  /** What CopyBuffer demands. */
  predicate CopyAccepted(states: States, d: Resource, dOffset: nat, s: Resource, sOffset: nat, bytes: nat) {
    && d in states && s in states && d != s && bytes != 0 && d.IsBuffer() && s.IsBuffer()
    && dOffset + bytes <= d.description.width && sOffset + bytes <= s.description.width
    && d.heap != Upload && s.heap != Readback
  }

  predicate SimpleTexture(d: Description) {
    d.dimension == Texture2D && d.mips == 1 && d.layers == 1
  }

  /** The footprint is the one the device reports for this texture and offset, and lies inside the buffer. */
  predicate FootprintAccepted(texture: Resource, buffer: Resource, f: Footprint, planes: nat, expected: Footprint) {
    && SimpleTexture(texture.description) && texture.description.samples == 1 && buffer.IsBuffer()
    && f.offset <= buffer.description.width && f.offset % 512 == 0 && planes == 1
    && f == expected && f.rows != 0 && f.rowBytes <= f.pitch
    && f.offset + (f.rows - 1) * f.pitch + f.rowBytes <= buffer.description.width
  }

  predicate TextureCopyAccepted(states: States, t: Resource, b: Resource, f: Footprint, planes: nat,
                                expected: Footprint,
                                toTexture: bool) {
    && t in states && b in states && FootprintAccepted(t, b, f, planes, expected)
    && b.heap != (if toTexture then Readback else Upload)
    && t.heap != Upload && (t.heap == Readback ==> toTexture)
  }

  predicate ResolveAccepted(states: States, d: Resource, s: Resource, resolvable: bool) {
    && d in states && s in states && d != s && SimpleTexture(d.description) && SimpleTexture(s.description)
    && s.description.samples > 1 && d.description.samples == 1
    && s.description.width == d.description.width && s.description.height == d.description.height
    && s.description.format == d.description.format && !s.description.allowDepthStencil && resolvable
  }

  /** What CopyBuffer records: both barriers, the source's first, then the copy. */
  function CopyCommands(states: States, d: Resource, dOffset: nat, s: Resource, sOffset: nat, bytes: nat): seq<Command>
    requires d in states && s in states
  {
    (if s.heap == Upload then [] else BarrierTo(states, s, COPY_SOURCE)) + BarrierTo(states, d, COPY_DEST)
    + [CopyRegion(d, dOffset, s, sOffset, bytes)]
  }

  function TextureCopyCommands(states: States, t: Resource, b: Resource, f: Footprint, toTexture: bool): seq<Command>
    requires t in states && b in states
  {
    BarrierTo(states, t, if toTexture then COPY_DEST else COPY_SOURCE)
    + (if b.heap == Upload then [] else BarrierTo(states, b, if toTexture then COPY_SOURCE else COPY_DEST))
    + [CopyTexture(t, b, f, toTexture)]
  }

  class Encoder {
    const list: CommandList
    const device: Device
    var resources: States
    /** The states the caller promised when each resource was first tracked. */
    ghost var initial: States

    ghost predicate Valid()
      reads this, list`commands
    {
      && Legal(initial, list.commands)
      && resources == Run(initial, list.commands)
      && forall r :: r in resources ==> ValidState(r, resources[r]) && r.heap != OtherHeap
    }

    constructor (list: CommandList)
      requires list.commands == []
      ensures Valid() && this.list == list && this.device == list.device && resources == map[] && initial == map[]
    {
      this.list, this.device := list, list.device;
      resources, initial := map[], map[];
    }

    /** An untracked resource enters with the caller's state; a tracked one must be in that state already. */
    method Track(r: Resource, s: State) returns (e: Status)
      requires Valid()
      modifies this
      ensures Valid()
      ensures e.Success? ==> r in resources && resources[r] == s
      ensures e.Success? ==> resources == old(resources)[r := s]
      ensures e.Success? ==> initial == if r in old(resources) then old(initial) else old(initial)[r := s]
      ensures r !in old(resources) && ValidState(r, s) && r.device == device && r.heap != OtherHeap ==>
                e.Success? || (e == Failed(DeviceError) && !device.stalled)
      ensures r in old(resources) ==> (e.Success? <==> old(resources)[r] == s)
      ensures e.Failed? ==> resources == old(resources) && initial == old(initial)
    {
      hide ValidState, Legal, Run;
      if r in resources {
        if resources[r] != s {
          return Failed(InvalidArg);
        }
        return Success;
      }
      var refused := device.Refuses();
      if refused {
        return Failed(DeviceError);
      }
      if r.device != device || r.heap == OtherHeap || !ValidState(r, s) {
        return Failed(InvalidArg);
      }
      TrackNew(initial, r, s, list.commands);
      resources := resources[r := s];
      initial := initial[r := s];
      return Success;
    }

    /** A tracked resource reaches state s by at most one barrier, from the state it is in. */
    method Transition(r: Resource, s: State) returns (e: Status)
      requires Valid()
      modifies this`resources, list`commands
      ensures Valid()
      ensures e.Success? <==> r in old(resources) && ValidState(r, s)
      ensures e.Success? ==> resources == old(resources)[r := s]
      ensures e.Success? ==> list.commands == old(list.commands) + BarrierTo(old(resources), r, s)
      ensures e.Failed? ==> e.error == InvalidArg && resources == old(resources) && list.commands == old(list.commands)
    {
      hide ValidState, Legal, Run;
      if r !in resources || !ValidState(r, s) {
        return Failed(InvalidArg);
      }
      if resources[r] == s {
        assert resources == resources[r := s];
        return Success;
      }
      var barrier := Barrier(r, resources[r], s);
      RunSnoc(initial, list.commands, barrier);
      list.Append(barrier);
      resources := resources[r := s];
      return Success;
    }

    method UavBarrier(r: Resource) returns (e: Status)
      requires Valid()
      modifies list`commands
      ensures Valid()
      ensures e == if r in resources && resources[r] == UNORDERED_ACCESS then Success else Failed(InvalidArg)
      ensures list.commands == old(list.commands) + if e.Success? then [D3d12.UavBarrier(r)] else []
    {
      hide ValidState, Legal, Run;
      if r !in resources || resources[r] != UNORDERED_ACCESS {
        return Failed(InvalidArg);
      }
      RunSnoc(initial, list.commands, D3d12.UavBarrier(r));
      list.Append(D3d12.UavBarrier(r));
      return Success;
    }

    method CopyBuffer(d: Resource, dOffset: nat, s: Resource, sOffset: nat, bytes: nat) returns (e: Status)
      requires Valid()
      modifies this`resources, list`commands
      ensures Valid()
      ensures e == if CopyAccepted(old(resources), d, dOffset, s, sOffset, bytes) then Success else Failed(InvalidArg)
      ensures e.Failed? ==> resources == old(resources) && list.commands == old(list.commands)
      ensures e.Success? ==> resources == old(resources)[s := if s.heap == Upload then GENERIC_READ else COPY_SOURCE]
                                                        [d := COPY_DEST]
      ensures e.Success? ==>
                list.commands == old(list.commands) + CopyCommands(old(resources), d, dOffset, s, sOffset, bytes)
    {
      hide ValidState, Legal, Run, Meets, Permitted;
      if !CopyAccepted(resources, d, dOffset, s, sOffset, bytes) {
        return Failed(InvalidArg);
      }
      if s.heap == Upload {
        UploadsStay(resources, s);
      }
      MayBeCopied(s);
      MayBeCopied(d);
      if s.heap != Upload {
        var e0 := Transition(s, COPY_SOURCE);
      }
      var e1 := Transition(d, COPY_DEST);
      var copy := CopyRegion(d, dOffset, s, sOffset, bytes);
      CopyPermitted(resources, d, dOffset, s, sOffset, bytes);
      RunSnoc(initial, list.commands, copy);
      list.Append(copy);
      return Success;
    }

    method CopyTexture(t: Resource, b: Resource, f: Footprint, planes: nat, expected: Footprint, toTexture: bool)
      returns (e: Status)
      requires Valid()
      modifies this`resources, list`commands
      ensures Valid()
      ensures e == if TextureCopyAccepted(old(resources), t, b, f, planes, expected, toTexture) then Success
                   else Failed(InvalidArg)
      ensures e.Failed? ==> resources == old(resources) && list.commands == old(list.commands)
      ensures e.Success? ==> resources == old(resources)[t := if toTexture then COPY_DEST else COPY_SOURCE]
                               [b := if b.heap == Upload then GENERIC_READ
                                     else if toTexture then COPY_SOURCE else COPY_DEST]
      ensures e.Success? ==>
                list.commands == old(list.commands) + TextureCopyCommands(old(resources), t, b, f, toTexture)
    {
      hide ValidState, Legal, Run, Meets, Permitted;
      if t !in resources || b !in resources || !FootprintAccepted(t, b, f, planes, expected) {
        return Failed(InvalidArg);
      }
      if if toTexture then b.heap == Readback else b.heap == Upload {
        return Failed(InvalidArg);
      }
      if b.heap == Upload {
        UploadsStay(resources, b);
      }
      MayBeCopied(b);
      HeapDecidesCopies(t);
      :- Transition(t, if toTexture then COPY_DEST else COPY_SOURCE);
      if b.heap != Upload {
        var e0 := Transition(b, if toTexture then COPY_SOURCE else COPY_DEST);
      }
      var copy := D3d12.CopyTexture(t, b, f, toTexture);
      TextureCopyPermitted(resources, t, b, f, toTexture);
      RunSnoc(initial, list.commands, copy);
      list.Append(copy);
      return Success;
    }

    /** rtv and finite stand for the descriptor handle and the test of the colour components. */
    method ClearColor(r: Resource, rtv: nat, finite: bool) returns (e: Status)
      requires Valid()
      modifies this`resources, list`commands
      ensures Valid()
      ensures e == if r in old(resources) && rtv != 0 && finite && r.description.dimension == Texture2D
                      && r.description.allowRenderTarget && ValidState(r, RENDER_TARGET)
                   then Success else Failed(InvalidArg)
      ensures e.Failed? ==> resources == old(resources) && list.commands == old(list.commands)
      ensures e.Success? ==>
                list.commands == old(list.commands) + BarrierTo(old(resources), r, RENDER_TARGET) + [ClearTarget(r)]
      ensures e.Success? ==> resources == old(resources)[r := RENDER_TARGET]
    {
      hide ValidState, Legal, Run;
      if r !in resources || rtv == 0 || r.description.dimension != Texture2D
         || !r.description.allowRenderTarget || !finite {
        return Failed(InvalidArg);
      }
      :- Transition(r, RENDER_TARGET);
      RunSnoc(initial, list.commands, ClearTarget(r));
      list.Append(ClearTarget(r));
      return Success;
    }

    method ClearDepth(r: Resource, dsv: nat, finite: bool, depth: real) returns (e: Status)
      requires Valid()
      modifies this`resources, list`commands
      ensures Valid()
      ensures e == if r in old(resources) && dsv != 0 && SimpleTexture(r.description)
                  && r.description.format == D32_FLOAT
                      && r.description.allowDepthStencil && finite && 0.0 <= depth <= 1.0 && ValidState(r, DEPTH_WRITE)
                   then Success else Failed(InvalidArg)
      ensures e.Failed? ==> resources == old(resources) && list.commands == old(list.commands)
      ensures e.Success? ==>
                list.commands == old(list.commands) + BarrierTo(old(resources), r, DEPTH_WRITE) + [D3d12.ClearDepth(r)]
      ensures e.Success? ==> resources == old(resources)[r := DEPTH_WRITE]
    {
      hide ValidState, Legal, Run;
      if r !in resources || dsv == 0 || !SimpleTexture(r.description) || r.description.format != D32_FLOAT
         || !r.description.allowDepthStencil || !finite || depth < 0.0 || depth > 1.0 {
        return Failed(InvalidArg);
      }
      :- Transition(r, DEPTH_WRITE);
      RunSnoc(initial, list.commands, D3d12.ClearDepth(r));
      list.Append(D3d12.ClearDepth(r));
      return Success;
    }

    /** A refused destination leaves the barrier on the source behind, and nothing else. */
    method Resolve(d: Resource, s: Resource, resolvable: bool) returns (e: Status)
      requires Valid()
      modifies this`resources, list`commands
      ensures Valid()
      ensures e == if ResolveAccepted(old(resources), d, s, resolvable) && ValidState(s, RESOLVE_SOURCE)
                      && ValidState(d, RESOLVE_DEST)
                   then Success else Failed(InvalidArg)
      ensures e.Success? ==> resources == old(resources)[s := RESOLVE_SOURCE][d := RESOLVE_DEST]
      ensures var emits := ResolveAccepted(old(resources), d, s, resolvable) && ValidState(s, RESOLVE_SOURCE);
              list.commands == old(list.commands)
                + (if emits then BarrierTo(old(resources), s, RESOLVE_SOURCE) else [])
                + (if e.Success? then BarrierTo(old(resources), d, RESOLVE_DEST) + [ResolveSubresource(d, s)] else [])
    {
      hide ValidState, Legal, Run;
      if !ResolveAccepted(resources, d, s, resolvable) {
        return Failed(InvalidArg);
      }
      :- Transition(s, RESOLVE_SOURCE);
      :- Transition(d, RESOLVE_DEST);
      RunSnoc(initial, list.commands, ResolveSubresource(d, s));
      list.Append(ResolveSubresource(d, s));
      return Success;
    }

    /** No tracked state mixes a write bit with any other bit. */
    lemma TrackedWritesAlone(r: Resource)
      requires Valid() && r in resources
      ensures WritesAlone(resources[r])
    {
      WellMixedWritesAlone(resources[r]);
    }

    /** The state in which executing the list will leave the resource, on any device where it starts as promised. */
    method StateAfterExecution(r: Resource) returns (s: Result<State>)
      requires Valid()
      ensures s == if r in resources then Value(r.AtBoundary(resources[r])) else Error(InvalidArg)
      ensures s.Value? ==>
                forall states :: Extends(states, initial) ==>
                                   var end := Decayed(Run(states, list.commands)); r in end && end[r] == s.value
    {
      hide ValidState, Legal, Run;
      if r !in resources {
        return Error(InvalidArg);
      }
      forall states: States | Extends(states, initial)
        ensures var end := Decayed(Run(states, list.commands)); r in end && end[r] == r.AtBoundary(resources[r])
      {
        RunInLarger(initial, states, list.commands);
      }
      return Value(if r.heap == Default && (r.IsBuffer() || r.description.simultaneousAccess) then COMMON
                   else resources[r]);
    }
  }

  lemma UploadsStay(states: States, r: Resource)
    requires r in states && ValidState(r, states[r]) && r.heap == Upload
    ensures states[r] == GENERIC_READ && states[r := GENERIC_READ] == states
  {
  }

  /** A tracked texture may become a copy destination unless uploaded, a copy source only on the default heap. */
  lemma HeapDecidesCopies(t: Resource)
    requires t.heap != OtherHeap
    ensures ValidState(t, COPY_DEST) <==> t.heap != Upload
    ensures ValidState(t, COPY_SOURCE) <==> t.heap == Default
  {
    hide WellMixed, ValidForDescription, Meets;
    MayBeCopied(t);
  }

  lemma CopyPermitted(states: States, d: Resource, dOffset: nat, s: Resource, sOffset: nat, bytes: nat)
    requires d in states && s in states && d != s
    requires states[d] == COPY_DEST && states[s] == if s.heap == Upload then GENERIC_READ else COPY_SOURCE
    ensures Permitted(states, CopyRegion(d, dOffset, s, sOffset, bytes))
  {
    hide Meets;
    CopyStates();
  }

  lemma TextureCopyPermitted(states: States, t: Resource, b: Resource, f: Footprint, toTexture: bool)
    requires t in states && b in states
    requires states[t] == if toTexture then COPY_DEST else COPY_SOURCE
    requires if !toTexture then states[b] == COPY_DEST
             else states[b] == if b.heap == Upload then GENERIC_READ else COPY_SOURCE
    ensures Permitted(states, CopyTexture(t, b, f, toTexture))
  {
    hide Meets;
    CopyStates();
  }

  /** Tracking a resource the list does not name changes nothing the list does. */
  lemma TrackNew(initial: States, r: Resource, s: State, cmds: seq<Command>)
    requires Legal(initial, cmds) && r !in Run(initial, cmds)
    ensures Legal(initial[r := s], cmds)
    ensures r !in initial && Run(initial[r := s], cmds) == Run(initial, cmds)[r := s]
  {
    hide Legal, Run;
    RunKeepsKeys(initial, cmds);
    RunInLarger(initial, initial[r := s], cmds);
  }
}
