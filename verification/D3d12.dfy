/** What the Direct3D 12 shell relies on: resources, states, recorded commands, and what a queue does with them. */
module D3d12 {
  const MAX_U64 := 0xFFFF_FFFF_FFFF_FFFF

  type U64 = n: int | 0 <= n <= MAX_U64

  type Bytes = seq<bv8>

  type State = bv32

  const COMMON: State := 0x0
  const VERTEX_AND_CONSTANT_BUFFER: State := 0x1
  const INDEX_BUFFER: State := 0x2
  const RENDER_TARGET: State := 0x4
  const UNORDERED_ACCESS: State := 0x8
  const DEPTH_WRITE: State := 0x10
  const DEPTH_READ: State := 0x20
  const NON_PIXEL_SHADER_RESOURCE: State := 0x40
  const PIXEL_SHADER_RESOURCE: State := 0x80
  const STREAM_OUT: State := 0x100
  const INDIRECT_ARGUMENT: State := 0x200
  const COPY_DEST: State := 0x400
  const COPY_SOURCE: State := 0x800
  const RESOLVE_DEST: State := 0x1000
  const RESOLVE_SOURCE: State := 0x2000
  const GENERIC_READ: State := 0xAC3

  datatype Dimension = Buffer | Texture2D | OtherDimension

  datatype Heap = Default | Upload | Readback | OtherHeap

  datatype Description = Description(
    dimension: Dimension, width: nat, height: nat, layers: nat, mips: nat, format: nat, samples: nat,
    allowRenderTarget: bool, allowUnorderedAccess: bool, allowDepthStencil: bool, denyShaderResource: bool,
    simultaneousAccess: bool)

  /** A device may refuse whatever it is asked. A stalled one takes all work and does none, and will not announce when
      work is done. */
  datatype Device = Device(id: nat, stalled: bool) {
    method Refuses() returns (refused: bool)
      ensures stalled ==> !refused
    {
      refused := *;
      refused := refused && !stalled;
    }

    /** SetEventOnCompletion. */
    method RefusesEvents() returns (refused: bool)
      ensures stalled ==> refused
    {
      refused := *;
      refused := refused || stalled;
    }
  }

  /** An interface pointer with what GetDesc, GetHeapProperties and GetDevice answer. */
  datatype Resource = Resource(id: nat, description: Description, heap: Heap, device: Device) {
    predicate IsBuffer() {
      description.dimension == Buffer
    }

    /** At an ExecuteCommandLists boundary these fall back to COMMON. */
    predicate Decays() {
      heap == Default && (IsBuffer() || description.simultaneousAccess)
    }

    function AtBoundary(s: State): State {
      if Decays() then COMMON else s
    }
  }

  datatype Error = InvalidArg | NotImplemented | Unexpected | OutOfMemory | DeviceError

  datatype Status = Success | Failed(error: Error) {
    predicate IsFailure() {
      Failed?
    }

    function PropagateFailure(): Status
      requires IsFailure()
    {
      this
    }
  }

  datatype Result<T> = Value(value: T) | Error(error: Error) {
    predicate IsFailure() {
      Error?
    }

    function PropagateFailure(): Status
      requires IsFailure()
    {
      Failed(error)
    }

    function Extract(): T
      requires !IsFailure()
    {
      value
    }
  }

  // ----- states -------------------------------------------------------------------------------------------------

  /** No bit outside mask. */
  predicate Within(s: State, mask: State) {
    s & !mask == 0
  }

  predicate Meets(s: State, mask: State) {
    s & mask != 0
  }

  function ReadStates(): State {
    GENERIC_READ | DEPTH_READ | RESOLVE_SOURCE
  }

  function WriteStates(): State {
    RENDER_TARGET | UNORDERED_ACCESS | DEPTH_WRITE | STREAM_OUT | COPY_DEST | RESOLVE_DEST
  }

  /** Known bits, and at most one write bit, never beside a read bit. */
  predicate WellMixed(s: State) {
    var writes := s & WriteStates();
    && Within(s, ReadStates() | WriteStates())
    && (writes == 0 || (writes & (writes - 1) == 0 && !Meets(s, ReadStates())))
  }

  predicate ValidForHeap(r: Resource, s: State) {
    && (r.heap == Upload ==> s == GENERIC_READ)
    && (r.heap == Readback ==> s == COPY_DEST)
  }

  predicate ValidForDescription(r: Resource, s: State) {
    var d := r.description;
    && (Meets(s, RENDER_TARGET) ==> d.allowRenderTarget)
    && (Meets(s, UNORDERED_ACCESS) ==> d.allowUnorderedAccess)
    && (Meets(s, DEPTH_READ | DEPTH_WRITE) ==> d.allowDepthStencil)
    && (Meets(s, PIXEL_SHADER_RESOURCE | NON_PIXEL_SHADER_RESOURCE) ==> !d.denyShaderResource)
    && (r.IsBuffer() ==> !Meets(s, RENDER_TARGET | DEPTH_READ | DEPTH_WRITE | RESOLVE_SOURCE | RESOLVE_DEST))
    && (!r.IsBuffer() ==> !Meets(s, VERTEX_AND_CONSTANT_BUFFER | INDEX_BUFFER | STREAM_OUT | INDIRECT_ARGUMENT))
    && (Meets(s, RESOLVE_SOURCE) ==> d.samples > 1)
    && (Meets(s, RESOLVE_DEST) ==> d.samples == 1)
  }

  predicate ValidState(r: Resource, s: State) {
    WellMixed(s) && ValidForHeap(r, s) && ValidForDescription(r, s)
  }

  /** A state with a write bit is that bit alone. */
  predicate WritesAlone(s: State) {
    Meets(s, WriteStates()) ==>
      s in {RENDER_TARGET, UNORDERED_ACCESS, DEPTH_WRITE, STREAM_OUT, COPY_DEST, RESOLVE_DEST}
  }

  lemma WellMixedWritesAlone(s: State)
    ensures WellMixed(s) ==> WritesAlone(s)
  {
  }

  lemma CopyStates()
    ensures WellMixed(COPY_SOURCE) && WellMixed(COPY_DEST) && WellMixed(COMMON)
    ensures Meets(COPY_SOURCE, COPY_SOURCE) && Meets(GENERIC_READ, COPY_SOURCE)
  {
  }

  lemma DescriptionAllowsCopies(r: Resource)
    ensures ValidForDescription(r, COMMON) && ValidForDescription(r, COPY_SOURCE) && ValidForDescription(r, COPY_DEST)
  {
  }

  /** Copies ask for nothing but a fitting heap. */
  lemma MayBeCopied(r: Resource)
    ensures r.heap != Upload && r.heap != Readback ==>
              ValidState(r, COMMON) && ValidState(r, COPY_SOURCE) && ValidState(r, COPY_DEST)
    ensures r.heap == Readback ==> ValidState(r, COPY_DEST)
  {
    hide WellMixed, ValidForDescription, Meets;
    CopyStates();
    DescriptionAllowsCopies(r);
  }

  lemma MayBeStaged(r: Resource)
    requires r.heap == Upload && r.IsBuffer() && !r.description.denyShaderResource
    ensures ValidState(r, GENERIC_READ)
  {
  }

  lemma MayBeShown(r: Resource)
    requires r.heap == Default && !r.IsBuffer() && !r.description.denyShaderResource
    ensures ValidState(r, PIXEL_SHADER_RESOURCE)
  {
  }

  // ----- commands -----------------------------------------------------------------------------------------------

  /** Where a texture lies in a buffer: rows of rowBytes bytes, pitch bytes apart. */
  datatype Footprint = Footprint(offset: nat, format: nat, width: nat, height: nat, depth: nat, pitch: nat,
                                 rows: nat, rowBytes: nat)

  datatype Command =
    | Barrier(resource: Resource, before: State, after: State)
    | UavBarrier(resource: Resource)
    | CopyRegion(target: Resource, targetOffset: nat, origin: Resource, originOffset: nat, bytes: nat)
    | CopyTexture(texture: Resource, buffer: Resource, footprint: Footprint, toTexture: bool)
    | ClearTarget(resource: Resource)
    | ClearDepth(resource: Resource)
    | ResolveSubresource(target: Resource, origin: Resource)
    | Signal(ticket: nat)
  {
    function Names(): set<Resource> {
      match this
      case Barrier(r, _, _) => {r}
      case UavBarrier(r) => {r}
      case CopyRegion(d, _, s, _, _) => {d, s}
      case CopyTexture(t, b, _, _) => {t, b}
      case ClearTarget(r) => {r}
      case ClearDepth(r) => {r}
      case ResolveSubresource(d, s) => {d, s}
      case Signal(_) => {}
    }
  }

  function Names(cmds: seq<Command>): set<Resource> {
    set c, r | c in cmds && r in c.Names() :: r
  }

  lemma NamesAdd(a: seq<Command>, b: seq<Command>)
    ensures Names(a + b) == Names(a) + Names(b)
  {
  }

  type States = map<Resource, State>

  /** states knows what initial knows, and says the same of it. */
  predicate Extends(states: States, initial: States) {
    forall r :: r in initial ==> r in states && states[r] == initial[r]
  }

  /** What the end of an execution makes of the states. */
  function Decayed(states: States): States {
    map r | r in states :: r.AtBoundary(states[r])
  }

  function After(states: States, c: Command): States {
    match c
    case Barrier(r, _, after) => states[r := after]
    case _ => states
  }

  /** The states left by a command list. */
  function Run(states: States, cmds: seq<Command>): States {
    if cmds == [] then states else After(Run(states, cmds[..|cmds| - 1]), cmds[|cmds| - 1])
  }

  /** May c run when the resources are in these states? */
  predicate Permitted(states: States, c: Command) {
    c.Names() <= states.Keys &&
    match c
    case Barrier(r, before, after) => states[r] == before && after != before && ValidState(r, after)
    case UavBarrier(r) => states[r] == UNORDERED_ACCESS
    case CopyRegion(d, _, s, _, _) => d != s && states[d] == COPY_DEST && Meets(states[s], COPY_SOURCE)
    case CopyTexture(t, b, _, true) => states[t] == COPY_DEST && Meets(states[b], COPY_SOURCE)
    case CopyTexture(t, b, _, false) => Meets(states[t], COPY_SOURCE) && states[b] == COPY_DEST
    case ClearTarget(r) => states[r] == RENDER_TARGET
    case ClearDepth(r) => states[r] == DEPTH_WRITE
    case ResolveSubresource(d, s) => states[d] == RESOLVE_DEST && states[s] == RESOLVE_SOURCE
    case Signal(_) => false
  }

  /** Every command finds its operands in a state that permits it. */
  predicate Legal(states: States, cmds: seq<Command>) {
    cmds == [] || (var n := |cmds| - 1; Legal(states, cmds[..n]) && Permitted(Run(states, cmds[..n]), cmds[n]))
  }

  lemma RunSnoc(states: States, cmds: seq<Command>, c: Command)
    ensures Run(states, cmds + [c]) == After(Run(states, cmds), c)
    ensures Legal(states, cmds + [c]) == (Legal(states, cmds) && Permitted(Run(states, cmds), c))
  {
    assert (cmds + [c])[..|cmds|] == cmds;
  }

  lemma {:induction false} RunKeepsKeys(states: States, cmds: seq<Command>)
    requires Legal(states, cmds)
    ensures Run(states, cmds).Keys == states.Keys
    ensures Names(cmds) <= states.Keys
  {
    if cmds != [] {
      var n := |cmds| - 1;
      RunKeepsKeys(states, cmds[..n]);
      NamesAdd(cmds[..n], [cmds[n]]);
      assert cmds == cmds[..n] + [cmds[n]];
    }
  }

  lemma AfterInLarger(s: States, large: States, l: States, c: Command)
    requires l == large + s && Permitted(s, c)
    ensures Permitted(l, c) && After(s, c).Keys == s.Keys && After(l, c) == large + After(s, c)
  {
    hide ValidState, Meets;
    assert forall r :: r in s ==> r in l && l[r] == s[r];
  }

  /** What a list does to states does not depend on resources the list does not know. */
  lemma {:induction false} RunInLarger(small: States, large: States, cmds: seq<Command>)
    requires Legal(small, cmds) && small.Keys <= large.Keys
    requires forall r :: r in small ==> small[r] == large[r]
    ensures Legal(large, cmds)
    ensures Run(small, cmds).Keys == small.Keys && Run(large, cmds) == large + Run(small, cmds)
  {
    hide Permitted, After;
    if cmds == [] {
      assert large == large + small;
    } else {
      var n := |cmds| - 1;
      RunInLarger(small, large, cmds[..n]);
      AfterInLarger(Run(small, cmds[..n]), large, Run(large, cmds[..n]), cmds[n]);
    }
  }

  lemma {:induction false} LegalAt(states: States, cmds: seq<Command>, i: nat)
    requires Legal(states, cmds) && i < |cmds|
    ensures Permitted(Run(states, cmds[..i]), cmds[i])
  {
    hide Permitted, Run;
    var n := |cmds| - 1;
    if i < n {
      LegalAt(states, cmds[..n], i);
      assert cmds[..n][..i] == cmds[..i];
    }
  }

  predicate NoBarrier(cmds: seq<Command>, r: Resource) {
    forall k :: 0 <= k < |cmds| ==> !(cmds[k].Barrier? && cmds[k].resource == r)
  }

  lemma {:induction false} RunWithoutBarrier(states: States, before: seq<Command>, cmds: seq<Command>, r: Resource)
    requires r in Run(states, before) && NoBarrier(cmds, r)
    ensures var end := Run(states, before + cmds); r in end && end[r] == Run(states, before)[r]
  {
    if cmds == [] {
      assert before + cmds == before;
    } else {
      var n := |cmds| - 1;
      RunWithoutBarrier(states, before, cmds[..n], r);
      assert before + cmds == (before + cmds[..n]) + [cmds[n]];
      RunSnoc(states, before + cmds[..n], cmds[n]);
    }
  }

  /** A legal list's barrier starts from the state the previous barrier on that resource left. */
  lemma BarriersChain(states: States, cmds: seq<Command>, j: nat, i: nat)
    requires Legal(states, cmds) && j < i < |cmds| && cmds[i].Barrier? && cmds[j].Barrier?
    requires cmds[i].resource == cmds[j].resource && NoBarrier(cmds[j + 1..i], cmds[i].resource)
    ensures cmds[i].before == cmds[j].after != cmds[i].after
  {
    hide Legal, Run;
    LegalAt(states, cmds, i);
    assert cmds[..j + 1] == cmds[..j] + [cmds[j]];
    RunSnoc(states, cmds[..j], cmds[j]);
    assert cmds[..i] == cmds[..j + 1] + cmds[j + 1..i];
    RunWithoutBarrier(states, cmds[..j + 1], cmds[j + 1..i], cmds[i].resource);
  }

  /** The first barrier on a resource starts from its initial state. */
  lemma FirstBarrier(states: States, cmds: seq<Command>, i: nat)
    requires Legal(states, cmds) && i < |cmds| && cmds[i].Barrier? && NoBarrier(cmds[..i], cmds[i].resource)
    ensures cmds[i].resource in states && cmds[i].before == states[cmds[i].resource] != cmds[i].after
  {
    hide Legal, ValidState, Meets;
    LegalAt(states, cmds, i);
    LegalPrefix(states, cmds, i);
    RunKeepsKeys(states, cmds[..i]);
    assert [] + cmds[..i] == cmds[..i];
    RunWithoutBarrier(states, [], cmds[..i], cmds[i].resource);
  }

  lemma {:induction false} LegalPrefix(states: States, cmds: seq<Command>, i: nat)
    requires Legal(states, cmds) && i <= |cmds|
    ensures Legal(states, cmds[..i])
  {
    hide Permitted, Run;
    if i < |cmds| {
      var n := |cmds| - 1;
      LegalPrefix(states, cmds[..n], i);
      assert cmds[..n][..i] == cmds[..i];
    } else {
      assert cmds[..i] == cmds;
    }
  }

  // ----- what a queue does with memory ----------------------------------------------------------------------------

  type Memory = map<Resource, Bytes>

  /** b with v written at offset. */
  function Patch(b: Bytes, offset: nat, v: Bytes): (r: Bytes)
    requires offset + |v| <= |b|
    ensures |r| == |b|
  {
    b[..offset] + v + b[offset + |v|..]
  }

  /** The rows of a footprint, one after the other. */
  function Gather(b: Bytes, offset: nat, pitch: nat, rowBytes: nat, rows: nat): Bytes {
    if rows == 0 then []
    else
      var rest := Gather(b, offset, pitch, rowBytes, rows - 1);
      var first := offset + (rows - 1) * pitch;
      if first + rowBytes <= |b| then rest + b[first..first + rowBytes] else rest
  }

  /** b with the rows of a texture written at their places. */
  function Scatter(b: Bytes, offset: nat, pitch: nat, rowBytes: nat, rows: nat, image: Bytes): (r: Bytes)
    ensures |r| == |b|
  {
    if rows == 0 then b
    else
      var rest := Scatter(b, offset, pitch, rowBytes, rows - 1, image);
      var first, from := offset + (rows - 1) * pitch, (rows - 1) * rowBytes;
      if first + rowBytes <= |b| && from + rowBytes <= |image| then Patch(rest, first, image[from..from + rowBytes])
      else rest
  }

  function Execute(m: Memory, c: Command): Memory {
    match c
    case CopyRegion(d, o, s, p, n) =>
      if d in m && s in m && o + n <= |m[d]| && p + n <= |m[s]| then m[d := Patch(m[d], o, m[s][p..p + n])] else m
    case CopyTexture(t, b, f, true) =>
      if t in m && b in m && !t.IsBuffer() then m[t := Gather(m[b], f.offset, f.pitch, f.rowBytes, f.rows)] else m
    case CopyTexture(t, b, f, false) =>
      if t in m && b in m then m[b := Scatter(m[b], f.offset, f.pitch, f.rowBytes, f.rows, m[t])] else m
    case _ => m
  }

  /** Memory after the commands, the first one first. */
  function ExecuteAll(m: Memory, cmds: seq<Command>): Memory {
    if cmds == [] then m else Execute(ExecuteAll(m, cmds[..|cmds| - 1]), cmds[|cmds| - 1])
  }

  lemma ExecuteSnoc(m: Memory, cmds: seq<Command>, c: Command)
    ensures ExecuteAll(m, cmds + [c]) == Execute(ExecuteAll(m, cmds), c)
  {
    assert (cmds + [c])[..|cmds|] == cmds;
  }

  lemma {:induction false} ExecuteAppend(m: Memory, a: seq<Command>, b: seq<Command>)
    ensures ExecuteAll(m, a + b) == ExecuteAll(ExecuteAll(m, a), b)
  {
    hide Execute;
    if b == [] {
      assert a + b == a;
    } else {
      var n := |b| - 1;
      ExecuteAppend(m, a, b[..n]);
      assert a + b == (a + b[..n]) + [b[n]];
      ExecuteSnoc(m, a + b[..n], b[n]);
    }
  }

  lemma SignalNamesNothing(ticket: nat)
    ensures Names([Signal(ticket)]) == {}
  {
  }

  /** A list and its ticket behind a queue. */
  lemma SubmittedSettles(m: Memory, queue: seq<Command>, cmds: seq<Command>, ticket: nat)
    ensures ExecuteAll(m, queue + cmds) == ExecuteAll(ExecuteAll(m, queue), cmds)
    ensures ExecuteAll(m, queue + cmds + [Signal(ticket)]) == ExecuteAll(ExecuteAll(m, queue), cmds)
    ensures Names(queue + cmds) == Names(queue) + Names(cmds)
    ensures Names(queue + cmds + [Signal(ticket)]) == Names(queue) + Names(cmds)
  {
    hide ExecuteAll;
    var all := queue + cmds;
    ExecuteSnoc(m, all, Signal(ticket));
    ExecuteAppend(m, queue, cmds);
    NamesAdd(queue, cmds);
    NamesAdd(all, [Signal(ticket)]);
    SignalNamesNothing(ticket);
  }

  lemma SliceOfSlice(b: Bytes, offset: nat, n: nat, i: nat, j: nat)
    requires offset + n <= |b| && i <= j <= n
    ensures b[offset..offset + n][i..j] == b[offset + i..offset + j]
  {
    var slice := b[offset..offset + n];
    assert forall k :: 0 <= k < n ==> slice[k] == b[offset + k];
  }

  lemma LastRowStarts(rows: nat, pitch: nat)
    requires rows > 0
    ensures rows * pitch == (rows - 1) * pitch + pitch
  {
  }

  /** Gathering inside a range only looks at that range. */
  lemma {:induction false} GatherInside(b: Bytes, offset: nat, pitch: nat, rowBytes: nat, rows: nat, n: nat)
    requires offset + n <= |b| && rows * pitch <= n && rowBytes <= pitch
    ensures Gather(b, offset, pitch, rowBytes, rows) == Gather(b[offset..offset + n], 0, pitch, rowBytes, rows)
  {
    if rows > 0 {
      LastRowStarts(rows, pitch);
      var first: nat := (rows - 1) * pitch;
      GatherInside(b, offset, pitch, rowBytes, rows - 1, n);
      SliceOfSlice(b, offset, n, first, first + rowBytes);
      assert offset + (rows - 1) * pitch == offset + first && 0 + (rows - 1) * pitch == first;
    }
  }

  /** Every buffer holds as many bytes as it was created with. */
  predicate Sized(m: Memory) {
    forall r :: r in m && r.IsBuffer() ==> |m[r]| == r.description.width
  }

  lemma {:induction false} ExecuteKeepsSizes(m: Memory, cmds: seq<Command>)
    requires Sized(m)
    ensures Sized(ExecuteAll(m, cmds)) && ExecuteAll(m, cmds).Keys == m.Keys
  {
    hide Patch, Gather, Scatter;
    if cmds != [] {
      var n := |cmds| - 1;
      ExecuteKeepsSizes(m, cmds[..n]);
    }
  }

  lemma ExecuteElsewhere(m: Memory, l: Memory, r: Resource, v: Bytes, c: Command)
    requires r !in c.Names() && l == m[r := v]
    ensures Execute(l, c) == Execute(m, c)[r := v]
  {
    hide Patch, Gather, Scatter;
  }

  /** Writing to a resource no command names changes nothing else. */
  lemma {:induction false} ExecuteAllElsewhere(m: Memory, r: Resource, v: Bytes, cmds: seq<Command>)
    requires r !in Names(cmds)
    ensures ExecuteAll(m[r := v], cmds) == ExecuteAll(m, cmds)[r := v]
  {
    hide Execute;
    if cmds != [] {
      var n := |cmds| - 1;
      assert cmds == cmds[..n] + [cmds[n]];
      NamesAdd(cmds[..n], [cmds[n]]);
      assert r !in Names([cmds[n]]);
      assert cmds[n] in [cmds[n]];
      ExecuteAllElsewhere(m, r, v, cmds[..n]);
      ExecuteElsewhere(ExecuteAll(m, cmds[..n]), ExecuteAll(m[r := v], cmds[..n]), r, v, cmds[n]);
    }
  }

  /** The memories agree on the given resources. */
  ghost predicate Agree(m: Memory, l: Memory, rs: set<Resource>) {
    m.Keys == l.Keys && forall r :: r in rs && r in m ==> m[r] == l[r]
  }

  lemma ExecuteAgrees(m: Memory, l: Memory, rs: set<Resource>, c: Command)
    requires Agree(m, l, rs) && c.Names() <= rs
    ensures Agree(Execute(m, c), Execute(l, c), rs)
  {
    hide Patch, Gather, Scatter;
  }

  /** What commands do to the resources they name depends on nothing else. */
  lemma {:induction false} ExecuteAllAgrees(m: Memory, l: Memory, rs: set<Resource>, cmds: seq<Command>)
    requires Agree(m, l, rs) && Names(cmds) <= rs
    ensures Agree(ExecuteAll(m, cmds), ExecuteAll(l, cmds), rs)
  {
    hide Execute, Agree;
    if cmds != [] {
      var n := |cmds| - 1;
      assert cmds == cmds[..n] + [cmds[n]];
      NamesAdd(cmds[..n], [cmds[n]]);
      assert cmds[n] in [cmds[n]];
      assert cmds[n].Names() <= Names([cmds[n]]);
      ExecuteAllAgrees(m, l, rs, cmds[..n]);
      ExecuteAgrees(ExecuteAll(m, cmds[..n]), ExecuteAll(l, cmds[..n]), rs, cmds[n]);
    }
  }

  lemma ExecuteLeaves(m: Memory, rs: set<Resource>, c: Command)
    requires c.Names() !! rs
    ensures Agree(m, Execute(m, c), rs)
  {
    hide Patch, Gather, Scatter;
  }

  /** Commands leave what they do not name as it was. */
  lemma {:induction false} ExecuteAllLeaves(m: Memory, rs: set<Resource>, cmds: seq<Command>)
    requires Names(cmds) !! rs
    ensures Agree(m, ExecuteAll(m, cmds), rs)
  {
    hide Execute;
    if cmds != [] {
      var n := |cmds| - 1;
      assert cmds == cmds[..n] + [cmds[n]];
      NamesAdd(cmds[..n], [cmds[n]]);
      assert cmds[n] in [cmds[n]];
      assert cmds[n].Names() <= Names([cmds[n]]);
      ExecuteAllLeaves(m, rs, cmds[..n]);
      ExecuteLeaves(ExecuteAll(m, cmds[..n]), rs, cmds[n]);
    }
  }

  /** Commands leave the states of what they do not name. */
  lemma {:induction false} RunLeaves(states: States, r: Resource, cmds: seq<Command>)
    requires r !in Names(cmds) && r in states
    ensures r in Run(states, cmds) && Run(states, cmds)[r] == states[r]
  {
    if cmds != [] {
      var n := |cmds| - 1;
      assert cmds == cmds[..n] + [cmds[n]];
      NamesAdd(cmds[..n], [cmds[n]]);
      assert cmds[n] in [cmds[n]];
      assert cmds[n].Names() <= Names([cmds[n]]);
      RunLeaves(states, r, cmds[..n]);
    }
  }

  // ----- what is still in front of a ticket --------------------------------------------------------------------------

  /** What a device has left of a queue. */
  predicate Suffix(rest: seq<Command>, queue: seq<Command>) {
    |rest| <= |queue| && rest == queue[|queue| - |rest|..]
  }

  lemma SuffixSelf(queue: seq<Command>)
    ensures Suffix(queue, queue)
  {
  }

  lemma SuffixOfSuffix(rest: seq<Command>, part: seq<Command>, queue: seq<Command>)
    requires Suffix(rest, part) && Suffix(part, queue)
    ensures Suffix(rest, queue)
  {
  }

  /** The resources are named only in front of the ticket. */
  ghost predicate Before(queue: seq<Command>, ticket: nat, rs: set<Resource>) {
    forall i :: 0 <= i < |queue| && !(queue[i].Names() !! rs) ==>
            exists j :: i < j < |queue| && queue[j] == Signal(ticket)
  }

  lemma BeforeSuffix(queue: seq<Command>, rest: seq<Command>, ticket: nat, rs: set<Resource>)
    requires Before(queue, ticket, rs) && Suffix(rest, queue)
    ensures Before(rest, ticket, rs)
  {
    var k := |queue| - |rest|;
    forall i | 0 <= i < |rest| && !(rest[i].Names() !! rs)
      ensures exists j :: i < j < |rest| && rest[j] == Signal(ticket)
    {
      assert rest[i] == queue[k + i];
      var j :| k + i < j < |queue| && queue[j] == Signal(ticket);
      assert rest[j - k] == queue[j];
    }
  }

  /** With the ticket gone, nothing names them. */
  lemma BeforeDone(queue: seq<Command>, ticket: nat, rs: set<Resource>)
    requires Before(queue, ticket, rs) && Signal(ticket) !in queue
    ensures Names(queue) !! rs
  {
  }

  lemma BeforeUnnamed(queue: seq<Command>, ticket: nat, rs: set<Resource>)
    requires Names(queue) !! rs
    ensures Before(queue, ticket, rs)
  {
    forall i | 0 <= i < |queue| ensures queue[i].Names() !! rs {
      assert queue[i] in queue;
      assert queue[i].Names() <= Names(queue);
    }
  }

  lemma BeforeMore(queue: seq<Command>, more: seq<Command>, ticket: nat, rs: set<Resource>)
    requires Before(queue, ticket, rs) && Names(more) !! rs
    ensures Before(queue + more, ticket, rs)
  {
    var all := queue + more;
    forall c | c in more ensures c.Names() !! rs {
      assert c.Names() <= Names(more);
    }
    forall i | 0 <= i < |all| && !(all[i].Names() !! rs) ensures exists j :: i < j < |all| && all[j] == Signal(ticket) {
      var j :| i < j < |queue| && queue[j] == Signal(ticket);
      assert all[j] == queue[j];
    }
  }

  /** A ticket behind everything has everything in front of it. */
  lemma BeforeLast(queue: seq<Command>, ticket: nat, rs: set<Resource>)
    ensures Before(queue + [Signal(ticket)], ticket, rs)
  {
    assert (queue + [Signal(ticket)])[|queue|] == Signal(ticket);
  }

  lemma BeforeGrows(queue: seq<Command>, ticket: nat, rs: set<Resource>, more: set<Resource>)
    requires Before(queue, ticket, rs) && Names(queue) !! more
    ensures Before(queue, ticket, rs + more)
  {
    forall i | 0 <= i < |queue| ensures queue[i].Names() !! more {
      assert queue[i] in queue;
      assert queue[i].Names() <= Names(queue);
    }
  }
}
