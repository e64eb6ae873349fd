/** d3d12_pipeline_cache.cpp: byte keys that name a request exactly, and the tables behind them. */
module PipelineCache {
  import opened D3d12
  import opened Bits
  import opened Division
  import opened Octets

  type Key = seq<byte>

  // ----- keys -------------------------------------------------------------------------------------------------------

  /** value >> (8 * i) */
  function ShiftBytes(value: nat, i: nat): nat {
    if i == 0 then value else ShiftBytes(value, i - 1) / 256
  }

  /** The n low bytes, least significant first. */
  function LittleEndian(value: nat, n: nat): (k: Key)
    ensures |k| == n
  {
    if n == 0 then [] else LittleEndian(value, n - 1) + [ShiftBytes(value, n - 1) % 256]
  }

  /** The number the bytes spell. */
  function Spelled(k: Key): nat {
    if k == [] then 0 else Spelled(k[..|k| - 1]) + k[|k| - 1] * Pow256(|k| - 1)
  }

  lemma {:induction false} ValueAndRest(value: nat, n: nat)
    ensures Spelled(LittleEndian(value, n)) + ShiftBytes(value, n) * Pow256(n) == value
  {
    if n > 0 {
      ValueAndRest(value, n - 1);
      var k, s, p := LittleEndian(value, n), ShiftBytes(value, n - 1), Pow256(n - 1);
      assert k[..n - 1] == LittleEndian(value, n - 1);
      assert s == s / 256 * 256 + s % 256;
      Redistribute(s / 256, s % 256, p);
    }
  }

  lemma Redistribute(q: nat, r: nat, p: nat)
    ensures (q * 256 + r) * p == r * p + q * (256 * p)
  {
  }

  lemma {:induction false} ShiftedAway(value: nat, n: nat)
    requires value < Pow256(n)
    ensures ShiftBytes(value, n) == 0
  {
    hide ShiftBytes, LittleEndian, Spelled, Pow256;
    ValueAndRest(value, n);
    if ShiftBytes(value, n) >= 1 {
      AtLeastOneTimes(ShiftBytes(value, n), Pow256(n));
    }
  }

  lemma Pow256Of8(n: nat)
    requires n == 8
    ensures Pow256(n) == 0x1_0000_0000_0000_0000
  {
    assert Pow256(n) == 256 * Pow256(n - 1) && Pow256(n - 1) == 256 * Pow256(n - 2);
    assert Pow256(n - 2) == 256 * Pow256(n - 3) && Pow256(n - 3) == 256 * Pow256(n - 4);
    assert Pow256(n - 4) == 256 * Pow256(n - 5) && Pow256(n - 5) == 256 * Pow256(n - 6);
    assert Pow256(n - 6) == 256 * Pow256(n - 7);
  }

  /** Eight bytes determine the number. */
  lemma IntegerKeyIsInjective(a: U64, b: U64)
    requires LittleEndian(a, 8) == LittleEndian(b, 8)
    ensures a == b
  {
    hide LittleEndian, Spelled;
    Pow256Of8(8);
    ValueAndRest(a, 8);
    ValueAndRest(b, 8);
    ShiftedAway(a, 8);
    ShiftedAway(b, 8);
  }

  /** A length, then the bytes. */
  function Field(b: Key): Key {
    LittleEndian(|b|, 8) + b
  }

  /** Length-prefixed fields can be told apart, whatever follows them. */
  lemma SizedIsPrefixFree(a: Key, b: Key, x: Key, y: Key)
    requires |a| <= MAX_U64 && |b| <= MAX_U64 && Field(a) + x == Field(b) + y
    ensures a == b && x == y
  {
    hide LittleEndian;
    assert (Field(a) + x)[..8] == LittleEndian(|a|, 8) && (Field(b) + y)[..8] == LittleEndian(|b|, 8);
    IntegerKeyIsInjective(|a|, |b|);
    assert (Field(a) + x)[8..] == a + x && (Field(b) + y)[8..] == b + y;
    assert (a + x)[..|a|] == a && (b + y)[..|b|] == b;
    assert (a + x)[|a|..] == x && (b + y)[|b|..] == y;
  }

  datatype Request =
    | Graphics(root: Key, vertex: Key, pixel: Key, format: U64, premultiplied: bool)
    | Compute(root: Key, shader: Key)

  /** Blobs have a 64-bit size. */
  predicate Representable(r: Request) {
    |r.root| <= MAX_U64 &&
    match r
    case Graphics(_, v, p, _, _) => |v| <= MAX_U64 && |p| <= MAX_U64
    case Compute(_, s) => |s| <= MAX_U64
  }

  function KeyOf(r: Request): Key {
    match r
    case Graphics(root, v, p, f, b) =>
      Field(root) + (Field(v) + (Field(p) + (LittleEndian(f, 8) + LittleEndian(if b then 1 else 0, 8))))
    case Compute(root, s) => Field(root) + (Field(s) + [])
  }

  /** In each table a key belongs to one request. */
  lemma KeysAreInjective(a: Request, b: Request)
    requires Representable(a) && Representable(b) && a.Graphics? == b.Graphics? && KeyOf(a) == KeyOf(b)
    ensures a == b
  {
    hide LittleEndian, Field;
    match a {
      case Graphics(root, v, p, f, c) =>
        var x, y := LittleEndian(f, 8), LittleEndian(b.format, 8);
        var m, n: nat := if c then 1 else 0, if b.premultiplied then 1 else 0;
        SizedIsPrefixFree(root, b.root, Field(v) + (Field(p) + (x + LittleEndian(m, 8))),
                          Field(b.vertex) + (Field(b.pixel) + (y + LittleEndian(n, 8))));
        SizedIsPrefixFree(v, b.vertex, Field(p) + (x + LittleEndian(m, 8)), Field(b.pixel) + (y + LittleEndian(n, 8)));
        SizedIsPrefixFree(p, b.pixel, x + LittleEndian(m, 8), y + LittleEndian(n, 8));
        assert (x + LittleEndian(m, 8))[..8] == x && (y + LittleEndian(n, 8))[..8] == y;
        assert (x + LittleEndian(m, 8))[8..] == LittleEndian(m, 8)
                   && (y + LittleEndian(n, 8))[8..] == LittleEndian(n, 8);
        IntegerKeyIsInjective(f, b.format);
        IntegerKeyIsInjective(m, n);
      case Compute(root, s) =>
        SizedIsPrefixFree(root, b.root, Field(s) + [], Field(b.shader) + []);
        SizedIsPrefixFree(s, b.shader, [], []);
    }
  }

  method AppendInteger(key: Key, value: U64) returns (k: Key)
    ensures k == key + LittleEndian(value, 8)
  {
    k := key;
    for i := 0 to 8
      invariant k == key + LittleEndian(value, i)
    {
      k := k + [ShiftBytes(value, i) % 256];
    }
  }

  method AppendBytes(key: Key, data: Key) returns (r: Result<Key>)
    requires |data| <= MAX_U64
    ensures r == if data == [] then Error(InvalidArg) else Result.Value(key + Field(data))
  {
    if data == [] {
      return Error(InvalidArg);
    }
    var k := AppendInteger(key, |data|);
    assert key + Field(data) == k + data;
    return Result.Value(k + data);
  }

  /** Appending field by field builds the key. */
  lemma KeyIsBuilt(r: Request)
    ensures match r
            case Graphics(root, v, p, f, b) =>
              [] + Field(root) + Field(v) + Field(p) + LittleEndian(f, 8) + LittleEndian(if b then 1 else 0, 8)
            == KeyOf(r)
            case Compute(root, s) => [] + Field(root) + Field(s) == KeyOf(r)
  {
    hide Field, LittleEndian;
    match r {
      case Graphics(root, v, p, f, b) =>
        var m := LittleEndian(if b then 1 else 0, 8);
        var all := [] + Field(root) + Field(v) + Field(p) + LittleEndian(f, 8) + m;
        assert all == [] + Field(root) + Field(v) + Field(p) + (LittleEndian(f, 8) + m);
        assert all == [] + Field(root) + Field(v) + (Field(p) + (LittleEndian(f, 8) + m));
        assert all == [] + Field(root) + (Field(v) + (Field(p) + (LittleEndian(f, 8) + m)));
        assert all == Field(root) + (Field(v) + (Field(p) + (LittleEndian(f, 8) + m)));
      case Compute(root, s) =>
    }
  }

  predicate HasEmptyField(r: Request) {
    r.root == [] || (if r.Graphics? then r.vertex == [] || r.pixel == [] else r.shader == [])
  }

  method MakeKey(request: Request) returns (key: Result<Key>)
    requires Representable(request)
    ensures key == if HasEmptyField(request) then Error(InvalidArg) else Result.Value(KeyOf(request))
  {
    hide Field, LittleEndian;
    KeyIsBuilt(request);
    key := AppendBytes([], request.root);
    if key.Error? {
      return;
    }
    match request {
      case Graphics(root, vertex, pixel, format, premultiplied) =>
        key := AppendBytes(key.value, vertex);
        if key.Error? {
          return;
        }
        key := AppendBytes(key.value, pixel);
        if key.Error? {
          return;
        }
        var k := AppendInteger(key.value, format);
        k := AppendInteger(k, if premultiplied then 1 else 0);
        return Result.Value(k);
      case Compute(root, shader) =>
        key := AppendBytes(key.value, shader);
    }
  }

  // ----- the tables --------------------------------------------------------------------------------------------------

  const ENTRY_LIMIT := 64

  /** A root signature the device made; two of them may hold the same bytes. */
  class RootLayout {
    const serialized: Key

    constructor (serialized: Key)
      ensures this.serialized == serialized
    {
      this.serialized := serialized;
    }
  }

  /** A pipeline state the device built, for request. */
  class Pipeline {
    const request: Request

    constructor (request: Request)
      ensures this.request == request
    {
      this.request := request;
    }
  }

  /** Every entry is filed under the key of what it was built for. */
  ghost predicate Filed(table: map<Key, Pipeline>, forGraphics: bool) {
    && |table| <= ENTRY_LIMIT
    && forall k :: k in table ==>
         Representable(table[k].request) && KeyOf(table[k].request) == k && table[k].request.Graphics? == forGraphics
  }

  lemma FileNew(table: map<Key, Pipeline>, forGraphics: bool, p: Pipeline)
    requires Filed(table, forGraphics) && |table| < ENTRY_LIMIT && KeyOf(p.request) !in table
    requires Representable(p.request) && p.request.Graphics? == forGraphics
    ensures Filed(table[KeyOf(p.request) := p], forGraphics) && |table[KeyOf(p.request) := p]| == |table| + 1
  {
    hide KeyOf, Representable;
  }

  /** Looking a request up by its key finds a pipeline built for it. */
  lemma FindFiled(table: map<Key, Pipeline>, forGraphics: bool, request: Request)
    requires Filed(table, forGraphics) && KeyOf(request) in table
    requires Representable(request) && request.Graphics? == forGraphics
    ensures table[KeyOf(request)].request == request
  {
    hide KeyOf, Representable;
    KeysAreInjective(table[KeyOf(request)].request, request);
  }

  ghost predicate RootsFiled(roots: map<Key, RootLayout>) {
    (forall k :: k in roots ==> roots[k].serialized == k) && |roots| <= ENTRY_LIMIT
  }

  class Cache {
    var initialized: bool
    var roots: map<Key, RootLayout>
    var graphics: map<Key, Pipeline>
    var compute: map<Key, Pipeline>
    var rootCreations: nat
    var graphicsCreations: nat
    var computeCreations: nat
    var cacheHits: nat

    ghost predicate Valid()
      reads this
    {
      && RootsFiled(roots)
      && Filed(graphics, true) && Filed(compute, false)
      && rootCreations == |roots| && graphicsCreations == |graphics| && computeCreations == |compute|
    }

    constructor ()
      ensures Valid() && !initialized && roots == map[] && graphics == map[] && compute == map[]
    {
      initialized, roots, graphics, compute := false, map[], map[], map[];
      rootCreations, graphicsCreations, computeCreations, cacheHits := 0, 0, 0, 0;
    }

    method Initialize() returns (e: Status)
      requires Valid()
      modifies `initialized
      ensures Valid() && initialized && e == if old(initialized) then Failed(InvalidArg) else Success
    {
      hide Filed;
      if initialized {
        return Failed(InvalidArg);
      }
      initialized := true;
      return Success;
    }

    lemma Limits()
      requires Valid()
      ensures |graphics| <= ENTRY_LIMIT && |compute| <= ENTRY_LIMIT
    {
    }

    /** serialized is what D3D12SerializeRootSignature made of the description. */
    method RootSignature(serialized: Key) returns (r: Result<RootLayout>)
      requires Valid()
      modifies this
      ensures Valid() && initialized == old(initialized) && graphics == old(graphics) && compute == old(compute)
      ensures r.Value? ==>
                initialized && r.value.serialized == serialized && serialized in roots && roots[serialized] == r.value
      ensures serialized in old(roots) && initialized ==> r == Result.Value(old(roots)[serialized])
      ensures serialized in old(roots) && initialized ==> roots == old(roots) && cacheHits == old(cacheHits) + 1
      ensures r.Value? && serialized !in old(roots) ==> fresh(r.value) && roots == old(roots)[serialized := r.value]
      ensures r.Error? ==> roots == old(roots) && cacheHits == old(cacheHits)
      ensures r.Error? ==> !initialized || |roots| == ENTRY_LIMIT || r.error == DeviceError
    {
      hide Filed;
      if !initialized {
        return Error(Unexpected);
      }
      if serialized in roots {
        cacheHits := cacheHits + 1;
        return Result.Value(roots[serialized]);
      }
      if |roots| >= ENTRY_LIMIT {
        return Error(OutOfMemory);
      }
      if * {
        return Error(DeviceError);
      }
      var root := new RootLayout(serialized);
      roots := roots[serialized := root];
      rootCreations := rootCreations + 1;
      return Result.Value(root);
    }

    /** Only the very layout this cache handed out, not an equal one from elsewhere. */
    predicate Knows(root: RootLayout?)
      reads this
    {
      initialized && root != null && root.serialized in roots && roots[root.serialized] == root
    }

    /** A hit or a new entry; either way a pipeline built for exactly this request. */
    method Graphics(root: RootLayout?, vertex: Key, pixel: Key, format: U64, premultiplied: bool)
      returns (r: Result<Pipeline>)
      requires Valid() && |vertex| <= MAX_U64 && |pixel| <= MAX_U64 && (root != null ==> |root.serialized| <= MAX_U64)
      modifies this
      ensures Valid() && roots == old(roots) && compute == old(compute) && initialized == old(initialized)
      ensures r.Value? ==>
                && Knows(root)
                && r.value.request == Request.Graphics(root.serialized, vertex, pixel, format, premultiplied)
      ensures r.Value? && KeyOf(r.value.request) in old(graphics) ==>
                graphics == old(graphics) && r.value == graphics[KeyOf(r.value.request)]
                    && cacheHits == old(cacheHits) + 1
      ensures r.Value? && KeyOf(r.value.request) !in old(graphics) ==>
                fresh(r.value) && graphics == old(graphics)[KeyOf(r.value.request) := r.value]
                    && cacheHits == old(cacheHits)
      ensures r.Error? ==> graphics == old(graphics) && cacheHits == old(cacheHits)
      ensures r.Error? ==> (!Knows(root) || root.serialized == [] || vertex == [] || pixel == []
                            || |graphics| == ENTRY_LIMIT || r.error == DeviceError)
    {
      hide KeyOf, Filed, RootsFiled, Field, LittleEndian;
      if !Knows(root) {
        return Error(InvalidArg);
      }
      var request := Request.Graphics(root.serialized, vertex, pixel, format, premultiplied);
      var keyed := MakeKey(request);
      if keyed.Error? {
        return Error(keyed.error);
      }
      var key := keyed.value;
      Limits();
      if key in graphics {
        FindFiled(graphics, true, request);
        cacheHits := cacheHits + 1;
        return Result.Value(graphics[key]);
      }
      if |graphics| >= ENTRY_LIMIT {
        return Error(OutOfMemory);
      }
      if * {
        return Error(DeviceError);
      }
      var pipeline := new Pipeline(request);
      FileNew(graphics, true, pipeline);
      graphics := graphics[key := pipeline];
      graphicsCreations := graphicsCreations + 1;
      return Result.Value(pipeline);
    }

    method Compute(root: RootLayout?, shader: Key) returns (r: Result<Pipeline>)
      requires Valid() && |shader| <= MAX_U64 && (root != null ==> |root.serialized| <= MAX_U64)
      modifies this
      ensures Valid() && roots == old(roots) && graphics == old(graphics) && initialized == old(initialized)
      ensures r.Value? ==> Knows(root) && r.value.request == Request.Compute(root.serialized, shader)
      ensures r.Value? && KeyOf(r.value.request) in old(compute) ==>
                compute == old(compute) && r.value == compute[KeyOf(r.value.request)] && cacheHits == old(cacheHits) + 1
      ensures r.Value? && KeyOf(r.value.request) !in old(compute) ==>
                fresh(r.value) && compute == old(compute)[KeyOf(r.value.request) := r.value]
                    && cacheHits == old(cacheHits)
      ensures r.Error? ==> compute == old(compute) && cacheHits == old(cacheHits)
      ensures r.Error? ==> (!Knows(root) || root.serialized == [] || shader == []
                            || |compute| == ENTRY_LIMIT || r.error == DeviceError)
    {
      hide KeyOf, Filed, RootsFiled, Field, LittleEndian;
      if !Knows(root) {
        return Error(InvalidArg);
      }
      var request := Request.Compute(root.serialized, shader);
      var keyed := MakeKey(request);
      if keyed.Error? {
        return Error(keyed.error);
      }
      var key := keyed.value;
      Limits();
      if key in compute {
        FindFiled(compute, false, request);
        cacheHits := cacheHits + 1;
        return Result.Value(compute[key]);
      }
      if |compute| >= ENTRY_LIMIT {
        return Error(OutOfMemory);
      }
      if * {
        return Error(DeviceError);
      }
      var pipeline := new Pipeline(request);
      FileNew(compute, false, pipeline);
      compute := compute[key := pipeline];
      computeCreations := computeCreations + 1;
      return Result.Value(pipeline);
    }
  }

  /** No entry serves two requests: in a table filed by key, equal requests are the only ones that share an entry. */
  lemma EntriesServeOneRequest(cache: Cache, a: Request, b: Request)
    requires cache.Valid() && Representable(a) && Representable(b) && a.Graphics? == b.Graphics?
    requires KeyOf(a) in (if a.Graphics? then cache.graphics else cache.compute)
    ensures KeyOf(a) == KeyOf(b) <==> a == b
    ensures (if a.Graphics? then cache.graphics else cache.compute)[KeyOf(a)].request == a
  {
    hide KeyOf, Filed, RootsFiled, Representable;
    FindFiled(if a.Graphics? then cache.graphics else cache.compute, a.Graphics?, a);
    if KeyOf(a) == KeyOf(b) {
      KeysAreInjective(a, b);
    }
  }
}
