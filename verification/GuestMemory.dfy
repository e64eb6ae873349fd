/** The memory a guest believes in: one flat array of bytes, changed at once by every accepted request. */
module GuestMemory {
  import opened D3d12

  type Guest = map<int, bv8>

  /** The guest addresses [base, base + size) live in a buffer. */
  datatype Binding = Binding(base: nat, size: nat, resource: Resource) {
    predicate Covers(a: int) {
      base <= a < base + size
    }

    predicate Contains(a: nat, n: nat) {
      base <= a && a + n <= base + size
    }

    predicate Overlaps(other: Binding) {
      base < other.base + other.size && other.base < base + size
    }
  }

  function Read(g: Guest, a: nat, n: nat): (b: Bytes)
    ensures |b| == n
  {
    seq(n, k requires 0 <= k < n => if a + k in g then g[a + k] else 0)
  }

  function Write(g: Guest, a: nat, v: Bytes): Guest {
    map x | x in g :: if a <= x < a + |v| then v[x - a] else g[x]
  }

  /** The little-endian bytes of value, over and over. */
  function Pattern(value: bv32, n: nat): (b: Bytes)
    ensures |b| == n
  {
    seq(n, k requires 0 <= k < n => LittleByte(value, k % 4))
  }

  function LittleByte(value: bv32, k: nat): bv8 {
    if k == 0 then (value & 0xFF) as bv8
    else if k == 1 then ((value >> 8) & 0xFF) as bv8
    else if k == 2 then ((value >> 16) & 0xFF) as bv8
    else ((value >> 24) & 0xFF) as bv8
  }

  /** Bindings are default buffers, each bound whole and once, in ranges that do not meet. */
  predicate Separate(bs: seq<Binding>) {
    && (forall i :: 0 <= i < |bs| ==>
          bs[i].resource.IsBuffer() && bs[i].resource.heap == Default && bs[i].resource.description.width == bs[i].size)
    && (forall i :: 0 <= i < |bs| ==> 0 < bs[i].base && 0 < bs[i].size && bs[i].base + bs[i].size <= MAX_U64)
    && (forall i, j :: 0 <= i < j < |bs| ==> !bs[i].Overlaps(bs[j]) && bs[i].resource != bs[j].resource)
  }

  function Resources(bs: seq<Binding>): set<Resource> {
    set b | b in bs :: b.resource
  }

  ghost predicate Mapped(bs: seq<Binding>, a: int) {
    exists i :: 0 <= i < |bs| && bs[i].Covers(a)
  }

  /** Guest memory is what the bound buffers hold. */
  ghost predicate Mirrors(g: Guest, bs: seq<Binding>, m: Memory) {
    && (forall a :: a in g <==> Mapped(bs, a))
    && (forall i :: 0 <= i < |bs| ==> bs[i].resource in m && |m[bs[i].resource]| == bs[i].size)
    && (forall i, a :: 0 <= i < |bs| && bs[i].Covers(a) ==> g[a] == m[bs[i].resource][a - bs[i].base])
  }

  lemma PatchAt(b: Bytes, offset: nat, v: Bytes, k: nat)
    requires offset + |v| <= |b| && k < |b|
    ensures Patch(b, offset, v)[k] == if offset <= k < offset + |v| then v[k - offset] else b[k]
  {
  }

  lemma ApartAt(bs: seq<Binding>, i: nat, j: nat, x: int)
    requires Separate(bs) && i < |bs| && j < |bs| && i != j && bs[j].Covers(x)
    ensures !bs[i].Covers(x) && bs[i].resource != bs[j].resource
  {
    assert !bs[if i < j then i else j].Overlaps(bs[if i < j then j else i]);
  }

  lemma WriteMirrors(g: Guest, bs: seq<Binding>, m: Memory, i: nat, a: nat, v: Bytes)
    requires Separate(bs) && Mirrors(g, bs, m) && i < |bs| && bs[i].Contains(a, |v|)
    ensures var b := bs[i];
            Mirrors(Write(g, a, v), bs, m[b.resource := Patch(m[b.resource], a - b.base, v)])
  {
    hide Separate, Patch;
    var b := bs[i];
    var patched := Patch(m[b.resource], a - b.base, v);
    forall j, x | 0 <= j < |bs| && bs[j].Covers(x)
      ensures Write(g, a, v)[x] == m[b.resource := patched][bs[j].resource][x - bs[j].base]
    {
      assert Mapped(bs, x) && g[x] == m[bs[j].resource][x - bs[j].base];
      if j == i {
        PatchAt(m[b.resource], a - b.base, v, x - b.base);
      } else {
        ApartAt(bs, i, j, x);
      }
    }
  }

  lemma ReadMirrors(g: Guest, bs: seq<Binding>, m: Memory, i: nat, a: nat, n: nat)
    requires Mirrors(g, bs, m) && i < |bs| && bs[i].Contains(a, n)
    ensures Read(g, a, n) == m[bs[i].resource][a - bs[i].base..a - bs[i].base + n]
  {
    var b := bs[i];
    forall k | 0 <= k < n ensures Read(g, a, n)[k] == m[b.resource][a - b.base + k] {
      assert b.Covers(a + k);
    }
  }

  /** Other resources do not show. */
  lemma OthersDoNotShow(g: Guest, bs: seq<Binding>, m: Memory, r: Resource, v: Bytes)
    requires Mirrors(g, bs, m) && r !in Resources(bs)
    ensures Mirrors(g, bs, m[r := v])
  {
    forall i | 0 <= i < |bs| ensures bs[i].resource != r {
      assert bs[i] in bs;
    }
  }

  /** Guest memory with the bytes of a newly bound buffer in it. */
  function Extend(g: Guest, base: nat, content: Bytes): Guest {
    map x | x in g.Keys + Range(base, |content|) :: if InRange(x, base, |content|) then content[x - base] else g[x]
  }

  predicate InRange(x: int, base: nat, n: nat) {
    base <= x < base + n
  }

  function Range(base: nat, n: nat): set<int> {
    set x | base <= x < base + n && InRange(x, base, n)
  }

  lemma ExtendKeys(g: Guest, bs: seq<Binding>, b: Binding, content: Bytes, a: int)
    requires (a in g <==> Mapped(bs, a)) && |content| == b.size
    ensures a in Extend(g, b.base, content) <==> Mapped(bs + [b], a)
  {
    var all := bs + [b];
    if Mapped(bs, a) {
      var i :| 0 <= i < |bs| && bs[i].Covers(a);
      assert all[i].Covers(a);
    }
    if b.Covers(a) {
      assert all[|bs|].Covers(a);
    }
  }

  lemma ExtendAt(g: Guest, bs: seq<Binding>, m: Memory, b: Binding, i: nat, a: int)
    requires Mirrors(g, bs, m) && b.resource in m && |m[b.resource]| == b.size && i < |bs| && bs[i].Covers(a)
    requires !bs[i].Overlaps(b)
    ensures a in g && Extend(g, b.base, m[b.resource])[a] == m[bs[i].resource][a - bs[i].base]
  {
    assert Mapped(bs, a);
  }

  lemma ExtendMirrors(g: Guest, bs: seq<Binding>, m: Memory, b: Binding)
    requires Mirrors(g, bs, m) && Separate(bs + [b]) && b.resource in m && |m[b.resource]| == b.size
    ensures Mirrors(Extend(g, b.base, m[b.resource]), bs + [b], m)
  {
    hide Extend;
    var e, all := Extend(g, b.base, m[b.resource]), bs + [b];
    forall a ensures a in e <==> Mapped(all, a) {
      ExtendKeys(g, bs, b, m[b.resource], a);
    }
    forall i, a | 0 <= i < |all| && all[i].Covers(a) ensures a in e && e[a] == m[all[i].resource][a - all[i].base] {
      if i < |bs| {
        assert !all[i].Overlaps(all[|bs|]);
        ExtendAt(g, bs, m, b, i, a);
      } else {
        ExtendNew(g, b.base, m[b.resource], a);
      }
    }
  }

  lemma ExtendNew(g: Guest, base: nat, content: Bytes, a: int)
    requires base <= a < base + |content|
    ensures a in Extend(g, base, content) && Extend(g, base, content)[a] == content[a - base]
  {
  }
}
