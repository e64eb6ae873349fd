/** d3d12_resource_allocator.cpp: move-only handles that share one set of books. */
module ResourceAllocator {
  import opened D3d12

  /** What a live handle was charged. */
  datatype Charge = Charge(bytes: nat, heap: Heap)

  datatype Account = DefaultAccount | UploadAccount | ReadbackAccount

  function AccountOf(heap: Heap): Account {
    match heap
    case Upload => UploadAccount
    case Readback => ReadbackAccount
    case _ => DefaultAccount
  }

  function Share(c: Charge, account: Account): nat {
    if AccountOf(c.heap) == account then c.bytes else 0
  }

  type Charges = map<Handle, Charge>

  /** The bytes charged to an account. */
  ghost function Total(charges: Charges, account: Account): nat {
    if charges == map[] then 0
    else
      var h :| h in charges;
      Share(charges[h], account) + Total(charges - {h}, account)
  }

  /** The order of adding up does not matter. */
  lemma {:induction false} TotalWithout(charges: Charges, h: Handle, account: Account)
    requires h in charges
    ensures Total(charges, account) == Share(charges[h], account) + Total(charges - {h}, account)
    decreases |charges|
  {
    var g :| g in charges && Total(charges, account) == Share(charges[g], account) + Total(charges - {g}, account);
    if g != h {
      TotalWithout(charges - {g}, h, account);
      TotalWithout(charges - {h}, g, account);
      assert charges - {g} - {h} == charges - {h} - {g};
    }
  }

  lemma TotalWith(charges: Charges, h: Handle, c: Charge, account: Account)
    requires h !in charges
    ensures Total(charges[h := c], account) == Share(c, account) + Total(charges, account)
  {
    TotalWithout(charges[h := c], h, account);
    assert charges[h := c] - {h} == charges;
  }

  /** The shared books. Fields are nat: that they never drop below zero is part of every proof below. */
  class Accounting {
    const budget: nat
    var liveBytes: nat
    var peakBytes: nat
    var defaultBytes: nat
    var uploadBytes: nat
    var readbackBytes: nat
    var liveResources: nat
    var created: nat
    var failed: nat
    /** The handles that hold a resource, with what they were charged. */
    ghost var charges: Charges

    ghost predicate Balanced()
      reads this
    {
      && defaultBytes == Total(charges, DefaultAccount)
      && uploadBytes == Total(charges, UploadAccount)
      && readbackBytes == Total(charges, ReadbackAccount)
      && liveBytes == defaultBytes + uploadBytes + readbackBytes
      && liveResources == |charges|
      && liveBytes <= peakBytes <= budget
    }

    /** Every charged handle knows it. */
    ghost predicate Known()
      reads this, charges.Keys
    {
      forall h :: h in charges ==> h.accounting == this && charges[h] == Charge(h.bytes, h.heap)
    }

    ghost predicate Valid()
      reads this, charges.Keys
    {
      Balanced() && Known()
    }

    constructor (budget: nat)
      ensures Valid() && this.budget == budget && charges == map[] && liveBytes == 0 && peakBytes == 0
    {
      this.budget := budget;
      liveBytes, peakBytes, defaultBytes, uploadBytes, readbackBytes := 0, 0, 0, 0, 0;
      liveResources, created, failed := 0, 0, 0;
      charges := map[];
    }

    /** Books one more resource. */
    method Book(h: Handle, bytes: nat, heap: Heap)
      requires Balanced() && h !in charges && liveBytes + bytes <= budget
      modifies this
      ensures Balanced() && charges == old(charges)[h := Charge(bytes, heap)]
      ensures liveBytes == old(liveBytes) + bytes && created == old(created) + 1 && failed == old(failed)
      ensures peakBytes == if old(peakBytes) > liveBytes then old(peakBytes) else liveBytes
    {
      hide Total;
      TotalWith(charges, h, Charge(bytes, heap), DefaultAccount);
      TotalWith(charges, h, Charge(bytes, heap), UploadAccount);
      TotalWith(charges, h, Charge(bytes, heap), ReadbackAccount);
      liveBytes := liveBytes + bytes;
      match heap {
        case Upload => uploadBytes := uploadBytes + bytes;
        case Readback => readbackBytes := readbackBytes + bytes;
        case _ => defaultBytes := defaultBytes + bytes;
      }
      liveResources := liveResources + 1;
      created := created + 1;
      peakBytes := if peakBytes > liveBytes then peakBytes else liveBytes;
      charges := charges[h := Charge(bytes, heap)];
    }

    /** Takes a resource off the books. */
    method Refund(h: Handle, bytes: nat, heap: Heap)
      requires Balanced() && h in charges && charges[h] == Charge(bytes, heap)
      modifies this
      ensures Balanced() && charges == old(charges) - {h}
      ensures liveBytes == old(liveBytes) - bytes && peakBytes == old(peakBytes)
      ensures created == old(created) && failed == old(failed)
    {
      hide Total;
      TotalWithout(charges, h, DefaultAccount);
      TotalWithout(charges, h, UploadAccount);
      TotalWithout(charges, h, ReadbackAccount);
      liveBytes := liveBytes - bytes;
      match heap {
        case Upload => uploadBytes := uploadBytes - bytes;
        case Readback => readbackBytes := readbackBytes - bytes;
        case _ => defaultBytes := defaultBytes - bytes;
      }
      liveResources := liveResources - 1;
      charges := charges - {h};
    }

    twostate predicate SameTotals()
      reads this
    {
      && liveBytes == old(liveBytes) && peakBytes == old(peakBytes) && liveResources == old(liveResources)
      && defaultBytes == old(defaultBytes) && uploadBytes == old(uploadBytes) && readbackBytes == old(readbackBytes)
      && created == old(created) && failed == old(failed)
    }

    /** A charge changes hands. */
    ghost method Rename(from: Handle, to: Handle)
      requires Balanced() && from in charges && to !in charges
      modifies `charges
      ensures Balanced() && charges == (old(charges) - {from})[to := old(charges)[from]]
    {
      hide Total;
      TotalMoved(charges, from, to, DefaultAccount);
      TotalMoved(charges, from, to, UploadAccount);
      TotalMoved(charges, from, to, ReadbackAccount);
      charges := (charges - {from})[to := charges[from]];
    }
  }

  lemma TotalMoved(charges: Charges, from: Handle, to: Handle, account: Account)
    requires from in charges && to !in charges
    ensures Total((charges - {from})[to := charges[from]], account) == Total(charges, account)
  {
    TotalWithout(charges, from, account);
    TotalWith(charges - {from}, to, charges[from], account);
  }

  class Handle {
    var accounting: Accounting?
    var resource: nat
    var bytes: nat
    var heap: Heap

    constructor ()
      ensures accounting == null && Proper()
    {
      accounting, resource, bytes, heap := null, 0, 0, Default;
    }

    /** Empty, or on the books of its allocator. */
    ghost predicate Proper()
      reads this, accounting
    {
      if accounting == null then bytes == 0 && resource == 0 else this in accounting.charges
    }

    method Reset()
      requires Proper() && (accounting != null ==> accounting.Valid())
      modifies this, accounting
      ensures accounting == null && Proper()
      ensures var a := old(accounting);
              a != null ==>
                && a.Valid() && a.charges == old(a.charges) - {this}
                && a.liveBytes == old(a.liveBytes) - old(bytes) && a.peakBytes == old(a.peakBytes)
                && a.failed == old(a.failed) && a.created == old(a.created)
    {
      resource := 0;
      if accounting != null {
        accounting.Refund(this, bytes, heap);
      }
      accounting, bytes := null, 0;
    }

    /** An empty handle takes over what other holds. */
    method Take(other: Handle)
      requires this != other && accounting == null && other.Proper()
      requires (other.accounting != null ==> other.accounting.Valid())
      modifies this, other, other.accounting
      ensures Proper() && other.Proper() && accounting == old(other.accounting) && other.accounting == null
      ensures resource == old(other.resource) && bytes == old(other.bytes) && heap == old(other.heap)
      ensures accounting != null ==> accounting.Valid() && accounting.SameTotals()
      ensures accounting != null ==> accounting.charges.Keys == old(other.accounting.charges.Keys) - {other} + {this}
    {
      hide Accounting.Balanced;
      if other.accounting != null {
        other.accounting.Rename(other, this);
      }
      accounting, resource, bytes, heap := other.accounting, other.resource, other.bytes, other.heap;
      other.accounting, other.resource, other.bytes := null, 0, 0;
    }

    /** Move assignment: what this handle held is released first, from whatever books; assigning a handle to itself does
        nothing. */
    method MoveFrom(other: Handle)
      requires Proper() && other.Proper() && (accounting != null ==> accounting.Valid())
      requires other.accounting != null ==> other.accounting.Valid()
      modifies this, other, accounting, other.accounting
      ensures Proper() && other.Proper()
      ensures this == other ==> unchanged(this) && (accounting != null ==> unchanged(accounting))
      ensures this != other ==> accounting == old(other.accounting) && other.accounting == null
      ensures this != other ==> resource == old(other.resource) && bytes == old(other.bytes) && heap == old(other.heap)
      ensures this != other && accounting != null ==>
                accounting.Valid() && accounting.peakBytes == old(other.accounting.peakBytes)
      ensures this != other && accounting != null ==>
                accounting.liveBytes == old(other.accounting.liveBytes)
                                        - if accounting == old(accounting) then old(bytes) else 0
      ensures this != other && accounting != null ==> accounting.failed == old(other.accounting.failed)
      ensures this != other && accounting != null ==>
                accounting.charges.Keys == old(other.accounting.charges.Keys) - {other} + {this}
      ensures this != other && old(accounting) != null && accounting != old(accounting) ==>
                old(accounting).charges.Keys == old(accounting.charges.Keys) - {this}
      ensures this != other && old(accounting) != null ==> old(accounting).Valid()
      ensures this != other && old(accounting) != null ==>
                old(accounting).liveBytes == old(accounting.liveBytes) - old(bytes)
      ensures this != other && old(accounting) != null && accounting != old(accounting) ==>
                old(accounting).failed == old(accounting.failed)
    {
      hide Accounting.Balanced;
      if this != other {
        Reset();
        Take(other);
      }
    }
  }

  class Allocator {
    var accounting: Accounting?

    constructor ()
      ensures accounting == null
    {
      accounting := null;
    }

    method Initialize(device: bool, budget: nat) returns (e: Status)
      modifies this
      ensures e == if !device || budget == 0 then Failed(InvalidArg)
                  else if old(accounting) != null then Failed(Unexpected) else Success
      ensures e.Failed? ==> accounting == old(accounting)
      ensures e.Success? ==>
                fresh(accounting) && accounting.Valid() && accounting.budget == budget && accounting.charges == map[]
    {
      if !device || budget == 0 {
        return Failed(InvalidArg);
      }
      if accounting != null {
        return Failed(Unexpected);
      }
      accounting := new Accounting(budget);
      return Success;
    }

    method Reject(error: D3d12.Error) returns (e: Status)
      modifies accounting
      ensures e == Failed(error)
      ensures accounting != null ==>
                accounting.failed == old(accounting.failed) + 1 && accounting.charges == old(accounting.charges)
      ensures accounting != null && old(accounting.Valid()) ==>
                accounting.Valid() && accounting.liveBytes == old(accounting.liveBytes)
      ensures accounting != null ==> accounting.peakBytes == old(accounting.peakBytes)
    {
      if accounting != null {
        accounting.failed := accounting.failed + 1;
      }
      return Failed(error);
    }

    /** size is the device's allocation size. Both the new and the replaced resource are on the books for a moment:
        the replaced one is let go only after the new one exists. */
    method Create(size: U64, heap: Heap, output: Handle) returns (e: Status)
      requires accounting != null ==> accounting.Valid() && accounting.budget <= MAX_U64
      requires output.Proper() && (output.accounting != null ==> output.accounting.Valid())
      modifies accounting, output, output.accounting
      ensures output.Proper() && (accounting != null ==> accounting.Valid())
      ensures old(output.accounting) != null ==> old(output.accounting).Valid()
      ensures e.Failed? ==> unchanged(output)
      ensures e.Failed? && output.accounting != null && output.accounting != accounting ==> unchanged(output.accounting)
      ensures e.Failed? && accounting != null ==> accounting.failed == old(accounting.failed) + 1
      ensures e.Failed? && accounting != null ==> accounting.charges == old(accounting.charges)
      ensures e.Success? ==>
                accounting != null && output.accounting == accounting && output.bytes == size && output.heap == heap
      ensures e.Success? ==> 0 < size <= accounting.budget - old(accounting.liveBytes)
      ensures e.Success? ==>
                accounting.liveBytes == old(accounting.liveBytes) + size
                                        - if old(output.accounting) == accounting then old(output.bytes) else 0
      ensures e.Success? && old(output.accounting) != null && old(output.accounting) != accounting ==>
                && old(output.accounting).liveBytes == old(output.accounting.liveBytes) - old(output.bytes)
                && old(output.accounting).charges.Keys == old(output.accounting.charges.Keys) - {output}
      ensures e.Success? ==> accounting.peakBytes >= old(accounting.liveBytes) + size
      ensures e.Success? ==> accounting.charges.Keys == old(accounting.charges.Keys) + {output}
    {
      hide Accounting.Balanced;
      if accounting == null {
        return Failed(Unexpected);
      }
      if size == 0 || size == MAX_U64 {
        e := Reject(InvalidArg);
        return;
      }
      InBudget(accounting);
      if size > accounting.budget - accounting.liveBytes {
        e := Reject(OutOfMemory);
        return;
      }
      if * {
        e := Reject(DeviceError);
        return;
      }
      var created := NewHandle(size, heap);
      output.MoveFrom(created);
      return Success;
    }

    /** The created resource, on the books. */
    method NewHandle(size: nat, heap: Heap) returns (created: Handle)
      requires accounting != null && accounting.Valid() && accounting.liveBytes + size <= accounting.budget
      modifies accounting
      ensures fresh(created) && created.accounting == accounting && created.bytes == size && created.heap == heap
      ensures created.Proper() && accounting.Valid()
      ensures accounting.charges.Keys == old(accounting.charges.Keys) + {created}
      ensures accounting.liveBytes == old(accounting.liveBytes) + size && accounting.peakBytes >= accounting.liveBytes
      ensures accounting.failed == old(accounting.failed)
    {
      hide Total;
      created := new Handle();
      created.accounting, created.resource, created.bytes, created.heap := accounting, 1, size, heap;
      accounting.Book(created, size, heap);
    }
  }

  lemma InBudget(a: Accounting)
    requires a.Valid()
    ensures a.liveBytes <= a.budget
  {
  }

  // ----- every interleaving ------------------------------------------------------------------------------------------

  datatype Operation =
    | Creation(allocator: nat, output: nat, size: U64, heap: Heap)
    | Assignment(from: nat, to: nat)
    | Reset(which: nat)

  /** The handles of a program, on the books of one allocator or another: all proper, and the only ones there. */
  ghost predicate Owned(pool: seq<Handle>, books: set<Accounting>)
    reads pool, books, set b, h | b in books && h in b.charges :: h
  {
    && (forall b :: b in books ==> b.Valid() && b.budget <= MAX_U64)
    && (forall h :: h in pool ==> h.accounting == null || (h.accounting in books && h in h.accounting.charges))
    && (forall h :: h in pool && h.accounting == null ==> h.bytes == 0 && h.resource == 0)
    && (forall b, h :: b in books && h in b.charges ==> h in pool)
  }

  predicate InPool(o: Operation, allocators: nat, handles: nat) {
    match o
    case Creation(a, i, _, _) => a < allocators && i < handles
    case Assignment(i, j) => i < handles && j < handles
    case Reset(i) => i < handles
  }

  /** The books of initialized allocators. */
  ghost function Books(allocators: seq<Allocator>): set<Accounting>
    reads allocators
  {
    set a | a in allocators && a.accounting != null :: a.accounting
  }

  method Make(allocator: Allocator, ghost books: set<Accounting>, pool: seq<Handle>, output: Handle, size: U64,
              heap: Heap)
    requires Owned(pool, books) && output in pool && (allocator.accounting != null ==> allocator.accounting in books)
    modifies books, pool
    ensures Owned(pool, books)
  {
    hide Accounting.Balanced;
    var e := allocator.Create(size, heap, output);
  }

  method Move(ghost books: set<Accounting>, pool: seq<Handle>, from: Handle, to: Handle)
    requires Owned(pool, books) && from in pool && to in pool
    modifies books, pool
    ensures Owned(pool, books)
  {
    hide Accounting.Balanced;
    to.MoveFrom(from);
  }

  method Release(ghost books: set<Accounting>, pool: seq<Handle>, handle: Handle)
    requires Owned(pool, books) && handle in pool
    modifies books, pool
    ensures Owned(pool, books)
  {
    hide Accounting.Balanced;
    handle.Reset();
  }

  lemma InBooks(allocators: seq<Allocator>, a: nat)
    requires a < |allocators|
    ensures allocators[a].accounting != null ==> allocators[a].accounting in Books(allocators)
  {
  }

  /** Whatever is created, moved and released, between any allocators: all books stay balanced and within their
      budgets. */
  method Run(allocators: seq<Allocator>, pool: seq<Handle>, operations: seq<Operation>)
    requires Owned(pool, Books(allocators))
    requires forall i :: 0 <= i < |operations| ==> InPool(operations[i], |allocators|, |pool|)
    modifies Books(allocators), pool
    ensures Owned(pool, Books(allocators))
  {
    hide Owned, Books;
    for n := 0 to |operations|
      invariant Owned(pool, Books(allocators))
    {
      ghost var books := Books(allocators);
      match operations[n] {
        case Creation(a, i, size, heap) =>
          InBooks(allocators, a);
          Make(allocators[a], books, pool, pool[i], size, heap);
        case Assignment(i, j) => Move(books, pool, pool[i], pool[j]);
        case Reset(i) => Release(books, pool, pool[i]);
      }
    }
  }
}
