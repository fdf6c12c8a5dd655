/**
 The slab pool object (pkg/net/internal/bufreader/pool.go). A byte slice is an array, whose
 length is the slice's capacity, together with a length kept by its holder.
 */
module SlabPool {
  import opened Wrappers
  import opened Bytes
  import opened SizeClasses
  import opened Recycling

  class SyncPool {
    const params: Params
    const classesSize: seq<int>
    const sizeLookup: seq<uint8>
    var classes: seq<set<array<byte>>>
    /** The buffers in the free lists. */
    ghost var free: set<array<byte>>
    /** The tables as functions, and the request sizes this pool is used for. */
    ghost const slab: Slab
    ghost const sizes: iset<int>

    ghost predicate TablesRight() {
      && 0 < params.max == slab.max
      && |sizeLookup| == slab.max + 1
      && (forall s :: 0 <= s <= slab.max ==> sizeLookup[s] as int == slab.cls(s) < |classesSize|)
      && (forall k :: 0 <= k < |classesSize| ==> 0 <= classesSize[k] == slab.size(k) <= slab.max)
    }

    ghost predicate Valid()
      reads this
    {
      && TablesRight()
      && |classes| == |classesSize|
      && (forall k, b :: 0 <= k < |classes| && b in classes[k] ==>
                           b in free && b.Length <= slab.max && slab.cls(b.Length) == k)
      && (forall b :: b in free ==> Poolable(b) && b in classes[slab.cls(b.Length)])
    }

    /** `b` has a capacity that some served request was given. */
    ghost predicate Served(b: array<byte>) {
      Made(slab, sizes, b.Length)
    }

    ghost predicate Poolable(b: array<byte>)
      reads this
    {
      b.Length <= slab.max && Served(b) && slab.cls(b.Length) < |classes|
    }

    constructor (p: Params, classesSize: seq<int>, sizeLookup: seq<uint8>, ghost sizes: iset<int>)
      requires p.Valid() && |classesSize| == ClassCount(p) && |sizeLookup| == p.max + 1
      requires forall k :: 0 <= k < |classesSize| ==> classesSize[k] == ClassSize(p, k)
      requires forall s :: 0 <= s <= p.max ==> sizeLookup[s] as int == Entry(p, s)
      ensures Valid() && free == {}
      ensures params == p && slab == SlabOf(p) && this.sizes == sizes
    {
      params := p;
      this.classesSize := classesSize;
      this.sizeLookup := sizeLookup;
      classes := seq(|classesSize|, _ => {});
      free := {};
      slab := SlabOf(p);
      this.sizes := sizes;
      new;
      forall k | 0 <= k < |classesSize| ensures 0 <= classesSize[k] <= p.max {
        ClassSizesGrow(p, k, k);
      }
    }

    /** What `Get` may do: hand out a free buffer of the class, or make a new one. */
    method Get(k: nat, reuse: array?<byte>) returns (mem: array<byte>)
      requires Valid() && k < |classes|
      modifies this`classes, this`free
      ensures Valid()
      ensures reuse != null && reuse in old(classes[k]) ==> mem == reuse && free == old(free) - {mem}
      ensures !(reuse != null && reuse in old(classes[k])) ==>
                fresh(mem) && mem.Length == classesSize[k] && free == old(free)
    {
      if reuse != null && reuse in classes[k] {
        mem := reuse;
        classes := classes[k := classes[k] - {mem}];
        free := free - {mem};
      } else {
        mem := new byte[classesSize[k]];
      }
    }

    /** `sync.Pool` may release any idle buffer. */
    method Drop(k: nat, mem: array<byte>)
      requires Valid() && k < |classes|
      modifies this`classes, this`free
      ensures Valid() && free == if mem in old(classes[k]) then old(free) - {mem} else old(free)
    {
      if mem in classes[k] {
        classes := classes[k := classes[k] - {mem}];
        free := free - {mem};
      }
    }

    /**
     `Alloc`. The result is absent where Go would panic on `(*mem)[:size]`; that never
     happens when the sizes in use do not clash.
     */
    method Alloc(size: int, reuse: array?<byte>) returns (mem: Option<array<byte>>)
      requires Valid() && size in sizes
      modifies this`classes, this`free
      ensures Valid()
      ensures NoClash(slab, sizes) ==> mem.Some?
      ensures mem.Some? ==>
                && size <= mem.value.Length && mem.value !in free && Served(mem.value)
                && if mem.value in old(free)
                   then mem.value == reuse && Drawn(size, mem.value) && free == old(free) - {mem.value}
                   else fresh(mem.value) && mem.value.Length == CapFor(slab, size) && free == old(free)
      ensures reuse != null && reuse in old(free) && Drawn(size, reuse) ==>
                mem == if size <= reuse.Length then Some(reuse) else None
      ensures free <= old(free)
    {
      if size <= 0 {
        var b := new byte[0];
        assert CapFor(slab, size) == 0;
        return Some(b);
      }
      if size <= params.max {
        var k := sizeLookup[size] as int;
        var b := Get(k, reuse);
        if b.Length != classesSize[k] {
          assert Poolable(b);
        }
        assert Served(b) by {
          if fresh(b) { assert CapFor(slab, size) == b.Length; }
        }
        if size <= b.Length {
          return Some(b);
        }
        MisfitClashes(size, b.Length);
        return None;
      }
      var b := new byte[size];
      assert CapFor(slab, size) == size;
      return Some(b);
    }

    /** A request of `size` bytes draws from the class `b` is filed in. */
    ghost predicate Drawn(size: int, b: array<byte>) {
      1 <= size <= slab.max && b.Length <= slab.max && slab.cls(b.Length) == slab.cls(size)
    }

    lemma MisfitClashes(size: int, cap: nat)
      requires size in sizes && 1 <= size <= slab.max && Made(slab, sizes, cap)
      requires (cap <= slab.max && slab.cls(cap) == slab.cls(size)) || cap == CapFor(slab, size)
      requires cap < size
      ensures !NoClash(slab, sizes)
    {
      var s :| s in sizes && cap == CapFor(slab, s);
      assert Filed(slab, s, size) || CapFor(slab, size) < size;
    }

    /** `Size`: the capacity a poolable request is given. */
    method Size(size: int) returns (n: int)
      requires Valid()
      ensures n == if size <= 0 then size else CapFor(slab, size)
    {
      if size <= 0 || size > params.max {
        return size;
      }
      return classesSize[sizeLookup[size] as int];
    }

    /** `Free` of a buffer that came from `Alloc`. */
    method Free(mem: array?<byte>)
      requires Valid() && (mem != null ==> Served(mem) && mem !in free)
      modifies this`classes, this`free
      ensures Valid()
      ensures free == old(free) + (if mem != null && mem.Length <= slab.max then {mem} else {})
    {
      if mem != null && mem.Length <= params.max {
        var k := sizeLookup[mem.Length] as int;
        classes := classes[k := classes[k] + {mem}];
        free := free + {mem};
      }
    }
  }

  datatype PoolError = InvalidSize

  /** `NewSyncPool`. */
  method NewSyncPool(minSize: int, maxSize: int, factor: int, ghost sizes: iset<int>)
    returns (res: Result<SyncPool, PoolError>)
    ensures res.Ok? <==> Params(minSize, maxSize, factor).Valid()
    ensures res.Ok? ==>
              && fresh(res.value) && res.value.Valid() && res.value.free == {}
              && res.value.params == Params(minSize, maxSize, factor)
              && res.value.slab == SlabOf(res.value.params) && res.value.sizes == sizes
  {
    if minSize <= 0 || maxSize < minSize || factor <= 0 {
      return Err(InvalidSize);
    }
    var p := Params(minSize, maxSize, factor);
    var n := CountClasses(p);
    var classesSize, sizeLookup := FillTables(p, n);
    var pool := new SyncPool(p, classesSize[..], sizeLookup[..], sizes);
    return Ok(pool);
  }
}
