/**
 Histories of `Alloc` and `Free` on the slab pool (pkg/net/internal/bufreader/pool.go).
 A buffer is represented by its capacity; each free list may lose items at any time, as
 `sync.Pool` allows. `Alloc` panics when it reslices past the capacity of the buffer
 it was handed.
 */
module Recycling {
  import opened Wrappers
  import opened PowerOfTwo
  import opened SizeClasses

  /** What `Alloc` and `Free` consult: the lookup table and the class sizes. */
  datatype Slab = Slab(max: int, cls: nat -> nat, size: nat -> nat)

  /** The tables `NewSyncPool` builds. */
  function SlabOf(p: Params): Slab
    requires p.Valid()
  {
    Slab(p.max, s => Entry(p, s), k => SizeAsNat(p, k))
  }

  function SizeAsNat(p: Params, k: nat): nat
    requires p.Valid()
  {
    ClassSizesGrow(p, k, k);
    ClassSize(p, k)
  }

  /** A buffer lying in the free list of class `cls`. */
  datatype Item = Item(cls: nat, cap: nat)

  datatype State = State(free: multiset<Item>, held: multiset<nat>)

  datatype Outcome = Running(state: State) | Panicked

  /** `Alloc(size, reuse)` takes a recycled buffer of capacity `reuse`, if there is one. */
  datatype Op = Alloc(size: int, reuse: Option<nat>) | Free(cap: nat) | Drop(item: Item)

  const EMPTY := State(multiset{}, multiset{})

  function Reslice(st: State, cap: nat, size: int): Outcome {
    if size <= cap then Running(st.(held := st.held + multiset{cap})) else Panicked
  }

  function Exec(slab: Slab, st: State, op: Op): Outcome {
    match op
    case Alloc(size, reuse) =>
      if size <= 0 then Reslice(st, 0, 0)
      else if size > slab.max then Reslice(st, size, size)
      else
        var cls := slab.cls(size);
        if reuse.Some? && Item(cls, reuse.value) in st.free then
          Reslice(st.(free := st.free - multiset{Item(cls, reuse.value)}), reuse.value, size)
        else
          Reslice(st, slab.size(cls), size)
    case Free(cap) =>
      if cap !in st.held then Running(st)
      else
        var held := st.held - multiset{cap};
        if cap <= slab.max then Running(State(st.free + multiset{Item(slab.cls(cap), cap)}, held))
        else Running(State(st.free, held))
    case Drop(item) => Running(st.(free := st.free - multiset{item}))
  }

  function Run(slab: Slab, st: State, history: seq<Op>): Outcome
    decreases |history|
  {
    if history == [] then Running(st)
    else
      match Exec(slab, st, history[0])
      case Panicked => Panicked
      case Running(next) => Run(slab, next, history[1..])
  }

  /** The capacity of a buffer made for a request of `s` bytes. */
  function CapFor(slab: Slab, s: int): nat {
    if s <= 0 then 0
    else if s > slab.max then s
    else slab.size(slab.cls(s))
  }

  ghost predicate RequestsIn(history: seq<Op>, sizes: iset<int>) {
    forall i :: 0 <= i < |history| && history[i].Alloc? ==> history[i].size in sizes
  }

  /**
   The condition on the request sizes: every poolable request fits its own class, and no
   buffer made for one request is filed where a larger request draws from.
   */
  ghost predicate NoClash(slab: Slab, sizes: iset<int>) {
    forall t :: t in sizes && 1 <= t <= slab.max ==>
                  && t <= CapFor(slab, t)
                  && forall s :: s in sizes && Filed(slab, s, t) ==> t <= CapFor(slab, s)
  }

  /** A buffer made for `s` is filed, when freed, in the class that `t` draws from. */
  ghost predicate Filed(slab: Slab, s: int, t: nat) {
    CapFor(slab, s) <= slab.max && slab.cls(CapFor(slab, s)) == slab.cls(t)
  }

  ghost predicate Made(slab: Slab, sizes: iset<int>, cap: nat) {
    exists s :: s in sizes && cap == CapFor(slab, s)
  }

  ghost predicate Inv(slab: Slab, sizes: iset<int>, st: State) {
    && (forall c :: c in st.held ==> Made(slab, sizes, c))
    && (forall it :: it in st.free ==>
                       it.cap <= slab.max && it.cls == slab.cls(it.cap) && Made(slab, sizes, it.cap))
  }

  lemma {:induction false} ExecSafe(slab: Slab, sizes: iset<int>, st: State, op: Op)
    requires NoClash(slab, sizes) && Inv(slab, sizes, st)
    requires op.Alloc? ==> op.size in sizes
    ensures Exec(slab, st, op).Running? && Inv(slab, sizes, Exec(slab, st, op).state)
  {
    match op {
      case Alloc(size, reuse) =>
        AllocSafe(slab, sizes, st, size, reuse);
      case Free(cap) =>
        FreeSafe(slab, sizes, st, cap);
      case Drop(_) =>
    }
  }

  lemma {:induction false} FreeSafe(slab: Slab, sizes: iset<int>, st: State, cap: nat)
    requires Inv(slab, sizes, st)
    ensures var next := Exec(slab, st, Free(cap));
            next.Running? && Inv(slab, sizes, next.state)
  {
    if cap in st.held {
      assert Made(slab, sizes, cap);
    }
  }

  lemma {:induction false} AllocSafe(slab: Slab, sizes: iset<int>, st: State, size: int, reuse: Option<nat>)
    requires NoClash(slab, sizes) && Inv(slab, sizes, st) && size in sizes
    ensures var next := Exec(slab, st, Alloc(size, reuse));
            next.Running? && Inv(slab, sizes, next.state)
  {
    assert Made(slab, sizes, CapFor(slab, size));
    if 1 <= size <= slab.max && reuse.Some? && Item(slab.cls(size), reuse.value) in st.free {
      ReuseFits(slab, sizes, st, size, reuse.value);
    }
  }

  /** A recycled buffer of the class drawn from is large enough. */
  lemma {:induction false} ReuseFits(slab: Slab, sizes: iset<int>, st: State, size: int, cap: nat)
    requires NoClash(slab, sizes) && Inv(slab, sizes, st) && size in sizes && 1 <= size <= slab.max
    requires Item(slab.cls(size), cap) in st.free
    ensures size <= cap && Made(slab, sizes, cap)
  {
    assert Made(slab, sizes, Item(slab.cls(size), cap).cap);
    var s :| s in sizes && cap == CapFor(slab, s);
    assert Filed(slab, s, size);
  }

  lemma {:induction false} RunSafe(slab: Slab, sizes: iset<int>, st: State, history: seq<Op>)
    requires NoClash(slab, sizes) && Inv(slab, sizes, st) && RequestsIn(history, sizes)
    ensures Run(slab, st, history).Running?
    decreases |history|
  {
    if history != [] {
      ExecSafe(slab, sizes, st, history[0]);
      RunSafe(slab, sizes, Exec(slab, st, history[0]).state, history[1..]);
    }
  }

  /** Allocate for `s`, free it, then allocate for `t` out of the recycled buffer. */
  function ClashHistory(slab: Slab, s: int, t: int): seq<Op>
  {
    [Alloc(s, None), Free(CapFor(slab, s)), Alloc(t, Some(CapFor(slab, s)))]
  }

  lemma RunThree(slab: Slab, st: State, a: Op, b: Op, c: Op, st1: State, st2: State)
    requires Exec(slab, st, a) == Running(st1) && Exec(slab, st1, b) == Running(st2)
    ensures Run(slab, st, [a, b, c]) == Exec(slab, st2, c)
  {
    assert [a, b, c][1..] == [b, c];
    assert [b, c][1..] == [c];
    assert [c][1..] == [];
    assert Run(slab, st2, [c]) == Exec(slab, st2, c);
    assert Run(slab, st1, [b, c]) == Run(slab, st2, [c]);
  }

  lemma MisfitPanics(slab: Slab, t: int)
    requires 1 <= t <= slab.max && CapFor(slab, t) < t
    ensures Run(slab, EMPTY, [Alloc(t, None)]) == Panicked
  {
  }

  lemma ClashPanics(slab: Slab, s: int, t: int)
    requires 1 <= t <= slab.max
    requires 1 <= s <= slab.max ==> s <= CapFor(slab, s)
    requires Filed(slab, s, t) && CapFor(slab, s) < t
    ensures Run(slab, EMPTY, ClashHistory(slab, s, t)) == Panicked
  {
    var c := CapFor(slab, s);
    var st1 := State(multiset{}, multiset{c});
    var st2 := State(multiset{Item(slab.cls(c), c)}, multiset{});
    assert EMPTY.held + multiset{c} == st1.held;
    assert Exec(slab, EMPTY, Alloc(s, None)) == Running(st1);
    assert st1.held - multiset{c} == st2.held && st1.free + multiset{Item(slab.cls(c), c)} == st2.free;
    assert Exec(slab, st1, Free(c)) == Running(st2);
    RunThree(slab, EMPTY, Alloc(s, None), Free(c), Alloc(t, Some(c)), st1, st2);
  }

  /** If the idle buffer is released in between, the same calls go well: the second one gets a new buffer. */
  lemma ReleaseAvoidsClash(slab: Slab, s: int, t: int)
    requires 1 <= t <= slab.max && t <= CapFor(slab, t)
    requires 1 <= s <= slab.max ==> s <= CapFor(slab, s)
    requires Filed(slab, s, t)
    ensures var c := CapFor(slab, s);
            Run(slab, EMPTY, [Alloc(s, None), Free(c), Drop(Item(slab.cls(c), c)), Alloc(t, Some(c))]) ==
            Running(State(multiset{}, multiset{CapFor(slab, t)}))
  {
    var c := CapFor(slab, s);
    var item := Item(slab.cls(c), c);
    var st1 := State(multiset{}, multiset{c});
    var st2 := State(multiset{item}, multiset{});
    assert EMPTY.held + multiset{c} == st1.held;
    assert Exec(slab, EMPTY, Alloc(s, None)) == Running(st1);
    assert st1.held - multiset{c} == st2.held && st1.free + multiset{item} == st2.free;
    assert Exec(slab, st1, Free(c)) == Running(st2);
    assert st2.free - multiset{item} == EMPTY.free;
    assert Exec(slab, st2, Drop(item)) == Running(EMPTY);
    assert EMPTY.held + multiset{CapFor(slab, t)} == multiset{CapFor(slab, t)};
    var h := [Alloc(s, None), Free(c), Drop(item), Alloc(t, Some(c))];
    assert h[1..] == [Free(c), Drop(item), Alloc(t, Some(c))];
    RunThree(slab, st1, Free(c), Drop(item), Alloc(t, Some(c)), st2, EMPTY);
  }

  /**
   For any pool and any set of request sizes: no history that requests only those sizes
   ever reslices past a buffer's capacity, if and only if the sizes do not clash.
   */
  lemma RecyclingSafeIff(slab: Slab, sizes: iset<int>)
    ensures (forall h :: RequestsIn(h, sizes) ==> Run(slab, EMPTY, h).Running?) <==> NoClash(slab, sizes)
  {
    if NoClash(slab, sizes) {
      forall h | RequestsIn(h, sizes) ensures Run(slab, EMPTY, h).Running? {
        RunSafe(slab, sizes, EMPTY, h);
      }
    } else {
      var h := ClashWitness(slab, sizes);
    }
  }

  lemma ClashWitness(slab: Slab, sizes: iset<int>) returns (h: seq<Op>)
    requires !NoClash(slab, sizes)
    ensures RequestsIn(h, sizes) && Run(slab, EMPTY, h) == Panicked
  {
    if t :| t in sizes && 1 <= t <= slab.max && CapFor(slab, t) < t {
      MisfitPanics(slab, t);
      h := [Alloc(t, None)];
    } else {
      var t, s :| t in sizes && 1 <= t <= slab.max && s in sizes && Filed(slab, s, t) && CapFor(slab, s) < t;
      ClashPanics(slab, s, t);
      h := ClashHistory(slab, s, t);
    }
  }

  // ---------- the default pool ----------

  /** The sizes a reader asks for: powers of two, and anything the pool does not keep. */
  ghost function ReaderSizes(max: int): iset<int> {
    iset s: int | IsPow2(s) || s > max
  }

  lemma PowersUpTo65536(t: int)
    requires IsPow2(t) && t <= 65536
    ensures 1 <= t <= 1024 || t in {2048, 4096, 8192, 16384, 32768, 65536}
  {
    var k: nat :| t == Pow2(k);
    Pow2Shifts();
    if k > 16 {
      Pow2Grows(16, k);
    }
    if k <= 10 {
      if k < 10 {
        Pow2Grows(k, 10);
      }
      Pow2Sum(8, 2, 10, 256, 4);
    } else {
      Pow2Sum(8, 2, 10, 256, 4);
      Pow2Sum(10, 1, 11, 1024, 2);
      Pow2Sum(11, 1, 12, 2048, 2);
      Pow2Sum(12, 1, 13, 4096, 2);
      Pow2Sum(13, 1, 14, 8192, 2);
      Pow2Sum(14, 1, 15, 16384, 2);
    }
  }

  /** `s` lies in the range of the default pool's class `k`. */
  ghost predicate InRange(s: nat, k: nat)
    requires k < 16
  {
    (k == 0 || DefaultSizes()[k - 1] <= s) && forall j :: k <= j < 15 ==> s < DefaultSizes()[j]
  }

  ghost predicate IsDefault(slab: Slab) {
    && slab.max == 65536
    && (forall k: nat :: k < 16 ==> slab.size(k) == DefaultSizes()[k])
    && (forall s: nat, k: nat :: k < 16 && InRange(s, k) ==> slab.cls(s) == k)
  }

  ghost predicate HasDefaultSizes(p: Params) {
    && p.Valid() && p.max == 65536 && ClassCount(p) == 16
    && forall k: nat :: k < 16 ==> ClassSize(p, k) == DefaultSizes()[k]
  }

  lemma EntryInRange(p: Params, s: nat, k: nat)
    requires HasDefaultSizes(p) && k < 16 && InRange(s, k)
    ensures Entry(p, s) == k
  {
    LookupExact(p, s, k);
  }

  lemma SlabIsDefault(p: Params)
    requires HasDefaultSizes(p)
    ensures IsDefault(SlabOf(p))
  {
    var slab := SlabOf(p);
    forall s: nat, k: nat | k < 16 && InRange(s, k)
      ensures slab.cls(s) == k
    {
      EntryInRange(p, s, k);
    }
    forall k: nat | k < 16
      ensures slab.size(k) == DefaultSizes()[k]
    {
    }
  }

  /** Class drawn from, capacity made, and class filed into, for a poolable reader size. */
  function DefaultRow(t: int): (nat, nat, nat) {
    if t <= 1024 then (0, 2048, 1)
    else if t == 2048 then (1, 3072, 2)
    else if t == 4096 then (3, 5120, 4)
    else if t == 8192 then (5, 11264, 6)
    else if t == 16384 then (7, 17408, 8)
    else if t == 32768 then (11, 37888, 12)
    else (15, 65536, 15)
  }

  lemma DefaultRowRight(slab: Slab, t: int)
    requires IsDefault(slab) && IsPow2(t) && t <= 65536
    ensures t >= 1
    ensures (slab.cls(t), CapFor(slab, t), slab.cls(CapFor(slab, t))) == DefaultRow(t)
  {
    PowersUpTo65536(t);
    var row := DefaultRow(t);
    assert InRange(t, row.0);
    assert InRange(row.1, row.2);
  }

  lemma RowsDoNotClash(slab: Slab)
    requires IsDefault(slab)
    ensures NoClash(slab, ReaderSizes(65536))
  {
    forall t | t in ReaderSizes(65536) && 1 <= t <= slab.max
      ensures t <= CapFor(slab, t)
      ensures forall s :: s in ReaderSizes(65536) && Filed(slab, s, t) ==> t <= CapFor(slab, s)
    {
      PowersUpTo65536(t);
      DefaultRowRight(slab, t);
      forall s | s in ReaderSizes(65536) && Filed(slab, s, t)
        ensures t <= CapFor(slab, s)
      {
        if s <= 65536 {
          PowersUpTo65536(s);
          DefaultRowRight(slab, s);
        }
      }
    }
  }

  /**
   On the default pool the sizes readers ask for never clash: the classes drawn from and
   the classes filed into meet only where the recycled buffer is large enough.
   */
  lemma DefaultPoolServesReaders(p: Params)
    requires p == DEFAULT
    ensures p.Valid() && NoClash(SlabOf(p), ReaderSizes(p.max))
  {
    DefaultClasses(p);
    SlabIsDefault(p);
    RowsDoNotClash(SlabOf(p));
  }

  /** Other sizes do clash: a buffer freed after a 4096-byte request breaks a 6000-byte one. */
  lemma DefaultPoolClashes(p: Params)
    requires p == DEFAULT
    ensures p.Valid() && Run(SlabOf(p), EMPTY, ClashHistory(SlabOf(p), 4096, 6000)) == Panicked
  {
    DefaultClasses(p);
    SlabIsDefault(p);
    DefaultClash(SlabOf(p));
  }

  lemma DefaultClash(slab: Slab)
    requires IsDefault(slab)
    ensures Run(slab, EMPTY, ClashHistory(slab, 4096, 6000)) == Panicked
  {
    assert InRange(4096, 3) && InRange(5120, 4) && InRange(6000, 4);
    ClashPanics(slab, 4096, 6000);
  }
}
