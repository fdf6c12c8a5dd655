/**
 The worker registry (pkg/net/internal/buckets.go): a sharded map from worker id to worker,
 and one global map from user id to worker id.
 */
module Registry {
  import opened Wrappers

  class Member {
    const wid: nat
    const uid: int

    constructor (wid: nat, uid: int)
      ensures this.wid == wid && this.uid == uid
    {
      this.wid, this.uid := wid, uid;
    }
  }

  /** The global `uidWidMap`. */
  class UidMap {
    var wids: map<int, nat>

    constructor ()
      ensures wids == map[]
    {
      wids := map[];
    }
  }

  /** Registry and uid index as plain maps. */
  datatype View = View(members: map<nat, Member>, wids: map<int, nat>)

  function PutView(v: View, w: Member): View {
    View(v.members[w.wid := w], v.wids[w.uid := w.wid])
  }

  function DelView(v: View, w: Member): View {
    if w.wid in v.members && v.members[w.wid] == w then View(v.members - {w.wid}, v.wids - {w.uid}) else v
  }

  function Find<K, V>(m: map<K, V>, k: K): Option<V> {
    if k in m then Some(m[k]) else None
  }

  /** A put or a deletion by some connection. */
  datatype Op = Put(w: Member) | Del(w: Member)

  function Apply(v: View, op: Op): View {
    match op
    case Put(w) => PutView(v, w)
    case Del(w) => DelView(v, w)
  }

  function ApplyAll(v: View, ops: seq<Op>): View {
    if ops == [] then v else Apply(ApplyAll(v, ops[..|ops| - 1]), ops[|ops| - 1])
  }

  /** For each uid looked up, what others do before the index is loaded and before the bucket is read. */
  type Others = nat -> (seq<Op>, seq<Op>)

  /** The registry after `n` lookups, to which the others alone contribute. */
  function ApplyOthers(v: View, others: Others, n: nat): View {
    if n == 0 then v else ApplyAll(ApplyAll(ApplyOthers(v, others, n - 1), others(n - 1).0), others(n - 1).1)
  }

  /** The registry when the index is loaded for the `k`-th uid. */
  function Loaded(v: View, others: Others, k: nat): View {
    ApplyAll(ApplyOthers(v, others, k), others(k).0)
  }

  /** What a lookup contributes that loads the index in one state and reads the bucket in another. */
  function LoadThenRead(loaded: View, read: View, uid: int): seq<Option<Member>> {
    if uid in loaded.wids then [Find(read.members, loaded.wids[uid])] else []
  }

  /** What `GetByUIDs` collects, in the order asked, while others put and delete. */
  function Entries(v: View, others: Others, uids: seq<int>): seq<Option<Member>> {
    if uids == [] then []
    else
      var k := |uids| - 1;
      Entries(v, others, uids[..k]) + LoadThenRead(Loaded(v, others, k), ApplyOthers(v, others, k + 1), uids[k])
  }

  lemma {:induction false} EntriesStep(v: View, others: Others, uids: seq<int>, i: nat)
    requires i < |uids|
    ensures Entries(v, others, uids[..i + 1]) ==
            Entries(v, others, uids[..i]) + LoadThenRead(Loaded(v, others, i), ApplyOthers(v, others, i + 1), uids[i])
    ensures ApplyOthers(v, others, i + 1) == ApplyAll(Loaded(v, others, i), others(i).1)
  {
    assert uids[..i + 1][..i] == uids[..i];
  }

  class Buckets {
    var buckets: seq<map<nat, Member>>
    const uidWids: UidMap

    /** Each worker lives in the one bucket its id selects. */
    ghost predicate Valid()
      reads this
    {
      |buckets| > 0 && Sharded(buckets, SlotOf(|buckets|))
    }

    ghost function Members(): map<nat, Member>
      requires Valid()
      reads this
    {
      Merge(buckets, SlotOf(|buckets|))
    }

    ghost function Abstract(): View
      requires Valid()
      reads this, uidWids
    {
      View(Members(), uidWids.wids)
    }

    constructor (size: nat, uidWids: UidMap)
      requires size > 0
      ensures Valid() && this.uidWids == uidWids && Members() == map[]
    {
      buckets := seq(size, _ => map[]);
      this.uidWids := uidWids;
      new;
      assert Keys(buckets) == {};
    }

    method Worker(key: nat) returns (w: Option<Member>)
      requires Valid()
      ensures w == Find(Members(), key)
    {
      MergeFind(buckets, SlotOf(|buckets|), key);
      w := Find(buckets[key % |buckets|], key);
    }

    method Put(w: Member) returns (old': Option<Member>)
      requires Valid()
      modifies this`buckets, uidWids
      ensures Valid() && Abstract() == PutView(old(Abstract()), w)
      ensures Members() == old(Members())[w.wid := w] && uidWids.wids == old(uidWids.wids)[w.uid := w.wid]
      ensures old' == Find(old(Members()), w.wid)
    {
      var i := w.wid % |buckets|;
      MergeFind(buckets, SlotOf(|buckets|), w.wid);
      old' := Find(buckets[i], w.wid);
      var bucket: map<nat, Member> := buckets[i][w.wid := w];
      MergePut(buckets, SlotOf(|buckets|), w, i, bucket);
      buckets := buckets[i := bucket];
      uidWids.wids := uidWids.wids[w.uid := w.wid];
    }

    method Del(dw: Member)
      requires Valid()
      modifies this`buckets, uidWids
      ensures Valid() && Abstract() == DelView(old(Abstract()), dw)
      ensures if Find(old(Members()), dw.wid) == Some(dw)
              then Members() == old(Members()) - {dw.wid} && uidWids.wids == old(uidWids.wids) - {dw.uid}
              else Members() == old(Members()) && uidWids.wids == old(uidWids.wids)
    {
      var i := dw.wid % |buckets|;
      MergeFind(buckets, SlotOf(|buckets|), dw.wid);
      if dw.wid in buckets[i] && buckets[i][dw.wid] == dw {
        var bucket: map<nat, Member> := buckets[i] - {dw.wid};
        MergeDel(buckets, SlotOf(|buckets|), dw.wid, i, bucket);
        buckets := buckets[i := bucket];
        uidWids.wids := uidWids.wids - {dw.uid};
      }
    }

    /** Any puts and deletions, in order. */
    method Replay(ops: seq<Op>)
      requires Valid()
      modifies this`buckets, uidWids
      ensures Valid() && Abstract() == ApplyAll(old(Abstract()), ops)
    {
      for i := 0 to |ops|
        invariant Valid() && Abstract() == ApplyAll(old(Abstract()), ops[..i])
      {
        match ops[i] {
          case Put(w) =>
            var _ := Put(w);
          case Del(w) =>
            Del(w);
        }
        assert ops[..i + 1][..i] == ops[..i];
      }
      assert ops[..|ops|] == ops;
    }

    /** The index is loaded first; `between` is what others do before the bucket is read. */
    method GetByUID(uid: int, between: seq<Op>) returns (w: Option<Member>)
      requires Valid()
      modifies this`buckets, uidWids
      ensures Valid()
      ensures uid !in old(Abstract()).wids ==> w == None && Abstract() == old(Abstract())
      ensures uid in old(Abstract()).wids ==>
                && Abstract() == ApplyAll(old(Abstract()), between)
                && w == Find(Abstract().members, old(Abstract()).wids[uid])
    {
      if uid !in uidWids.wids {
        return None;
      }
      var wid := uidWids.wids[uid];
      Replay(between);
      w := Worker(wid);
    }

    /** One uid of a group lookup, with what others do before the load and before the read. */
    method LookupOne(uid: int, before: seq<Op>, between: seq<Op>) returns (entry: seq<Option<Member>>)
      requires Valid()
      modifies this`buckets, uidWids
      ensures Valid()
      ensures var loaded := ApplyAll(old(Abstract()), before);
              var read := ApplyAll(loaded, between);
              Abstract() == read && entry == LoadThenRead(loaded, read, uid)
    {
      Replay(before);
      var loaded := Find(uidWids.wids, uid);
      Replay(between);
      if loaded.None? {
        return [];
      }
      var w := Worker(loaded.value);
      return [w];
    }

    /** One load and one bucket read per uid, with others acting before each of them. */
    method GetByUIDs(uids: seq<int>, others: Others) returns (workers: seq<Option<Member>>)
      requires Valid()
      modifies this`buckets, uidWids
      ensures Valid() && Abstract() == ApplyOthers(old(Abstract()), others, |uids|)
      ensures workers == Entries(old(Abstract()), others, uids)
    {
      workers := [];
      ghost var start := Abstract();
      for i := 0 to |uids|
        invariant Valid() && Abstract() == ApplyOthers(start, others, i)
        invariant workers == Entries(start, others, uids[..i])
      {
        var entry := LookupOne(uids[i], others(i).0, others(i).1);
        EntriesStep(start, others, uids, i);
        workers := workers + entry;
      }
      assert uids[..|uids|] == uids;
    }

    /**
     `Walk` with a callback that answers whether to go on. A refusal ends the walk of that
     bucket only. Each registered worker is visited at most once; one is missed only if the
     callback refused another of the same bucket.
     */
    method Walk(f: Member -> bool) returns (visited: seq<Member>)
      requires Valid()
      ensures DistinctIds(visited)
      ensures forall w :: w in visited ==> Find(Members(), w.wid) == Some(w)
      ensures forall k :: k in Members() && Members()[k] !in visited ==>
                            exists w :: w in visited && !f(w) && w.wid % |buckets| == k % |buckets|
    {
      ghost var slot := SlotOf(|buckets|);
      visited := [];
      for i := 0 to |buckets|
        invariant WalkedTo(buckets, slot, f, i, visited)
      {
        BucketIds(buckets, slot, i);
        var part := WalkBucket(buckets[i], f);
        WalkOneMore(buckets, slot, f, i, visited, part);
        visited := visited + part;
      }
      WalkedAll(buckets, slot, f, visited);
    }

    /** The ids of all registered workers, each once. */
    method WIDList() returns (ids: seq<nat>)
      requires Valid()
      ensures forall i, j :: 0 <= i < j < |ids| ==> ids[i] != ids[j]
      ensures forall k :: k in ids <==> k in Members()
    {
      var visited := Walk(_ => true);
      ids := [];
      for i := 0 to |visited|
        invariant |ids| == i && forall j :: 0 <= j < i ==> ids[j] == visited[j].wid
      {
        ids := ids + [visited[i].wid];
      }
      forall k | k in Members()
        ensures k in ids
      {
        MergeFind(buckets, SlotOf(|buckets|), k);
        var i :| 0 <= i < |visited| && visited[i] == Members()[k];
        assert ids[i] == k;
      }
    }
  }

  /** The bucket a key selects, among `n`. */
  function SlotOf(n: nat): (slot: nat -> nat)
    requires n > 0
    ensures forall k :: slot(k) < n
  {
    (k: nat) => k % n
  }

  ghost predicate Sharded(buckets: seq<map<nat, Member>>, slot: nat -> nat) {
    && (forall k :: slot(k) < |buckets|)
    && forall i, k :: 0 <= i < |buckets| && k in buckets[i] ==> slot(k) == i && buckets[i][k].wid == k
  }

  /** The one map the buckets stand for. */
  ghost function Merge(buckets: seq<map<nat, Member>>, slot: nat -> nat): map<nat, Member>
    requires Sharded(buckets, slot)
  {
    map k | k in Keys(buckets) :: buckets[slot(k)][k]
  }

  /** Looking a key up in the one map is looking it up in the bucket it selects. */
  lemma MergeFind(buckets: seq<map<nat, Member>>, slot: nat -> nat, k: nat)
    requires Sharded(buckets, slot)
    ensures Find(Merge(buckets, slot), k) == Find(buckets[slot(k)], k)
    ensures k in Merge(buckets, slot) ==> Merge(buckets, slot)[k].wid == k
  {
    if k in buckets[slot(k)] {
      assert k in Keys(buckets);
    }
  }

  /** Replacing one bucket changes what is found at that bucket's keys only. */
  lemma MergeReplace(buckets: seq<map<nat, Member>>, slot: nat -> nat, i: nat, bucket: map<nat, Member>, k: nat)
    requires Sharded(buckets, slot) && i < |buckets| && Sharded(buckets[i := bucket], slot)
    ensures Find(Merge(buckets[i := bucket], slot), k) ==
            if slot(k) == i then Find(bucket, k) else Find(Merge(buckets, slot), k)
  {
    MergeFind(buckets, slot, k);
    MergeFind(buckets[i := bucket], slot, k);
  }

  lemma ShardedReplace(buckets: seq<map<nat, Member>>, slot: nat -> nat, i: nat, bucket: map<nat, Member>)
    requires Sharded(buckets, slot) && i < |buckets|
    requires forall k :: k in bucket ==> slot(k) == i && bucket[k].wid == k
    ensures Sharded(buckets[i := bucket], slot)
  {
    var next: seq<map<nat, Member>> := buckets[i := bucket];
    forall j, k | 0 <= j < |next| && k in next[j]
      ensures slot(k) == j && next[j][k].wid == k
    {
      if j != i {
        assert next[j] == buckets[j];
      }
    }
  }

  lemma SameMap(a: map<nat, Member>, b: map<nat, Member>)
    requires forall k: nat :: Find(a, k) == Find(b, k)
    ensures a == b
  {
    forall k: nat ensures k in a <==> k in b {
      assert Find(a, k) == Find(b, k);
    }
    forall k: nat | k in a ensures a[k] == b[k] {
      assert Find(a, k) == Find(b, k);
    }
  }

  lemma MergePut(buckets: seq<map<nat, Member>>, slot: nat -> nat, w: Member, i: nat, bucket: map<nat, Member>)
    requires Sharded(buckets, slot) && i == slot(w.wid) && bucket == buckets[i][w.wid := w]
    ensures Sharded(buckets[i := bucket], slot)
    ensures Merge(buckets[i := bucket], slot) == Merge(buckets, slot)[w.wid := w]
  {
    BucketIds(buckets, slot, i);
    ShardedReplace(buckets, slot, i, bucket);
    var before, after := Merge(buckets, slot), Merge(buckets[i := bucket], slot);
    forall k: nat ensures Find(after, k) == Find(before[w.wid := w], k) {
      MergeReplace(buckets, slot, i, bucket, k);
      MergeFind(buckets, slot, k);
    }
    SameMap(after, before[w.wid := w]);
  }

  lemma MergeDel(buckets: seq<map<nat, Member>>, slot: nat -> nat, wid: nat, i: nat, bucket: map<nat, Member>)
    requires Sharded(buckets, slot) && i == slot(wid) && bucket == buckets[i] - {wid}
    ensures Sharded(buckets[i := bucket], slot)
    ensures Merge(buckets[i := bucket], slot) == Merge(buckets, slot) - {wid}
  {
    BucketIds(buckets, slot, i);
    forall k | k in bucket ensures slot(k) == i && bucket[k].wid == k {
      assert k in buckets[i];
    }
    ShardedReplace(buckets, slot, i, bucket);
    var before, after := Merge(buckets, slot), Merge(buckets[i := bucket], slot);
    forall k: nat ensures Find(after, k) == Find(before - {wid}, k) {
      MergeReplace(buckets, slot, i, bucket, k);
      MergeFind(buckets, slot, k);
    }
    SameMap(after, before - {wid});
  }

  lemma BucketIds(buckets: seq<map<nat, Member>>, slot: nat -> nat, i: nat)
    requires Sharded(buckets, slot) && i < |buckets|
    ensures forall k :: k in buckets[i] ==> slot(k) == i && buckets[i][k].wid == k
  {
    forall k | k in buckets[i]
      ensures slot(k) == i && buckets[i][k].wid == k
    {
    }
  }

  ghost function Keys(buckets: seq<map<nat, Member>>): set<nat> {
    set i, k | 0 <= i < |buckets| && k in buckets[i] :: k
  }

  ghost predicate DistinctIds(ws: seq<Member>) {
    forall i, j :: 0 <= i < j < |ws| ==> ws[i].wid != ws[j].wid
  }

  /** One bucket's walk, over a snapshot, in any order. */
  method WalkBucket(snapshot: map<nat, Member>, f: Member -> bool) returns (visited: seq<Member>)
    requires forall k :: k in snapshot ==> snapshot[k].wid == k
    ensures DistinctIds(visited)
    ensures forall w :: w in visited ==> w.wid in snapshot && snapshot[w.wid] == w
    ensures (forall k :: k in snapshot ==> snapshot[k] in visited) || exists w :: w in visited && !f(w)
  {
    visited := [];
    var keys := snapshot.Keys;
    while keys != {}
      invariant keys <= snapshot.Keys
      invariant DistinctIds(visited)
      invariant forall w :: w in visited ==> w.wid in snapshot && snapshot[w.wid] == w && w.wid !in keys
      invariant forall k :: k in snapshot && k !in keys ==> snapshot[k] in visited
      decreases keys
    {
      var k :| k in keys;
      keys := keys - {k};
      visited := visited + [snapshot[k]];
      if !f(snapshot[k]) {
        assert snapshot[k] in visited;
        return;
      }
    }
  }

  /** The first `n` buckets have been walked. */
  ghost predicate WalkedTo(buckets: seq<map<nat, Member>>, slot: nat -> nat, f: Member -> bool, n: nat, visited: seq<Member>)
    requires Sharded(buckets, slot)
  {
    && DistinctIds(visited)
    && (forall w :: w in visited ==> slot(w.wid) < n && Find(Merge(buckets, slot), w.wid) == Some(w))
    && (forall k :: k in Merge(buckets, slot) && slot(k) < n ==> Reached(buckets, slot, f, k, visited))
  }

  /** The worker was visited, or the callback refused one of its bucket. */
  ghost predicate Reached(buckets: seq<map<nat, Member>>, slot: nat -> nat, f: Member -> bool, k: nat, visited: seq<Member>)
    requires Sharded(buckets, slot) && k in Merge(buckets, slot)
  {
    Merge(buckets, slot)[k] in visited || exists w :: w in visited && !f(w) && slot(w.wid) == slot(k)
  }

  lemma WalkOneMore(buckets: seq<map<nat, Member>>, slot: nat -> nat, f: Member -> bool, n: nat,
                    visited: seq<Member>, part: seq<Member>)
    requires Sharded(buckets, slot) && n < |buckets| && WalkedTo(buckets, slot, f, n, visited)
    requires DistinctIds(part) && forall w :: w in part ==> w.wid in buckets[n] && buckets[n][w.wid] == w
    requires (forall k :: k in buckets[n] ==> buckets[n][k] in part) || exists w :: w in part && !f(w)
    ensures WalkedTo(buckets, slot, f, n + 1, visited + part)
  {
    forall w | w in part ensures slot(w.wid) == n && Find(Merge(buckets, slot), w.wid) == Some(w) {
      BucketIds(buckets, slot, n);
      MergeFind(buckets, slot, w.wid);
    }
    forall k | k in Merge(buckets, slot) && slot(k) < n + 1
      ensures Reached(buckets, slot, f, k, visited + part)
    {
      MergeFind(buckets, slot, k);
      if slot(k) < n {
        assert Reached(buckets, slot, f, k, visited);
      } else if Merge(buckets, slot)[k] !in part {
        var w :| w in part && !f(w);
        assert w in visited + part;
      }
    }
  }

  lemma WalkedAll(buckets: seq<map<nat, Member>>, slot: nat -> nat, f: Member -> bool, visited: seq<Member>)
    requires Sharded(buckets, slot) && WalkedTo(buckets, slot, f, |buckets|, visited)
    ensures forall k :: k in Merge(buckets, slot) && Merge(buckets, slot)[k] !in visited ==>
                          exists w :: w in visited && !f(w) && slot(w.wid) == slot(k)
  {
    forall k | k in Merge(buckets, slot)
      ensures Reached(buckets, slot, f, k, visited)
    {
    }
  }
}
