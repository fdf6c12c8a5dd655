/**
 The uid index over whole histories of puts and deletions (pkg/net/internal/buckets.go),
 with the registry seen as plain maps.
 */
module UidIndex {
  import opened Wrappers
  import opened Registry

  const EMPTY := View(map[], map[])

  /** The registry after a history of puts and deletions. */
  function Run(ops: seq<Op>): View {
    ApplyAll(EMPTY, ops)
  }

  /** Worker ids come from one counter, so no two workers share one. */
  ghost predicate UniqueIds(ops: seq<Op>) {
    forall i, j :: 0 <= i < |ops| && 0 <= j < |ops| && ops[i].w.wid == ops[j].w.wid ==> ops[i].w == ops[j].w
  }

  ghost predicate IsRegistered(v: View, w: Member) {
    Find(v.members, w.wid) == Some(w)
  }

  /** Every index entry points to a registered worker with that uid. */
  ghost predicate IndexSound(v: View) {
    && (forall k :: k in v.members ==> v.members[k].wid == k)
    && (forall u :: u in v.wids ==> v.wids[u] in v.members && v.members[v.wids[u]].uid == u)
  }

  /** Only workers that were put are registered. */
  ghost predicate FromOps(v: View, ops: seq<Op>) {
    forall k :: k in v.members ==> exists i :: 0 <= i < |ops| && ops[i].w == v.members[k]
  }

  lemma {:induction false} RunSound(ops: seq<Op>)
    requires UniqueIds(ops)
    ensures IndexSound(Run(ops)) && FromOps(Run(ops), ops)
    decreases |ops|
  {
    if ops != [] {
      var before, op := ops[..|ops| - 1], ops[|ops| - 1];
      RunSound(before);
      var v := Run(before);
      forall k | k in v.members
        ensures exists i :: 0 <= i < |ops| && ops[i].w == v.members[k]
      {
        var i :| 0 <= i < |before| && before[i].w == v.members[k];
        assert ops[i].w == v.members[k];
      }
      assert ops[|ops| - 1].w == op.w;
    }
  }

  // ---------- who is registered ----------

  /** Step `i` puts a worker under id `k`, and since then none was put there and it was not deleted. */
  ghost predicate StandsPut(ops: seq<Op>, i: nat, k: nat) {
    && i < |ops| && ops[i].Put? && ops[i].w.wid == k
    && forall j :: i < j < |ops| ==> !(ops[j].Put? && ops[j].w.wid == k) && ops[j] != Del(ops[i].w)
  }

  /** In every history, with whatever ids, the latest put under an id is found until it is deleted itself. */
  lemma {:induction false} MemberFoundIff(ops: seq<Op>, k: nat)
    ensures k in Run(ops).members <==> exists i: nat :: StandsPut(ops, i, k)
    ensures forall i: nat :: StandsPut(ops, i, k) ==> Find(Run(ops).members, k) == Some(ops[i].w)
    decreases |ops|
  {
    if ops != [] {
      var before, op := ops[..|ops| - 1], ops[|ops| - 1];
      MemberFoundIff(before, k);
      forall i: nat | StandsPut(ops, i, k)
        ensures Find(Run(ops).members, k) == Some(ops[i].w)
      {
        if i < |before| {
          StandsStep(ops, i, k);
          assert StandsPut(before, i, k);
        }
      }
      if op.Put? && op.w.wid == k {
        assert StandsPut(ops, |before|, k);
      } else if k in Run(ops).members {
        var i: nat :| StandsPut(before, i, k);
        StandsStep(ops, i, k);
      }
    }
  }

  lemma StandsStep(ops: seq<Op>, i: nat, k: nat)
    requires i < |ops| - 1
    ensures var before, op := ops[..|ops| - 1], ops[|ops| - 1];
            StandsPut(ops, i, k) <==> StandsPut(before, i, k) && !(op.Put? && op.w.wid == k) && op != Del(before[i].w)
  {
    var before := ops[..|ops| - 1];
    assert forall j :: 0 <= j < |before| ==> before[j] == ops[j];
  }

  // ---------- when the index finds a user ----------

  /** At step `j` a registered worker of that user is deleted. */
  ghost predicate Drops(ops: seq<Op>, j: nat, uid: int)
    requires j < |ops|
  {
    ops[j].Del? && ops[j].w.uid == uid && IsRegistered(Run(ops[..j]), ops[j].w)
  }

  ghost predicate PutsUid(op: Op, uid: int) {
    op.Put? && op.w.uid == uid
  }

  /** Step `i` is the user's latest put, and no worker of that user was deleted since. */
  ghost predicate LatestPut(ops: seq<Op>, i: nat, uid: int)
    requires i < |ops|
  {
    PutsUid(ops[i], uid) && forall j :: i < j < |ops| ==> !PutsUid(ops[j], uid) && !Drops(ops, j, uid)
  }

  lemma PrefixRuns(ops: seq<Op>, j: nat)
    requires j < |ops|
    ensures ops[..|ops| - 1][..j] == ops[..j]
  {
  }

  lemma LatestPutExtends(ops: seq<Op>, i: nat, uid: int)
    requires i < |ops| - 1
    requires !PutsUid(ops[|ops| - 1], uid) && !Drops(ops, |ops| - 1, uid)
    ensures LatestPut(ops, i, uid) <==> LatestPut(ops[..|ops| - 1], i, uid)
  {
    var before := ops[..|ops| - 1];
    forall j | 0 <= j < |before|
      ensures Drops(ops, j, uid) <==> Drops(before, j, uid)
    {
      PrefixRuns(ops, j);
    }
    if LatestPut(ops, i, uid) {
      forall j | i < j < |before| ensures !PutsUid(before[j], uid) && !Drops(before, j, uid) {
        assert !PutsUid(ops[j], uid) && !Drops(ops, j, uid);
      }
    }
    if LatestPut(before, i, uid) {
      forall j | i < j < |ops| ensures !PutsUid(ops[j], uid) && !Drops(ops, j, uid) {
        if j < |before| {
          assert !PutsUid(before[j], uid) && !Drops(before, j, uid);
        }
      }
    }
  }

  /**
   In every history the index finds a user exactly when no registered worker of that user
   was deleted since the user's latest put, and then it names the worker put there.
   */
  lemma {:induction false} UidFoundIff(ops: seq<Op>, uid: int)
    ensures uid in Run(ops).wids <==> exists i :: 0 <= i < |ops| && LatestPut(ops, i, uid)
    ensures forall i :: 0 <= i < |ops| && LatestPut(ops, i, uid) ==>
                          Find(Run(ops).wids, uid) == Some(ops[i].w.wid)
    decreases |ops|
  {
    if ops != [] {
      var last := |ops| - 1;
      var before, op := ops[..last], ops[last];
      UidFoundIff(before, uid);
      if PutsUid(op, uid) {
        assert LatestPut(ops, last, uid);
      } else if Drops(ops, last, uid) {
        assert forall i :: 0 <= i < |ops| ==> !LatestPut(ops, i, uid);
      } else {
        KeepsEntry(ops, uid);
        forall i | 0 <= i < last ensures LatestPut(ops, i, uid) <==> LatestPut(before, i, uid) {
          LatestPutExtends(ops, i, uid);
        }
        assert !LatestPut(ops, last, uid);
      }
    }
  }

  /** The sharded registry itself, after any history: the index finds exactly the users `UidFoundIff` says. */
  method ReplayFromEmpty(bs: Buckets, ops: seq<Op>)
    requires bs.Valid() && bs.Abstract() == EMPTY && UniqueIds(ops)
    modifies bs`buckets, bs.uidWids
    ensures bs.Valid() && bs.Abstract() == Run(ops) && IndexSound(bs.Abstract())
    ensures forall uid :: uid in bs.Abstract().wids <==> exists i :: 0 <= i < |ops| && LatestPut(ops, i, uid)
    ensures forall uid, i :: 0 <= i < |ops| && LatestPut(ops, i, uid) ==>
                               Find(bs.Abstract().wids, uid) == Some(ops[i].w.wid)
  {
    bs.Replay(ops);
    RunSound(ops);
    forall uid {
      UidFoundIff(ops, uid);
    }
  }

  lemma KeepsEntry(ops: seq<Op>, uid: int)
    requires ops != [] && !PutsUid(ops[|ops| - 1], uid) && !Drops(ops, |ops| - 1, uid)
    ensures Find(Run(ops).wids, uid) == Find(Run(ops[..|ops| - 1]).wids, uid)
  {
  }

  /** A second login, then the first connection's cleanup: the user is online but not found. */
  lemma ReloginLosesUser(a: Member, b: Member)
    requires a.uid == b.uid && a.wid != b.wid
    ensures var v := Run([Put(a), Put(b), Del(a)]);
            IsRegistered(v, b) && b.uid !in v.wids
  {
    assert [Put(a), Put(b), Del(a)][..2] == [Put(a), Put(b)];
    assert [Put(a), Put(b)][..1] == [Put(a)];
    assert [Put(a)][..0] == [];
    assert Run([]) == EMPTY;
    assert Run([Put(a)]) == PutView(EMPTY, a);
    assert Run([Put(a), Put(b)]) == PutView(PutView(EMPTY, a), b);
  }

  // ---------- one connection per user ----------

  /** Each put happens while no other worker of that user is registered. */
  ghost predicate OneAtATime(ops: seq<Op>) {
    forall i, k :: 0 <= i < |ops| && ops[i].Put? && k in Run(ops[..i]).members ==>
                     Run(ops[..i]).members[k].uid == ops[i].w.uid ==> k == ops[i].w.wid
  }

  /** The index is exactly the inverse of the registry. */
  ghost predicate Inverse(v: View) {
    IndexSound(v) && forall k :: k in v.members ==> Find(v.wids, v.members[k].uid) == Some(k)
  }

  lemma {:induction false} OneAtATimeInverse(ops: seq<Op>)
    requires UniqueIds(ops) && OneAtATime(ops)
    ensures Inverse(Run(ops))
    decreases |ops|
  {
    RunSound(ops);
    if ops != [] {
      var last := |ops| - 1;
      var before := ops[..last];
      forall i | 0 <= i < last ensures before[..i] == ops[..i] {
        PrefixRuns(ops, i);
      }
      assert OneAtATime(before) by {
        forall i, k | 0 <= i < |before| && before[i].Put? && k in Run(before[..i]).members
                      && Run(before[..i]).members[k].uid == before[i].w.uid
          ensures k == before[i].w.wid
        {
          assert ops[i] == before[i] && ops[..i] == before[..i];
        }
      }
      OneAtATimeInverse(before);
      InverseStep(Run(before), ops[last]);
    }
  }

  lemma InverseStep(v: View, op: Op)
    requires Inverse(v) && IndexSound(Apply(v, op))
    requires op.Put? ==> forall k :: k in v.members && v.members[k].uid == op.w.uid ==> k == op.w.wid
    ensures Inverse(Apply(v, op))
  {
    var next := Apply(v, op);
    forall k | k in next.members
      ensures Find(next.wids, next.members[k].uid) == Some(k)
    {
      if k in v.members {
        assert Find(v.wids, v.members[k].uid) == Some(k);
      }
    }
  }

  // ---------- the index loaded first, the bucket read later ----------

  lemma {:induction false} ApplySplit(v: View, a: seq<Op>, b: seq<Op>)
    ensures ApplyAll(v, a + b) == ApplyAll(ApplyAll(v, a), b)
    decreases |b|
  {
    if b == [] {
      assert a + b == a;
    } else {
      assert (a + b)[..|a + b| - 1] == a + b[..|b| - 1];
      ApplySplit(v, a, b[..|b| - 1]);
    }
  }

  /** Worker `w` is deleted in `ops` and not put again after that. */
  ghost predicate Removed(ops: seq<Op>, w: Member) {
    exists d :: 0 <= d < |ops| && ops[d] == Del(w) && forall e :: d < e < |ops| ==> ops[e] != Put(w)
  }

  lemma RemovedStep(ops: seq<Op>, w: Member)
    requires ops != []
    ensures Removed(ops, w) <==>
            ops[|ops| - 1] == Del(w) || (Removed(ops[..|ops| - 1], w) && ops[|ops| - 1] != Put(w))
  {
    var n := |ops| - 1;
    var before := ops[..n];
    if ops[n] == Del(w) {
      assert Removed(ops, w);
    } else if Removed(ops, w) {
      var d :| 0 <= d < |ops| && ops[d] == Del(w) && forall e :: d < e < |ops| ==> ops[e] != Put(w);
      assert before[d] == Del(w) && forall e :: d < e < |before| ==> before[e] == ops[e];
    }
  }

  /** From a state where `w` is registered, it stays so exactly unless it is removed. */
  lemma {:induction false} RegisteredUnlessRemoved(v: View, ops: seq<Op>, w: Member)
    requires IsRegistered(v, w) && forall i :: 0 <= i < |ops| && ops[i].w.wid == w.wid ==> ops[i].w == w
    ensures Find(ApplyAll(v, ops).members, w.wid) == if Removed(ops, w) then None else Some(w)
    decreases |ops|
  {
    if ops != [] {
      RegisteredUnlessRemoved(v, ops[..|ops| - 1], w);
      RemovedStep(ops, w);
      assert ops[|ops| - 1].w.wid == w.wid ==> ops[|ops| - 1].w == w;
    }
  }

  lemma UniquePrefix(a: seq<Op>, b: seq<Op>)
    requires UniqueIds(a + b)
    ensures UniqueIds(a)
  {
    forall i, j | 0 <= i < |a| && 0 <= j < |a| && a[i].w.wid == a[j].w.wid ensures a[i].w == a[j].w {
      assert (a + b)[i] == a[i] && (a + b)[j] == a[j];
    }
  }

  lemma UniqueLater(a: seq<Op>, b: seq<Op>, w: Member)
    requires UniqueIds(a + b) && exists i :: 0 <= i < |a| && a[i].w == w
    ensures forall j :: 0 <= j < |b| && b[j].w.wid == w.wid ==> b[j].w == w
  {
    var i :| 0 <= i < |a| && a[i].w == w;
    forall j | 0 <= j < |b| && b[j].w.wid == w.wid ensures b[j].w == w {
      assert (a + b)[i] == a[i] && (a + b)[|a| + j] == b[j];
    }
  }

  /**
   The exact outcome of a lookup by uid, after any history `ops` and with any actions `between`
   of others before the bucket is read: nothing if the index has no entry; otherwise the indexed
   worker, which is one of that user, or a missing worker, and the latter exactly if that worker
   was deleted, and not put again, between the load and the read.
   */
  lemma {:induction false} MissingIff(ops: seq<Op>, between: seq<Op>, uid: int)
    requires UniqueIds(ops + between)
    ensures uid in Run(ops).wids ==> Run(ops).wids[uid] in Run(ops).members
    ensures LoadThenRead(Run(ops), Run(ops + between), uid) ==
            if uid !in Run(ops).wids then []
            else var w := Run(ops).members[Run(ops).wids[uid]];
                 [if Removed(between, w) then None else Some(w)]
    ensures uid in Run(ops).wids ==> Run(ops).members[Run(ops).wids[uid]].uid == uid
  {
    UniquePrefix(ops, between);
    RunSound(ops);
    ApplySplit(EMPTY, ops, between);
    var v := Run(ops);
    if uid in v.wids {
      var w := v.members[v.wids[uid]];
      UniqueLater(ops, between, w);
      RegisteredUnlessRemoved(v, between, w);
    }
  }

  /** A deletion between the two steps hands the group push a missing worker. */
  lemma GroupLookupCanMiss(a: Member)
    ensures Entries(EMPTY, k => ([Put(a)], [Del(a)]), [a.uid]) == [None]
  {
    var others: Others := k => ([Put(a)], [Del(a)]);
    var loaded := PutView(EMPTY, a);
    assert [Put(a)][..0] == [] && [Del(a)][..0] == [] && [a.uid][..0] == [];
    assert ApplyAll(EMPTY, []) == EMPTY && ApplyAll(loaded, []) == loaded;
    assert ApplyAll(EMPTY, [Put(a)]) == loaded;
    assert ApplyAll(loaded, [Del(a)]) == DelView(loaded, a);
    assert ApplyOthers(EMPTY, others, 0) == EMPTY;
    assert Loaded(EMPTY, others, 0) == loaded;
    assert ApplyOthers(EMPTY, others, 1) == DelView(loaded, a);
    assert Entries(EMPTY, others, []) == [];
  }

  /** The history that began with `ops` and went on with the others' actions during `n` lookups. */
  function History(ops: seq<Op>, others: Others, n: nat): seq<Op>
    decreases n, 0
  {
    if n == 0 then ops else UntilLoad(ops, others, n - 1) + others(n - 1).1
  }

  /** The history up to the load of the `k`-th uid of a group lookup. */
  function UntilLoad(ops: seq<Op>, others: Others, k: nat): seq<Op>
    decreases k, 1
  {
    History(ops, others, k) + others(k).0
  }

  lemma {:induction false} HistoryRun(ops: seq<Op>, others: Others, n: nat)
    ensures ApplyOthers(Run(ops), others, n) == Run(History(ops, others, n))
  {
    if n > 0 {
      HistoryRun(ops, others, n - 1);
      ApplySplit(EMPTY, History(ops, others, n - 1), others(n - 1).0);
      ApplySplit(EMPTY, UntilLoad(ops, others, n - 1), others(n - 1).1);
    }
  }

  lemma {:induction false} LoadedRun(ops: seq<Op>, others: Others, k: nat)
    ensures Loaded(Run(ops), others, k) == Run(UntilLoad(ops, others, k))
  {
    HistoryRun(ops, others, k);
    ApplySplit(EMPTY, History(ops, others, k), others(k).0);
  }

  /** The exact outcome of each uid of a group lookup, in order. */
  function Outcomes(ops: seq<Op>, others: Others, uids: seq<int>): seq<Option<Member>> {
    if uids == [] then []
    else
      var k := |uids| - 1;
      var h := UntilLoad(ops, others, k);
      Outcomes(ops, others, uids[..k]) + LoadThenRead(Run(h), Run(h + others(k).1), uids[k])
  }

  /** A group lookup is its uids' lookups one after the other, so `MissingIff` decides each of them. */
  lemma {:induction false} GroupLookupExact(ops: seq<Op>, others: Others, uids: seq<int>)
    ensures Entries(Run(ops), others, uids) == Outcomes(ops, others, uids)
    decreases |uids|
  {
    if uids != [] {
      var k := |uids| - 1;
      GroupLookupExact(ops, others, uids[..k]);
      LoadedRun(ops, others, k);
      HistoryRun(ops, others, k + 1);
    }
  }
}
