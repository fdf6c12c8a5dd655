/**
 The tunnels of one worker (pkg/net/internal/tunnel.go): a lookup on a fast path, and
 get-or-create under the lock, per tunnel type and object.
 */
module TunnelHolder {

  newtype int32 = x: int | -0x8000_0000 <= x < 0x8000_0000
  newtype int64 = x: int | -0x8000_0000_0000_0000 <= x < 0x8000_0000_0000_0000

  /** A tunnel's stop flags only ever go up. */
  class Tunnel {
    const tp: int32
    const oid: int64
    var triggered: bool
    var stopping: bool

    constructor (tp: int32, oid: int64)
      ensures this.tp == tp && this.oid == oid && !triggered && !stopping
    {
      this.tp, this.oid := tp, oid;
      triggered, stopping := false, false;
    }
  }

  class Holder {
    var groups: map<int32, map<int64, Tunnel>>
    /** Every tunnel this holder ever created. */
    ghost var created: set<Tunnel>

    ghost predicate Holds(tp: int32, oid: int64, t: Tunnel)
      reads this
    {
      tp in groups && oid in groups[tp] && groups[tp][oid] == t
    }

    /** The tunnels in the groups. */
    ghost function Held(): set<Tunnel>
      reads this
    {
      set t | t in created && Holds(t.tp, t.oid, t)
    }

    /** What is held was created for that key; what was created and is not held is stopping. */
    ghost predicate Valid()
      reads this, created
    {
      && (forall tp, oid :: tp in groups && oid in groups[tp] ==>
                              groups[tp][oid] in created && groups[tp][oid].tp == tp && groups[tp][oid].oid == oid)
      && (forall t :: t in created ==> t.stopping || Holds(t.tp, t.oid, t))
    }

    constructor ()
      ensures Valid() && created == {} && groups == map[]
    {
      groups := map[];
      created := {};
    }

    /** At most one tunnel of a kind for an object is live. */
    lemma LiveUnique(t: Tunnel, u: Tunnel)
      requires Valid() && t in created && u in created
      requires t.tp == u.tp && t.oid == u.oid && !t.stopping && !u.stopping
      ensures t == u
    {
      assert Holds(t.tp, t.oid, t) && Holds(u.tp, u.oid, u);
    }

    /** `tunnel`: the live tunnel for the key, and nothing only if there is none. */
    method Lookup(tp: int32, oid: int64) returns (t: Tunnel?)
      requires Valid()
      ensures t != null ==> t in created && t.tp == tp && t.oid == oid && !t.stopping
      ensures t == null ==> forall u :: u in created && u.tp == tp && u.oid == oid ==> u.stopping
    {
      if tp !in groups {
        return null;
      }
      var tg := groups[tp];
      if oid !in tg || tg[oid].stopping {
        return null;
      }
      return tg[oid];
    }

    /**
     `createTunnel`: the live tunnel if the key has one, otherwise a new one, unless the
     creation fails. Nothing is created while a live tunnel exists.
     */
    method CreateTunnel(tp: int32, oid: int64, createOk: bool) returns (t: Tunnel?)
      requires Valid()
      modifies this
      ensures Valid()
      ensures t != null ==> t in created && t.tp == tp && t.oid == oid && !t.stopping
      ensures (exists u :: u in old(created) && u.tp == tp && u.oid == oid && !u.stopping)
              ==> t != null && t in old(created) && created == old(created) && Held() == old(Held())
      ensures (forall u :: u in old(created) && u.tp == tp && u.oid == oid ==> u.stopping)
              ==> if createOk then
                  t != null && fresh(t) && !t.triggered && created == old(created) + {t} && Replaces(t, old(Held()), Held())
                else
                  t == null && created == old(created) && Held() == old(Held())
    {
      if tp !in groups {
        groups := groups[tp := map[]];
      }
      var tg := groups[tp];
      if oid in tg && !tg[oid].stopping {
        return tg[oid];
      }
      if !createOk {
        return null;
      }
      t := Insert(tp, oid);
    }

    /** A new tunnel takes the key's place, which is free or held by one that is stopping. */
    method Insert(tp: int32, oid: int64) returns (t: Tunnel)
      requires Valid() && tp in groups && (oid in groups[tp] ==> groups[tp][oid].stopping)
      modifies this
      ensures Valid() && fresh(t) && t.tp == tp && t.oid == oid && !t.stopping && !t.triggered
      ensures created == old(created) + {t} && Replaces(t, old(Held()), Held())
    {
      t := new Tunnel(tp, oid);
      ghost var before := Held();
      groups := groups[tp := groups[tp][oid := t]];
      created := created + {t};
      forall u | u in old(created)
        ensures Holds(u.tp, u.oid, u) <==> old(Holds(u.tp, u.oid, u)) && !HasKey(u, tp, oid)
      {
      }
      assert Holds(tp, oid, t);
      assert Held() == (set u | u in before && !HasKey(u, tp, oid)) + {t};
    }

    /** `stop`: the tunnels held, and no others, are told to stop; so every tunnel ever created is or was. */
    method Stop()
      requires Valid()
      modifies created`triggered
      ensures Valid()
      ensures forall t :: t in created ==> (t.triggered <==> old(t.triggered) || t in Held())
      ensures forall t :: t in created ==> t.triggered || t.stopping
    {
      var tps := groups.Keys;
      while tps != {}
        invariant tps <= groups.Keys
        invariant Valid()
        invariant forall t :: t in created ==> (t.triggered <==> old(t.triggered) || (t in Held() && t.tp !in tps))
        decreases tps
      {
        var tp :| tp in tps;
        tps := tps - {tp};
        StopGroup(tp);
      }
    }

    /** The tunnels of one type are told to stop. */
    method StopGroup(tp: int32)
      requires Valid() && tp in groups
      modifies created`triggered
      ensures Valid()
      ensures forall t :: t in created ==> (t.triggered <==> old(t.triggered) || (t in Held() && t.tp == tp))
    {
      var tg := groups[tp];
      var oids := tg.Keys;
      while oids != {}
        invariant oids <= tg.Keys
        invariant Valid()
        invariant forall t :: t in created ==>
                                (t.triggered <==> old(t.triggered) || (t in Held() && t.tp == tp && t.oid !in oids))
        decreases oids
      {
        var oid :| oid in oids;
        oids := oids - {oid};
        tg[oid].triggered := true;
      }
    }

    /** A held tunnel's own goroutine begins to stop, at any time. */
    method TunnelStops(tp: int32, oid: int64)
      requires Valid()
      modifies created`stopping
      ensures Valid()
      ensures forall t :: t in created ==> (t.stopping <==> old(t.stopping) || Holds(tp, oid, t))
    {
      if tp in groups && oid in groups[tp] {
        groups[tp][oid].stopping := true;
      }
    }
  }

  datatype Op = Find(tp: int32, oid: int64) | Create(tp: int32, oid: int64, ok: bool) | Ends(tp: int32, oid: int64) | StopAll

  /** The tunnels created so far; of those, the ones not stopping, the ones held, and the ones told to stop. */
  datatype Snap = Snap(created: set<Tunnel>, live: set<Tunnel>, held: set<Tunnel>, told: set<Tunnel>)

  ghost predicate HasKey(t: Tunnel, tp: int32, oid: int64) {
    t.tp == tp && t.oid == oid
  }

  /** `t` takes the place of the tunnel held under its key, if there was one. */
  ghost predicate Replaces(t: Tunnel, before: set<Tunnel>, after: set<Tunnel>) {
    after == (set u | u in before && !HasKey(u, t.tp, t.oid)) + {t}
  }

  ghost function Snapshot(h: Holder): Snap
    reads h, h.created
  {
    Snap(h.created, (set t | t in h.created && !t.stopping), h.Held(), (set t | t in h.created && t.triggered))
  }

  ghost predicate AtMostOneLive(a: Snap) {
    forall t, u :: t in a.live && u in a.live && HasKey(t, u.tp, u.oid) ==> t == u
  }

  ghost predicate HasLive(a: Snap, tp: int32, oid: int64) {
    exists t :: t in a.live && HasKey(t, tp, oid)
  }

  /** What each operation returns, and what it changes. */
  ghost predicate StepOk(a: Snap, op: Op, t: Tunnel?, b: Snap) {
    match op
    case Find(tp, oid) =>
      && b == a
      && if HasLive(a, tp, oid) then t != null && t in a.live && HasKey(t, tp, oid) else t == null
    case Create(tp, oid, ok) =>
      if HasLive(a, tp, oid) then b == a && t != null && t in a.live && HasKey(t, tp, oid)
      else if ok then
        && t != null && t !in a.created && HasKey(t, tp, oid)
        && b == Snap(a.created + {t}, a.live + {t}, (set u | u in a.held && !HasKey(u, tp, oid)) + {t}, a.told)
      else b == a && t == null
    case Ends(tp, oid) => t == null && b == a.(live := set u | u in a.live && !HasKey(u, tp, oid))
    case StopAll => t == null && b == a.(told := a.told + a.held)
  }

  /** One operation: what it returns and changes. */
  method Perform(h: Holder, op: Op) returns (t: Tunnel?)
    requires h.Valid()
    modifies h, h.created
    ensures h.Valid() && forall u :: u in h.created ==> u in old(h.created) || fresh(u)
    ensures StepOk(old(Snapshot(h)), op, t, Snapshot(h))
  {
    t := null;
    match op {
      case Find(tp, oid) =>
        t := h.Lookup(tp, oid);
      case Create(tp, oid, ok) =>
        t := PerformCreate(h, tp, oid, ok);
      case Ends(tp, oid) =>
        PerformEnds(h, tp, oid);
      case StopAll =>
        PerformStop(h);
    }
  }

  method PerformCreate(h: Holder, tp: int32, oid: int64, ok: bool) returns (t: Tunnel?)
    requires h.Valid()
    modifies h
    ensures h.Valid() && forall u :: u in h.created ==> u in old(h.created) || fresh(u)
    ensures StepOk(old(Snapshot(h)), Create(tp, oid, ok), t, Snapshot(h))
  {
    t := h.CreateTunnel(tp, oid, ok);
  }

  method PerformEnds(h: Holder, tp: int32, oid: int64)
    requires h.Valid()
    modifies h.created`stopping
    ensures h.Valid()
    ensures StepOk(old(Snapshot(h)), Ends(tp, oid), null, Snapshot(h))
  {
    h.TunnelStops(tp, oid);
  }

  method PerformStop(h: Holder)
    requires h.Valid()
    modifies h.created`triggered
    ensures h.Valid()
    ensures StepOk(old(Snapshot(h)), StopAll, null, Snapshot(h))
  {
    h.Stop();
  }

  /** At step `j` everything held is told to stop, and `t` was held. */
  ghost predicate ToldAt(ops: seq<Op>, trace: seq<Snap>, j: nat, t: Tunnel) {
    j < |ops| && j < |trace| && ops[j].StopAll? && t in trace[j].held
  }

  ghost predicate ToldBefore(ops: seq<Op>, trace: seq<Snap>, n: nat, t: Tunnel) {
    exists j: nat :: j < n && ToldAt(ops, trace, j, t)
  }

  /** The run so far: each step as it should be, one live tunnel a key, and all not held are stopping. */
  ghost predicate TraceOk(ops: seq<Op>, results: seq<Tunnel?>, trace: seq<Snap>) {
    && |results| <= |ops| && |trace| == |results| + 1
    && (forall j :: 0 <= j < |results| ==> StepOk(trace[j], ops[j], results[j], trace[j + 1]))
    && (forall j :: 0 <= j <= |results| ==> AtMostOneLive(trace[j]) && trace[j].live <= trace[j].held)
  }

  /**
   `Worker.Tunnel` and everything around it, in any order. Every operation returns and changes
   exactly what `StepOk` says; at every moment at most one tunnel of a key is live, and it is held;
   a tunnel is told to stop exactly by a stop that finds it held, so every tunnel that existed at a
   stop has been told to or was stopping by itself.
   */
  method Drive(h: Holder, ops: seq<Op>) returns (results: seq<Tunnel?>, ghost trace: seq<Snap>)
    requires h.Valid()
    modifies h, h.created
    ensures h.Valid() && |results| == |ops| && TraceOk(ops, results, trace)
    ensures trace[0] == old(Snapshot(h)) && trace[|ops|] == Snapshot(h)
    ensures forall t :: t in h.created ==>
                          (t.triggered <==> t in trace[0].told || ToldBefore(ops, trace, |ops|, t))
    ensures forall i, t :: 0 <= i < |ops| && ops[i].StopAll? && t in trace[i].created ==> t.triggered || t.stopping
  {
    results, trace := [], [Snapshot(h)];
    LiveIsHeld(h);
    for i := 0 to |ops|
      invariant h.Valid() && |results| == i && TraceOk(ops, results, trace)
      invariant forall t :: t in h.created ==> t in old(h.created) || fresh(t)
      invariant trace[0] == old(Snapshot(h)) && trace[i] == Snapshot(h)
    {
      var t := Perform(h, ops[i]);
      LiveIsHeld(h);
      results := results + [t];
      trace := trace + [Snapshot(h)];
    }
    forall t | t in h.created
      ensures t in trace[|ops|].told <==> t in trace[0].told || ToldBefore(ops, trace, |ops|, t)
    {
      ToldExact(ops, results, trace, |ops|, t);
    }
    ToldOrStopping(ops, results, trace, |ops|);
  }

  lemma LiveIsHeld(h: Holder)
    requires h.Valid()
    ensures AtMostOneLive(Snapshot(h)) && Snapshot(h).live <= Snapshot(h).held
  {
    forall t, u | t in h.created && u in h.created && HasKey(t, u.tp, u.oid) && !t.stopping && !u.stopping
      ensures t == u
    {
      h.LiveUnique(t, u);
    }
  }

  lemma {:induction false} ToldExact(ops: seq<Op>, results: seq<Tunnel?>, trace: seq<Snap>, n: nat, t: Tunnel)
    requires TraceOk(ops, results, trace) && n <= |results|
    ensures t in trace[n].told <==> t in trace[0].told || ToldBefore(ops, trace, n, t)
  {
    if n > 0 {
      ToldExact(ops, results, trace, n - 1, t);
      assert StepOk(trace[n - 1], ops[n - 1], results[n - 1], trace[n]);
      assert ToldBefore(ops, trace, n, t) <==> ToldBefore(ops, trace, n - 1, t) || ToldAt(ops, trace, n - 1, t);
    }
  }

  /** A tunnel that existed at a stop has been told, or is not live any more. */
  lemma {:induction false} ToldOrStopping(ops: seq<Op>, results: seq<Tunnel?>, trace: seq<Snap>, n: nat)
    requires TraceOk(ops, results, trace) && n <= |results|
    ensures forall i, t :: 0 <= i < n && ops[i].StopAll? && t in trace[i].created ==>
                             t in trace[n].created && (t in trace[n].told || t !in trace[n].live)
  {
    if n > 0 {
      ToldOrStopping(ops, results, trace, n - 1);
      assert StepOk(trace[n - 1], ops[n - 1], results[n - 1], trace[n]);
    }
  }
}
