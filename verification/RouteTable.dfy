/**
 The route table shared by all gates (app/gate/internal/router/routetable.go): a connect
 gets and sets a user's entry, a disconnect deletes it if it still names the same gate.
 Calls may be late, repeated, or lost.
 */
module RouteTable {
  import opened Wrappers

  /** A user within a deployment colour. */
  datatype Key = Key(color: string, uid: int)

  type Gate = nat
  type Table = map<Key, string>

  /** A gate's call; `applied` tells whether it reached the store. */
  datatype Event =
    | Connect(gate: Gate, key: Key, applied: bool)
    | Disconnect(gate: Gate, key: Key, applied: bool)

  /** The atomic operation behind each call. */
  function Apply(table: Table, endpoint: Gate -> string, e: Event): Table {
    if !e.applied then table
    else
      match e
      case Connect(gate, key, _) => table[key := endpoint(gate)]
      case Disconnect(gate, key, _) =>
        if key in table && table[key] == endpoint(gate) then table - {key} else table
  }

  function Run(endpoint: Gate -> string, events: seq<Event>): Table {
    if events == [] then map[]
    else Apply(Run(endpoint, events[..|events| - 1]), endpoint, events[|events| - 1])
  }

  /** The shared store, as every gate sees it. */
  class Store {
    var table: Table

    constructor ()
      ensures table == map[]
    {
      table := map[];
    }

    /**
     `AddRouteTable`: the user is routed to this gate, whatever the entry was before, and the
     caller learns of a failure. Nobody else's route changes.
     */
    method AddRouteTable(gate: Gate, endpoint: Gate -> string, color: string, oid: int, applied: bool)
      returns (failed: bool, oldAddr: Option<string>)
      modifies this
      ensures failed <==> !applied
      ensures !failed ==> Route(table, Key(color, oid)) == Some(endpoint(gate))
      ensures !failed ==> oldAddr == Route(old(table), Key(color, oid))
      ensures failed ==> table == old(table)
      ensures forall k :: k != Key(color, oid) ==> Route(table, k) == Route(old(table), k)
    {
      var key := Key(color, oid);
      if !applied {
        return true, None;
      }
      oldAddr := Route(table, key);
      table := table[key := endpoint(gate)];
      failed := false;
    }

    /**
     `DelRouteTable`: once applied, the user is not routed to this gate any more; a route to
     another gate, and everybody else's route, stays. A failure is only logged.
     */
    method DelRouteTable(gate: Gate, endpoint: Gate -> string, color: string, uid: int, applied: bool)
      modifies this
      ensures applied ==> Route(table, Key(color, uid)) != Some(endpoint(gate))
      ensures Route(old(table), Key(color, uid)) != Some(endpoint(gate)) ==> table == old(table)
      ensures Route(table, Key(color, uid)) in {None, Route(old(table), Key(color, uid))}
      ensures !applied ==> table == old(table)
      ensures forall k :: k != Key(color, uid) ==> Route(table, k) == Route(old(table), k)
    {
      var key := Key(color, uid);
      if applied && Route(table, key) == Some(endpoint(gate)) {
        table := table - {key};
      }
    }

    /**
     Any number of gates calling in any order: afterwards a user is routed exactly if the
     latest connect still stands, and to that connect's gate.
     */
    method Replay(endpoint: Gate -> string, events: seq<Event>)
      requires table == map[]
      modifies this
      ensures table == Run(endpoint, events)
      ensures forall key :: key in table <==> exists i :: 0 <= i < |events| && Standing(endpoint, events, i, key)
      ensures forall key, i :: 0 <= i < |events| && Standing(endpoint, events, i, key) ==>
                                 Route(table, key) == Some(endpoint(events[i].gate))
    {
      for i := 0 to |events|
        invariant table == Run(endpoint, events[..i])
      {
        var e := events[i];
        ghost var before := table;
        match e {
          case Connect(gate, key, applied) =>
            var _, _ := AddRouteTable(gate, endpoint, key.color, key.uid, applied);
          case Disconnect(gate, key, applied) =>
            DelRouteTable(gate, endpoint, key.color, key.uid, applied);
        }
        SameTable(table, Apply(before, endpoint, e));
        assert events[..i + 1][..i] == events[..i];
      }
      assert events[..|events|] == events;
      forall key {
        RouteIff(endpoint, events, key);
      }
    }
  }

  /** Where a user is routed, if anywhere. */
  function Route(table: Table, key: Key): Option<string> {
    if key in table then Some(table[key]) else None
  }

  lemma SameTable(a: Table, b: Table)
    requires forall k :: Route(a, k) == Route(b, k)
    ensures a == b
  {
    forall k ensures k in a <==> k in b {
      assert Route(a, k) == Route(b, k);
    }
    forall k | k in a ensures a[k] == b[k] {
      assert Route(a, k) == Route(b, k);
    }
  }

  predicate ConnectsKey(e: Event, key: Key) {
    e.Connect? && e.applied && e.key == key
  }

  predicate DisconnectsKey(e: Event, endpoint: Gate -> string, key: Key, addr: string) {
    e.Disconnect? && e.applied && e.key == key && endpoint(e.gate) == addr
  }

  /**
   Step `i` is the user's latest connect, and no gate at that connect's address has
   disconnected the user since.
   */
  ghost predicate Standing(endpoint: Gate -> string, events: seq<Event>, i: nat, key: Key)
    requires i < |events|
  {
    && ConnectsKey(events[i], key)
    && forall j :: i < j < |events| ==>
                     !ConnectsKey(events[j], key) && !DisconnectsKey(events[j], endpoint, key, endpoint(events[i].gate))
  }

  lemma StandingPrefix(endpoint: Gate -> string, events: seq<Event>, i: nat, key: Key)
    requires i < |events| - 1
    ensures var last := events[|events| - 1];
            Standing(endpoint, events, i, key) <==>
            && Standing(endpoint, events[..|events| - 1], i, key)
            && !ConnectsKey(last, key) && !DisconnectsKey(last, endpoint, key, endpoint(events[i].gate))
  {
    var before, last := events[..|events| - 1], events[|events| - 1];
    assert forall j :: 0 <= j < |before| ==> before[j] == events[j];
    if Standing(endpoint, events, i, key) {
      forall j | i < j < |before|
        ensures !ConnectsKey(before[j], key) && !DisconnectsKey(before[j], endpoint, key, endpoint(events[i].gate))
      {
        assert before[j] == events[j];
      }
    }
    if Standing(endpoint, before, i, key) && !ConnectsKey(last, key)
       && !DisconnectsKey(last, endpoint, key, endpoint(events[i].gate)) {
      forall j | i < j < |events|
        ensures !ConnectsKey(events[j], key) && !DisconnectsKey(events[j], endpoint, key, endpoint(events[i].gate))
      {
        if j < |before| {
          assert before[j] == events[j];
        }
      }
    }
  }

  /**
   After any history, over any number of gates, a user has a route exactly when the latest
   connect still stands, and the route is that connect's gate.
   */
  lemma {:induction false} RouteIff(endpoint: Gate -> string, events: seq<Event>, key: Key)
    ensures key in Run(endpoint, events) <==> exists i :: 0 <= i < |events| && Standing(endpoint, events, i, key)
    ensures forall i :: 0 <= i < |events| && Standing(endpoint, events, i, key) ==>
                          key in Run(endpoint, events) && Run(endpoint, events)[key] == endpoint(events[i].gate)
    decreases |events|
  {
    if events != [] {
      var n := |events| - 1;
      var before, last := events[..n], events[n];
      RouteIff(endpoint, before, key);
      forall i | 0 <= i < n
        ensures Standing(endpoint, events, i, key) <==>
                && Standing(endpoint, before, i, key)
                && !ConnectsKey(last, key) && !DisconnectsKey(last, endpoint, key, endpoint(before[i].gate))
      {
        StandingPrefix(endpoint, events, i, key);
      }
      if ConnectsKey(last, key) {
        assert Standing(endpoint, events, n, key);
      } else {
        assert !Standing(endpoint, events, n, key);
        RouteUnlessConnect(endpoint, events, key);
      }
    }
  }

  lemma RouteUnlessConnect(endpoint: Gate -> string, events: seq<Event>, key: Key)
    requires events != [] && !ConnectsKey(events[|events| - 1], key)
    ensures var before := Run(endpoint, events[..|events| - 1]);
            && (key in Run(endpoint, events) <==>
                key in before && !DisconnectsKey(events[|events| - 1], endpoint, key, before[key]))
            && (key in Run(endpoint, events) ==> Run(endpoint, events)[key] == before[key])
  {
  }

  ghost predicate DistinctEndpoints(endpoint: Gate -> string) {
    forall g, h :: endpoint(g) == endpoint(h) ==> g == h
  }

  /**
   With distinct gate addresses, a connect at step `i` is still routed to, whatever other
   gates report afterwards, until the user connects again or that same gate disconnects.
   */
  lemma OtherGatesCannotUnroute(endpoint: Gate -> string, events: seq<Event>, i: nat, key: Key)
    requires DistinctEndpoints(endpoint) && i < |events| && ConnectsKey(events[i], key)
    requires forall j :: i < j < |events| && events[j].key == key && events[j].applied ==>
                           events[j].Disconnect? && events[j].gate != events[i].gate
    ensures key in Run(endpoint, events) && Run(endpoint, events)[key] == endpoint(events[i].gate)
  {
    assert Standing(endpoint, events, i, key);
    RouteIff(endpoint, events, key);
  }

  /** Gates that share an address do remove each other's entries. */
  lemma SharedAddressUnroutes(endpoint: Gate -> string, g: Gate, h: Gate, key: Key)
    requires endpoint(g) == endpoint(h)
    ensures key !in Run(endpoint, [Connect(g, key, true), Disconnect(h, key, true)])
  {
    var all := [Connect(g, key, true), Disconnect(h, key, true)];
    assert all[..1] == [Connect(g, key, true)];
    assert [Connect(g, key, true)][..0] == [];
    assert Run(endpoint, [Connect(g, key, true)]) == map[key := endpoint(g)];
  }

  /** So does a late disconnect of an older connection to the same gate. */
  lemma LateDisconnectUnroutes(endpoint: Gate -> string, g: Gate, key: Key)
    ensures key !in Run(endpoint, [Connect(g, key, true), Connect(g, key, true), Disconnect(g, key, true)])
  {
    var c := Connect(g, key, true);
    var all := [c, c, Disconnect(g, key, true)];
    RouteIff(endpoint, all, key);
    assert DisconnectsKey(all[2], endpoint, key, endpoint(g));
    assert forall i :: 0 <= i < 3 ==> !Standing(endpoint, all, i, key);
  }
}
