/**
 Numbering of server packets (app/gate/internal/intra/net/tunnels/tunnel.go,
 pkg/net/session.go): every tunnel of a session draws from one shared counter and then
 pushes. The draw and the push are separate steps, and a push may fail.
 */
module ServerIndexes {
  import opened Framing

  /** The handshake reply takes index 2. */
  const HANDSHAKE_INDEX := 2

  /** A packet that reached the reply channel: its tunnel and the counter value it drew. */
  datatype Pushed = Pushed(tunnel: nat, draw: int)

  datatype State = State(counter: int, drawn: map<nat, int>, pushed: seq<Pushed>)

  datatype Event = Draw(tunnel: nat) | Push(tunnel: nat, ok: bool)

  const INIT := State(HANDSHAKE_INDEX, map[], [])

  function Next(s: State, e: Event): State {
    match e
    case Draw(t) =>
      if t in s.drawn then s else s.(counter := s.counter + 1, drawn := s.drawn[t := s.counter + 1])
    case Push(t, ok) =>
      if t !in s.drawn then s
      else s.(drawn := s.drawn - {t}, pushed := if ok then s.pushed + [Pushed(t, s.drawn[t])] else s.pushed)
  }

  function Run(events: seq<Event>): State {
    if events == [] then INIT else Next(Run(events[..|events| - 1]), events[|events| - 1])
  }

  /** Draws not yet pushed are distinct. */
  ghost predicate DrawnInv(s: State) {
    && s.counter >= HANDSHAKE_INDEX
    && (forall t :: t in s.drawn ==> HANDSHAKE_INDEX < s.drawn[t] <= s.counter)
    && (forall t, u :: t in s.drawn && u in s.drawn && t != u ==> s.drawn[t] != s.drawn[u])
  }

  /** Pushed draws are distinct, and increase within a tunnel. */
  ghost predicate PushedInv(p: seq<Pushed>, counter: int) {
    && (forall i :: 0 <= i < |p| ==> HANDSHAKE_INDEX < p[i].draw <= counter)
    && (forall i, j :: 0 <= i < j < |p| ==> p[i].draw != p[j].draw)
    && (forall i, j :: 0 <= i < j < |p| && p[i].tunnel == p[j].tunnel ==> p[i].draw < p[j].draw)
  }

  /** A pending draw is new, and larger than anything its tunnel has pushed. */
  ghost predicate PendingInv(p: seq<Pushed>, t: nat, draw: int) {
    forall i :: 0 <= i < |p| ==> p[i].draw != draw && (p[i].tunnel == t ==> p[i].draw < draw)
  }

  ghost predicate Inv(s: State) {
    && DrawnInv(s)
    && PushedInv(s.pushed, s.counter)
    && (forall t :: t in s.drawn ==> PendingInv(s.pushed, t, s.drawn[t]))
  }

  lemma PushInv(p: seq<Pushed>, counter: int, t: nat, draw: int)
    requires PushedInv(p, counter) && PendingInv(p, t, draw) && HANDSHAKE_INDEX < draw <= counter
    ensures PushedInv(p + [Pushed(t, draw)], counter)
  {
  }

  lemma DrawStep(s: State, t: nat)
    requires Inv(s) && t !in s.drawn
    ensures Inv(Next(s, Draw(t)))
  {
    var s' := Next(s, Draw(t));
    forall u | u in s'.drawn
      ensures PendingInv(s'.pushed, u, s'.drawn[u])
    {
      assert u != t ==> PendingInv(s.pushed, u, s.drawn[u]);
    }
  }

  lemma PushStep(s: State, t: nat, ok: bool)
    requires Inv(s) && t in s.drawn
    ensures Inv(Next(s, Push(t, ok)))
  {
    var s' := Next(s, Push(t, ok));
    PushInv(s.pushed, s.counter, t, s.drawn[t]);
    forall u | u in s'.drawn
      ensures PendingInv(s'.pushed, u, s'.drawn[u])
    {
      assert PendingInv(s.pushed, u, s.drawn[u]);
    }
  }

  lemma StepInv(s: State, e: Event)
    requires Inv(s)
    ensures Inv(Next(s, e))
  {
    match e {
      case Draw(t) => if t !in s.drawn { DrawStep(s, t); }
      case Push(t, ok) => if t in s.drawn { PushStep(s, t, ok); }
    }
  }

  lemma {:induction false} RunInv(events: seq<Event>)
    ensures Inv(Run(events))
    decreases |events|
  {
    if events != [] {
      RunInv(events[..|events| - 1]);
      StepInv(Run(events[..|events| - 1]), events[|events| - 1]);
    }
  }

  /** A draw that is used up: no packet carries it or will. */
  ghost predicate Gone(s: State, draw: int) {
    && draw <= s.counter
    && (forall i :: 0 <= i < |s.pushed| ==> s.pushed[i].draw != draw)
    && (forall t :: t in s.drawn ==> s.drawn[t] != draw)
  }

  lemma {:induction false} StaysGone(events: seq<Event>, more: seq<Event>, draw: int)
    requires Gone(Run(events), draw)
    ensures Gone(Run(events + more), draw)
    decreases |more|
  {
    if more == [] {
      assert events + more == events;
    } else {
      var before := more[..|more| - 1];
      StaysGone(events, before, draw);
      assert (events + more)[..|events + more| - 1] == events + before;
    }
  }

  /**
   What becomes of a draw, in every run. A push that succeeds puts exactly that draw on the channel;
   one that fails puts nothing there, and its draw is never used again.
   */
  lemma {:induction false} PushExact(events: seq<Event>, t: nat, more: seq<Event>)
    requires t in Run(events).drawn
    ensures var draw := Run(events).drawn[t];
            && Run(events + [Push(t, true)]).pushed == Run(events).pushed + [Pushed(t, draw)]
            && Run(events + [Push(t, false)]).pushed == Run(events).pushed
            && Gone(Run(events + [Push(t, false)] + more), draw)
  {
    RunInv(events);
    var s := Run(events);
    assert (events + [Push(t, true)])[..|events|] == events;
    assert (events + [Push(t, false)])[..|events|] == events;
    assert PendingInv(s.pushed, t, s.drawn[t]);
    StaysGone(events + [Push(t, false)], more, s.drawn[t]);
  }

  /** How many draws were lost to a push that failed. */
  function Lost(events: seq<Event>): nat {
    if events == [] then 0
    else
      var before, e := events[..|events| - 1], events[|events| - 1];
      Lost(before) + if e.Push? && !e.ok && e.tunnel in Run(before).drawn then 1 else 0
  }

  /** Every number drawn is on the channel, waits for its push, or was lost to one that failed. */
  lemma {:induction false} DrawsAccountedFor(events: seq<Event>)
    ensures Run(events).counter == HANDSHAKE_INDEX + |Run(events).pushed| + |Run(events).drawn| + Lost(events)
    decreases |events|
  {
    if events != [] {
      var before, e := events[..|events| - 1], events[|events| - 1];
      DrawsAccountedFor(before);
      DrawnSize(Run(before), e);
    }
  }

  lemma DrawnSize(s: State, e: Event)
    ensures |Next(s, e).drawn| ==
            |s.drawn| + if e.Draw? && e.tunnel !in s.drawn then 1 else if e.Push? && e.tunnel in s.drawn then -1 else 0
  {
    if e.Push? && e.tunnel in s.drawn {
      var rest := s.drawn - {e.tunnel};
      assert s.drawn == rest[e.tunnel := s.drawn[e.tunnel]];
    }
  }

  lemma IndexSame(a: int, b: int)
    requires 0 <= a && 0 <= b
    ensures AsInt32(a) == AsInt32(b) <==> (a - b) % TWO_32 == 0
  {
    var q, r := a / TWO_32, a % TWO_32;
    var q', r' := b / TWO_32, b % TWO_32;
    assert a == TWO_32 * q + r && b == TWO_32 * q' + r';
    assert a - b == TWO_32 * (q - q') + (r - r');
  }

  /**
   A packet carries its draw cut to 32 bits. In every interleaving two pushed packets carry the
   same index exactly when the counter moved by a multiple of 2^32 between their draws; so while it stays below 2^32, never.
   */
  lemma IndexesCollideIff(events: seq<Event>, i: nat, j: nat)
    requires i < j < |Run(events).pushed|
    ensures var p := Run(events).pushed;
            && 0 <= p[i].draw && 0 <= p[j].draw && p[i].draw != p[j].draw
            && (AsInt32(p[i].draw) == AsInt32(p[j].draw) <==> (p[i].draw - p[j].draw) % TWO_32 == 0)
            && (Run(events).counter < TWO_32 ==> AsInt32(p[i].draw) != AsInt32(p[j].draw))
  {
    RunInv(events);
    var p := Run(events).pushed;
    IndexSame(p[i].draw, p[j].draw);
  }

  /**
   While the counter stays within 31 bits, every pushed index is larger than the
   handshake's, and each tunnel's indexes strictly increase.
   */
  lemma IndexesIncreasePerTunnel(events: seq<Event>)
    requires Run(events).counter < TWO_31
    ensures var p := Run(events).pushed;
            && (forall i :: 0 <= i < |p| ==> 0 <= p[i].draw && AsInt32(p[i].draw) > HANDSHAKE_INDEX)
            && (forall i, j :: 0 <= i < j < |p| && p[i].tunnel == p[j].tunnel ==> AsInt32(p[i].draw) < AsInt32(p[j].draw))
  {
    RunInv(events);
    var s := Run(events);
    forall i | 0 <= i < |s.pushed|
      ensures 0 <= s.pushed[i].draw && AsInt32(s.pushed[i].draw) == s.pushed[i].draw
    {
    }
  }

  /** Across tunnels the order on the channel need not be the order of the indexes. */
  lemma TunnelsMayOvertake()
    ensures Run([Draw(0), Draw(1), Push(1, true), Push(0, true)]).pushed == [Pushed(1, 4), Pushed(0, 3)]
  {
    var a := [Draw(0)];
    var b := [Draw(0), Draw(1)];
    var c := [Draw(0), Draw(1), Push(1, true)];
    var d := [Draw(0), Draw(1), Push(1, true), Push(0, true)];
    assert a[..0] == [] && b[..1] == a && c[..2] == b && d[..3] == c;
    assert Run(a) == Next(INIT, Draw(0));
    assert Run(b) == Next(Run(a), Draw(1));
    assert Run(c) == Next(Run(b), Push(1, true));
    assert Run(d) == Next(Run(c), Push(0, true));
  }

  function Draws(n: nat): seq<Event> {
    if n == 0 then [] else Draws(n - 1) + [Draw(0), Push(0, true)]
  }

  /** A single tunnel that pushes `n` packets uses exactly the indexes after the handshake's. */
  lemma {:induction false} OneTunnelNoGaps(n: nat)
    ensures Run(Draws(n)).counter == HANDSHAKE_INDEX + n && 0 !in Run(Draws(n)).drawn
    ensures |Run(Draws(n)).pushed| == n
    ensures forall i :: 0 <= i < n ==> Run(Draws(n)).pushed[i] == Pushed(0, HANDSHAKE_INDEX + 1 + i)
  {
    if n > 0 {
      OneTunnelNoGaps(n - 1);
      var before, all := Draws(n - 1), Draws(n);
      var mid := before + [Draw(0)];
      assert all[..|all| - 1] == mid && mid[..|mid| - 1] == before;
      assert Run(mid) == Next(Run(before), Draw(0));
      assert Run(all) == Next(Run(mid), Push(0, true));
    }
  }
}
