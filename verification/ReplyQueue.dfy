/**
 The reply channel of a worker (pkg/net/internal/worker.go): any number of pushers, one
 writer loop and the stop sequence, interleaved step by step. A pusher's check and its send
 are two steps, as in the code.
 */
module ReplyQueue {
  import opened Wrappers
  import opened Bytes
  import opened Framing

  datatype Config = Config(cap: nat, cipher: Cipher, reply: seq<byte>)

  datatype Writer = NotStarted | Waiting | Writing(pack: seq<byte>) | Ended

  datatype State = State(
    pushers: map<nat, seq<byte>>,  // past the check, about to send
    queue: seq<seq<byte>>,
    stopping: bool,
    closed: bool,
    writer: Writer,
    wire: seq<byte>,               // bytes written to the connection
    accepted: seq<seq<byte>>,      // pushes that were accepted, in order
    written: seq<seq<byte>>,       // packets completely written
    failed: seq<seq<byte>>,        // the packet whose write failed, if any
    panicked: set<nat>)            // pushers that sent on the closed channel

  datatype Event =
    | PushCheck(who: nat, out: seq<byte>)
    | PushSend(who: nat)
    | WriterStart
    | WriterTake
    | WriterFinish(fail: Option<nat>)
    | StopBegin
    | CloseChan

  function Init(c: Config): State {
    State(map[], [], false, false, NotStarted, Frame(c.reply), [], [], [], {})
  }

  /** One step; an event that is not enabled changes nothing. */
  function Next(c: Config, s: State, e: Event): State {
    match e
    case PushCheck(who, out) =>
      if s.stopping || |out| == 0 || who in s.pushers then s else s.(pushers := s.pushers[who := out])
    case PushSend(who) =>
      if who !in s.pushers then s
      else if s.closed then s.(pushers := s.pushers - {who}, panicked := s.panicked + {who})
      else if |s.queue| >= c.cap then s
      else
        var out := s.pushers[who];
        s.(pushers := s.pushers - {who}, queue := s.queue + [out], accepted := s.accepted + [out])
    case WriterStart => if s.writer.NotStarted? then s.(writer := Waiting) else s
    case WriterTake =>
      if !s.writer.Waiting? then s
      else if s.queue != [] then s.(writer := Writing(s.queue[0]), queue := s.queue[1..])
      else if s.closed then s.(writer := Ended)
      else s
    case WriterFinish(fail) =>
      if !s.writer.Writing? then s
      else
        var pack := s.writer.pack;
        (match c.cipher.Encrypt(pack)
         case None => s.(writer := Ended, failed := [pack])
         case Some(body) =>
           if fail.Some? && fail.value < |Frame(body)| then
             s.(writer := Ended, failed := [pack], wire := s.wire + Frame(body)[..fail.value])
           else s.(writer := Waiting, wire := s.wire + Frame(body), written := s.written + [pack]))
    case StopBegin => s.(stopping := true)
    case CloseChan => if s.stopping then s.(closed := true) else s
  }

  function Run(c: Config, s: State, events: seq<Event>): State {
    if events == [] then s else Next(c, Run(c, s, events[..|events| - 1]), events[|events| - 1])
  }

  function InFlight(w: Writer): seq<seq<byte>> {
    if w.Writing? then [w.pack] else []
  }

  /** Nothing accepted is lost, duplicated or reordered, except the packet whose write failed. */
  ghost predicate Conserved(c: Config, s: State) {
    && s.accepted == s.written + s.failed + InFlight(s.writer) + s.queue
    && (s.failed != [] ==> s.writer.Ended? && |s.failed| == 1)
    && |s.queue| <= c.cap
    && (s.closed ==> s.stopping)
  }

  /** The wire holds the reply, the written packets, and part of the failed one's frame. */
  ghost predicate OnWire(c: Config, s: State, bodies: seq<seq<byte>>, part: seq<byte>) {
    && Sealed(c.cipher, s.written, bodies)
    && s.wire == FrameAll([c.reply] + bodies) + part
    && (part == [] || part < FailedFrame(c, s.failed))
  }

  /** The frame of the packet whose write failed, if it got that far. */
  function FailedFrame(c: Config, failed: seq<seq<byte>>): seq<byte> {
    if failed == [] || c.cipher.Encrypt(failed[0]).None? then []
    else Frame(c.cipher.Encrypt(failed[0]).value)
  }

  ghost predicate Inv(c: Config, s: State) {
    Conserved(c, s) && exists bodies, part :: OnWire(c, s, bodies, part)
  }

  lemma ConservedStep(c: Config, s: State, e: Event)
    requires Conserved(c, s)
    ensures Conserved(c, Next(c, s, e))
  {
    match e {
      case PushSend(_) =>
        SendConserved(c, s, e);
      case WriterTake =>
        TakeConserved(c, s, e);
      case WriterFinish(_) =>
        FinishConserved(c, s, e);
      case _ =>
    }
  }

  lemma SendConserved(c: Config, s: State, e: Event)
    requires Conserved(c, s) && e.PushSend?
    ensures Conserved(c, Next(c, s, e))
  {
  }

  lemma TakeConserved(c: Config, s: State, e: Event)
    requires Conserved(c, s) && e.WriterTake?
    ensures Conserved(c, Next(c, s, e))
  {
    if s.queue != [] {
      assert s.queue == [s.queue[0]] + s.queue[1..];
    }
  }

  /** What a finished write changes, frames aside. */
  lemma FinishEffect(c: Config, s: State, e: Event)
    requires e.WriterFinish? && s.writer.Writing?
    ensures var t := Next(c, s, e);
            && t.queue == s.queue && t.accepted == s.accepted && t.closed == s.closed && t.stopping == s.stopping
            && ((t.writer.Waiting? && t.written == s.written + [s.writer.pack] && t.failed == s.failed)
                || (t.writer.Ended? && t.written == s.written && t.failed == [s.writer.pack]))
  {
  }

  lemma FinishConserved(c: Config, s: State, e: Event)
    requires Conserved(c, s) && e.WriterFinish?
    ensures Conserved(c, Next(c, s, e))
  {
    if s.writer.Writing? {
      FinishEffect(c, s, e);
    }
  }

  lemma WireStep(c: Config, s: State, e: Event, bodies: seq<seq<byte>>, part: seq<byte>)
    returns (bodies': seq<seq<byte>>, part': seq<byte>)
    requires Conserved(c, s) && OnWire(c, s, bodies, part)
    ensures OnWire(c, Next(c, s, e), bodies', part')
  {
    if e.WriterFinish? && s.writer.Writing? {
      bodies', part' := WireFinish(c, s, e, bodies, part);
    } else {
      WireIdle(c, s, e);
      bodies', part' := bodies, part;
    }
  }

  /** Nothing but a finished write touches the wire. */
  lemma WireIdle(c: Config, s: State, e: Event)
    requires !(e.WriterFinish? && s.writer.Writing?)
    ensures var t := Next(c, s, e);
            t.wire == s.wire && t.written == s.written && t.failed == s.failed
  {
  }

  lemma WireFinish(c: Config, s: State, e: Event, bodies: seq<seq<byte>>, part: seq<byte>)
    returns (bodies': seq<seq<byte>>, part': seq<byte>)
    requires Conserved(c, s) && OnWire(c, s, bodies, part) && e.WriterFinish? && s.writer.Writing?
    ensures OnWire(c, Next(c, s, e), bodies', part')
  {
    bodies', part' := bodies, [];
    assert s.wire == FrameAll([c.reply] + bodies) + [];
    if c.cipher.Encrypt(s.writer.pack).Some? {
      var body := c.cipher.Encrypt(s.writer.pack).value;
      if e.fail.Some? && e.fail.value < |Frame(body)| {
        part' := Frame(body)[..e.fail.value];
      } else {
        bodies' := bodies + [body];
        WireGrows(c.reply, bodies, body);
      }
    }
  }

  lemma WireGrows(reply: seq<byte>, bodies: seq<seq<byte>>, body: seq<byte>)
    ensures FrameAll([reply] + (bodies + [body])) == FrameAll([reply] + bodies) + Frame(body)
  {
    FrameAllSnoc([reply] + bodies, body);
    assert [reply] + bodies + [body] == [reply] + (bodies + [body]);
  }

  lemma InitInv(c: Config)
    ensures Inv(c, Init(c))
  {
    var s := Init(c);
    assert FrameAll([c.reply] + []) == Frame(c.reply);
    assert OnWire(c, s, [], []);
  }

  /** Every run keeps the accepted pushes accounted for, in order. */
  lemma {:induction false} RunInv(c: Config, events: seq<Event>)
    ensures Inv(c, Run(c, Init(c), events))
    decreases |events|
  {
    if events == [] {
      InitInv(c);
    } else {
      var before := events[..|events| - 1];
      RunInv(c, before);
      var s, e := Run(c, Init(c), before), events[|events| - 1];
      ConservedStep(c, s, e);
      var bodies, part :| OnWire(c, s, bodies, part);
      var _, _ := WireStep(c, s, e, bodies, part);
    }
  }

  /** The encrypted form of each accepted push. */
  ghost predicate Encryptable(c: Config, packs: seq<seq<byte>>) {
    forall i :: 0 <= i < |packs| ==>
                  && (c.cipher.Plain? ==> Accepts(CLIENT, packs[i]))
                  && (c.cipher.Aes? ==> c.cipher.enc(packs[i]).Some? && Accepts(CLIENT, c.cipher.enc(packs[i]).value))
  }

  function SealAll(c: Config, packs: seq<seq<byte>>): (bodies: seq<seq<byte>>)
    requires Encryptable(c, packs)
    ensures Sealed(c.cipher, packs, bodies)
  {
    seq(|packs|, i requires 0 <= i < |packs| => c.cipher.Encrypt(packs[i]).value)
  }

  /**
   What the client reads off the connection, in any run: the handshake reply, every packet
   completely written, and nothing that is not, in order, an accepted push.
   */
  lemma ClientReadsPrefix(c: Config, events: seq<Event>)
    requires Accepts(CLIENT, c.reply)
    requires Encryptable(c, Run(c, Init(c), events).accepted)
    ensures var s := Run(c, Init(c), events);
            var seen := DecodeAll(CLIENT, Plain, s.wire);
            && s.written <= s.accepted
            && [c.reply] + SealAll(c, s.accepted)[..|s.written|] <= seen
            && seen <= [c.reply] + SealAll(c, s.accepted)
            && forall i :: 1 <= i < |seen| ==>
                             if c.cipher.Plain? then seen[i] == s.accepted[i - 1]
                             else c.cipher.enc(s.accepted[i - 1]) == Some(seen[i])
  {
    RunInv(c, events);
    var s := Run(c, Init(c), events);
    var bodies, part :| OnWire(c, s, bodies, part);
    WrittenComesFirst(c, s, bodies);
    CompletePacketsSeen([c.reply] + bodies, part);
    OnlyAcceptedSeen(c, s, bodies, part, SealAll(c, s.accepted));
    SeenAsSealed(c, s.accepted, SealAll(c, s.accepted), DecodeAll(CLIENT, Plain, s.wire));
  }

  lemma SeenAsSealed(c: Config, accepted: seq<seq<byte>>, all: seq<seq<byte>>, seen: seq<seq<byte>>)
    requires Sealed(c.cipher, accepted, all) && seen <= [c.reply] + all
    ensures forall i :: 1 <= i < |seen| ==>
                          if c.cipher.Plain? then seen[i] == accepted[i - 1]
                          else c.cipher.enc(accepted[i - 1]) == Some(seen[i])
  {
    forall i | 1 <= i < |seen|
      ensures seen[i] == all[i - 1]
    {
    }
  }

  lemma OnlyAcceptedSeen(c: Config, s: State, bodies: seq<seq<byte>>, part: seq<byte>, all: seq<seq<byte>>)
    requires Conserved(c, s) && OnWire(c, s, bodies, part) && Accepts(CLIENT, c.reply)
    requires Encryptable(c, s.accepted) && all == SealAll(c, s.accepted) && bodies <= all
    ensures DecodeAll(CLIENT, Plain, s.wire) <= [c.reply] + all
  {
    var start := [c.reply] + bodies;
    if part == [] {
      assert s.wire == FrameAll(start);
      AtMostPackets(start, s.wire);
    } else {
      FailedComesNext(c, s, bodies);
      var body := all[|s.written|];
      OneMore(c.reply, bodies, all);
      WireGrows(c.reply, bodies, body);
      PrefixOfSum(FrameAll(start), part, Frame(body));
      AtMostPackets([c.reply] + (bodies + [body]), s.wire);
    }
  }

  lemma OneMore(reply: seq<byte>, bodies: seq<seq<byte>>, all: seq<seq<byte>>)
    requires bodies <= all && |bodies| < |all| && Accepts(CLIENT, reply) && AllAccepted(CLIENT, all)
    ensures [reply] + (bodies + [all[|bodies|]]) <= [reply] + all
    ensures AllAccepted(CLIENT, [reply] + (bodies + [all[|bodies|]]))
  {
  }

  lemma PrefixOfSum(a: seq<byte>, b: seq<byte>, c: seq<byte>)
    requires b <= c
    ensures a + b <= a + c
  {
  }

  lemma WrittenComesFirst(c: Config, s: State, bodies: seq<seq<byte>>)
    requires Conserved(c, s) && Encryptable(c, s.accepted) && Sealed(c.cipher, s.written, bodies)
    ensures s.written <= s.accepted && bodies == SealAll(c, s.accepted)[..|s.written|]
    ensures AllAccepted(CLIENT, bodies)
  {
    assert forall i :: 0 <= i < |s.written| ==> s.written[i] == s.accepted[i];
  }

  lemma FailedComesNext(c: Config, s: State, bodies: seq<seq<byte>>)
    requires Conserved(c, s) && Encryptable(c, s.accepted) && s.failed != []
    ensures |s.written| < |s.accepted| && s.accepted[|s.written|] == s.failed[0]
  {
  }

  lemma PlainSealed(bodies: seq<seq<byte>>)
    ensures Plain.Inverse() && Sealed(Plain, bodies, bodies)
  {
  }

  lemma CompletePacketsSeen(bodies: seq<seq<byte>>, part: seq<byte>)
    requires AllAccepted(CLIENT, bodies)
    ensures bodies <= DecodeAll(CLIENT, Plain, FrameAll(bodies) + part)
  {
    PlainSealed(bodies);
    SealedRoundTrip(CLIENT, Plain, bodies, bodies, part);
  }

  lemma AtMostPackets(bodies: seq<seq<byte>>, wire: seq<byte>)
    requires AllAccepted(CLIENT, bodies) && wire <= FrameAll(bodies)
    ensures DecodeAll(CLIENT, Plain, wire) <= bodies
  {
    PlainSealed(bodies);
    CutStreamDecodes(CLIENT, Plain, bodies, bodies, |wire|);
    assert wire == FrameAll(bodies)[..|wire|];
  }

  // ---------- sending on the closed channel ----------

  ghost predicate StopsBefore(events: seq<Event>, k: nat) {
    exists b :: 0 <= b < k && b < |events| && events[b] == StopBegin
  }

  ghost predicate ClosesBefore(events: seq<Event>, k: nat) {
    exists d :: 0 <= d < k && d < |events| && events[d] == CloseChan && StopsBefore(events, d)
  }

  /** At step `i` pusher `who` passes its check: it has something to send and Stop has not begun. */
  ghost predicate PassesCheck(events: seq<Event>, i: nat, who: nat)
    requires i < |events|
  {
    events[i].PushCheck? && events[i].who == who && |events[i].out| > 0 && !StopsBefore(events, i)
  }

  /** At step `j` a send would wait: the channel is full and open. */
  ghost predicate Waits(c: Config, events: seq<Event>, j: nat)
    requires j <= |events|
  {
    var s := Run(c, Init(c), events[..j]);
    |s.queue| >= c.cap && !s.closed
  }

  /** Pusher `who` passed its check at step `i` and has been waiting to send ever since. */
  ghost predicate WaitsSince(c: Config, events: seq<Event>, i: nat, k: nat, who: nat)
    requires k <= |events|
  {
    && i < k && PassesCheck(events, i, who)
    && forall j :: i < j < k && events[j] == PushSend(who) ==> Waits(c, events, j)
  }

  /** The state before step `k` of a run. */
  ghost function Before(c: Config, events: seq<Event>, k: nat): State
    requires k <= |events|
  {
    Run(c, Init(c), events[..k])
  }

  lemma {:induction false} BeforeNext(c: Config, events: seq<Event>, k: nat)
    requires k < |events|
    ensures Before(c, events, k + 1) == Next(c, Before(c, events, k), events[k])
  {
    assert events[..k + 1][..k] == events[..k];
  }

  /** The flags say what happened. */
  lemma {:induction false} FlagsExact(c: Config, events: seq<Event>, k: nat)
    requires k <= |events|
    ensures Before(c, events, k).stopping <==> StopsBefore(events, k)
    ensures Before(c, events, k).closed <==> ClosesBefore(events, k)
  {
    if k == 0 {
      assert events[..0] == [];
    } else {
      FlagsExact(c, events, k - 1);
      BeforeNext(c, events, k - 1);
      FlagsNext(c, Before(c, events, k - 1), events[k - 1]);
      FlagStep(events, k - 1);
    }
  }

  /** What one step does to the flags and to the pushers that panicked. */
  lemma FlagsNext(c: Config, s: State, e: Event)
    ensures Next(c, s, e).stopping <==> s.stopping || e == StopBegin
    ensures Next(c, s, e).closed <==> s.closed || (e == CloseChan && s.stopping)
    ensures Next(c, s, e).panicked ==
            if e.PushSend? && e.who in s.pushers && s.closed then s.panicked + {e.who} else s.panicked
  {
  }

  lemma FlagStep(events: seq<Event>, k: nat)
    requires k < |events|
    ensures StopsBefore(events, k + 1) <==> StopsBefore(events, k) || events[k] == StopBegin
    ensures ClosesBefore(events, k + 1) <==> ClosesBefore(events, k) || (events[k] == CloseChan && StopsBefore(events, k))
  {
  }

  /** One step of being between check and send. */
  lemma PendingStep(c: Config, s: State, e: Event, who: nat)
    ensures who in Next(c, s, e).pushers <==>
            || (e.PushCheck? && e.who == who && |e.out| > 0 && !s.stopping)
            || (who in s.pushers && !(e == PushSend(who) && (s.closed || |s.queue| < c.cap)))
  {
  }

  lemma WaitsStep(c: Config, events: seq<Event>, i: nat, k: nat, who: nat)
    requires k < |events|
    ensures WaitsSince(c, events, i, k + 1, who) <==>
            || (i == k && PassesCheck(events, k, who))
            || (WaitsSince(c, events, i, k, who) && (events[k] == PushSend(who) ==> Waits(c, events, k)))
  {
  }

  /** Who is between check and send before step `k`: exactly those that passed a check and still wait. */
  lemma {:induction false} PendingExact(c: Config, events: seq<Event>, k: nat, who: nat)
    requires k <= |events|
    ensures who in Before(c, events, k).pushers <==> exists i :: WaitsSince(c, events, i, k, who)
  {
    if k == 0 {
      assert events[..0] == [];
    } else {
      var n := k - 1;
      PendingExact(c, events, n, who);
      FlagsExact(c, events, n);
      BeforeNext(c, events, n);
      PendingStep(c, Before(c, events, n), events[n], who);
      if exists i :: WaitsSince(c, events, i, k, who) {
        var i :| WaitsSince(c, events, i, k, who);
        WaitsStep(c, events, i, n, who);
      }
      if PassesCheck(events, n, who) {
        WaitsStep(c, events, n, n, who);
      } else if who in Before(c, events, k).pushers {
        var i :| WaitsSince(c, events, i, n, who);
        WaitsStep(c, events, i, n, who);
      }
    }
  }

  /** At step `k` pusher `who` sends on the closed channel. */
  ghost predicate SendsLate(c: Config, events: seq<Event>, k: nat, who: nat)
    requires k < |events|
  {
    events[k] == PushSend(who) && ClosesBefore(events, k) && exists i :: WaitsSince(c, events, i, k, who)
  }

  /**
   In every run from the start, a pusher panics exactly if it passed its check before Stop began
   and its send comes only after the channel was closed.
   */
  lemma {:induction false} PanicIff(c: Config, events: seq<Event>, n: nat, who: nat)
    requires n <= |events|
    ensures who in Before(c, events, n).panicked <==> exists k :: 0 <= k < n && SendsLate(c, events, k, who)
  {
    if n == 0 {
      assert events[..0] == [];
    } else {
      var k := n - 1;
      PanicIff(c, events, k, who);
      BeforeNext(c, events, k);
      FlagsNext(c, Before(c, events, k), events[k]);
      FlagsExact(c, events, k);
      PendingExact(c, events, k, who);
      assert events[k].PushSend? && events[k].who == who <==> events[k] == PushSend(who);
      assert who in Before(c, events, n).panicked <==> who in Before(c, events, k).panicked || SendsLate(c, events, k, who);
    }
  }

  /** A run that panics: the check passes, Stop closes the channel, then the send comes. */
  lemma PushCanPanic(c: Config, events: seq<Event>)
    requires events == [PushCheck(0, [1]), StopBegin, CloseChan, PushSend(0)]
    ensures 0 in Run(c, Init(c), events).panicked
  {
    assert PassesCheck(events, 0, 0);
    assert WaitsSince(c, events, 0, 3, 0);
    assert events[1] == StopBegin && events[2] == CloseChan;
    assert StopsBefore(events, 2) && ClosesBefore(events, 3);
    assert SendsLate(c, events, 3, 0);
    PanicIff(c, events, 4, 0);
    assert events[..4] == events;
  }

  // ---------- what is accepted, and what becomes of it ----------

  /** The check at step `i` is the one pusher `who` is waiting on before step `k`. */
  ghost predicate WaitsOn(c: Config, events: seq<Event>, i: nat, k: nat, who: nat)
    requires k <= |events|
  {
    WaitsSince(c, events, i, k, who) && forall h :: WaitsSince(c, events, h, k, who) ==> i <= h
  }

  /** At step `k` the send of the check at step `i` goes through: the channel is open and has room. */
  ghost predicate GoesThrough(c: Config, events: seq<Event>, i: nat, k: nat)
    requires k < |events|
  {
    && events[k].PushSend? && WaitsOn(c, events, i, k, events[k].who)
    && !ClosesBefore(events, k) && !Waits(c, events, k)
  }

  lemma {:induction false} SomeWaitsOn(c: Config, events: seq<Event>, i: nat, k: nat, who: nat)
    requires k <= |events| && WaitsSince(c, events, i, k, who)
    ensures exists h :: WaitsOn(c, events, h, k, who)
    decreases i
  {
    if exists h: nat :: WaitsSince(c, events, h, k, who) && h < i {
      var h: nat :| WaitsSince(c, events, h, k, who) && h < i;
      SomeWaitsOn(c, events, h, k, who);
    } else {
      assert WaitsOn(c, events, i, k, who);
    }
  }

  /** What a pusher is about to send is what it came with to the check it waits on. */
  lemma {:induction false} OutExact(c: Config, events: seq<Event>, i: nat, k: nat, who: nat)
    requires k <= |events| && WaitsOn(c, events, i, k, who)
    ensures who in Before(c, events, k).pushers && Before(c, events, k).pushers[who] == events[i].out
    decreases k
  {
    var n := k - 1;
    BeforeNext(c, events, n);
    PendingExact(c, events, k, who);
    if i == n {
      if who in Before(c, events, n).pushers {
        PendingExact(c, events, n, who);
        var h :| WaitsSince(c, events, h, n, who);
        WaitsStep(c, events, h, n, who);
      }
    } else {
      WaitsStep(c, events, i, n, who);
      forall h | WaitsSince(c, events, h, n, who)
        ensures i <= h
      {
        WaitsStep(c, events, h, n, who);
      }
      OutExact(c, events, i, n, who);
      OutKept(c, Before(c, events, n), events[n], who);
    }
  }

  lemma OutKept(c: Config, s: State, e: Event, who: nat)
    requires who in s.pushers && who in Next(c, s, e).pushers
    ensures Next(c, s, e).pushers[who] == s.pushers[who]
  {
  }

  /** What step `k` adds to the accepted pushes: the packet of the send that goes through, if one does. */
  ghost function Added(c: Config, events: seq<Event>, k: nat): seq<seq<byte>>
    requires k < |events|
  {
    if exists i: nat :: GoesThrough(c, events, i, k) then
      var i: nat :| GoesThrough(c, events, i, k); [events[i].out]
    else []
  }

  /** The pushes that went through in the first `n` steps, in the order of their sends. */
  ghost function WentThrough(c: Config, events: seq<Event>, n: nat): seq<seq<byte>>
    requires n <= |events|
  {
    if n == 0 then [] else WentThrough(c, events, n - 1) + Added(c, events, n - 1)
  }

  /** How one step adds to the accepted pushes. */
  lemma AcceptedNext(c: Config, s: State, e: Event)
    ensures Next(c, s, e).accepted ==
            s.accepted + if e.PushSend? && e.who in s.pushers && !s.closed && |s.queue| < c.cap then [s.pushers[e.who]] else []
  {
  }

  /**
   In every run from the start, the accepted pushes are exactly what went through: for each send
   that found the channel open and with room, what its pusher had checked, in order.
   */
  lemma {:induction false} AcceptedExact(c: Config, events: seq<Event>, n: nat)
    requires n <= |events|
    ensures Before(c, events, n).accepted == WentThrough(c, events, n)
  {
    if n == 0 {
      assert events[..0] == [];
    } else {
      var k := n - 1;
      AcceptedExact(c, events, k);
      BeforeNext(c, events, k);
      AcceptedNext(c, Before(c, events, k), events[k]);
      AddedExact(c, events, k);
    }
  }

  lemma {:induction false} AddedExact(c: Config, events: seq<Event>, k: nat)
    requires k < |events|
    ensures var s, e := Before(c, events, k), events[k];
            Added(c, events, k) ==
            if e.PushSend? && e.who in s.pushers && !s.closed && |s.queue| < c.cap then [s.pushers[e.who]] else []
  {
    var s, e := Before(c, events, k), events[k];
    FlagsExact(c, events, k);
    forall i: nat | GoesThrough(c, events, i, k)
      ensures e.PushSend? && e.who in s.pushers && s.pushers[e.who] == events[i].out && !s.closed && |s.queue| < c.cap
    {
      OutExact(c, events, i, k, e.who);
    }
    if e.PushSend? && e.who in s.pushers && !s.closed && |s.queue| < c.cap {
      PendingExact(c, events, k, e.who);
      var i: nat :| WaitsSince(c, events, i, k, e.who);
      SomeWaitsOn(c, events, i, k, e.who);
      var h: nat :| WaitsOn(c, events, h, k, e.who);
      assert GoesThrough(c, events, h, k);
    }
  }

  /** The writer loop left to itself for `n` packets, on a connection that does not break. */
  function Drain(n: nat): seq<Event> {
    if n == 0 then [] else Drain(n - 1) + [WriterTake, WriterFinish(None)]
  }

  /** What brings the writer to its loop's beginning. */
  function ToLoop(w: Writer): seq<Event> {
    if w.NotStarted? then [WriterStart] else if w.Writing? then [WriterFinish(None)] else []
  }

  ghost predicate CanEncrypt(c: Config, packs: seq<seq<byte>>) {
    c.cipher.Aes? ==> forall i :: 0 <= i < |packs| ==> c.cipher.enc(packs[i]).Some?
  }

  lemma {:induction false} RunTwo(c: Config, s: State, events: seq<Event>, a: Event, b: Event)
    ensures Run(c, s, events + [a, b]) == Next(c, Next(c, Run(c, s, events), a), b)
  {
    var all := events + [a, b];
    assert all[..|all| - 1] == events + [a];
    assert (events + [a])[..|events|] == events;
  }

  /** One packet is taken and written. */
  lemma TakeAndWrite(c: Config, s: State)
    requires s.writer.Waiting? && s.queue != [] && CanEncrypt(c, s.queue)
    ensures var t := Next(c, Next(c, s, WriterTake), WriterFinish(None));
            && t.writer.Waiting? && t.queue == s.queue[1..] && t.written == s.written + [s.queue[0]]
            && t.failed == s.failed && t.accepted == s.accepted && t.closed == s.closed
  {
  }

  lemma {:induction false} DrainSome(c: Config, s: State, n: nat)
    requires s.writer.Waiting? && n <= |s.queue| && CanEncrypt(c, s.queue)
    ensures var t := Run(c, s, Drain(n));
            && t.writer.Waiting? && t.queue == s.queue[n..] && t.written == s.written + s.queue[..n]
            && t.failed == s.failed && t.accepted == s.accepted && t.closed == s.closed
  {
    if n > 0 {
      DrainSome(c, s, n - 1);
      RunTwo(c, s, Drain(n - 1), WriterTake, WriterFinish(None));
      QueueStep(s.queue, n);
      TakeAndWrite(c, Run(c, s, Drain(n - 1)));
    } else {
      assert s.queue[..0] == [] && s.queue[0..] == s.queue;
    }
  }

  lemma QueueStep(queue: seq<seq<byte>>, n: nat)
    requires 1 <= n <= |queue|
    ensures queue[n - 1..] != [] && queue[n - 1..][0] == queue[n - 1] && queue[n - 1..][1..] == queue[n..]
    ensures queue[..n - 1] + [queue[n - 1]] == queue[..n]
  {
  }

  lemma {:induction false} RunAppend(c: Config, s: State, a: seq<Event>, b: seq<Event>)
    ensures Run(c, s, a + b) == Run(c, Run(c, s, a), b)
    decreases |b|
  {
    if b == [] {
      assert a + b == a;
    } else {
      assert (a + b)[..|a + b| - 1] == a + b[..|b| - 1];
      RunAppend(c, s, a, b[..|b| - 1]);
    }
  }

  /** Coming back to the loop writes the packet in hand, if there is one. */
  lemma LoopBegins(c: Config, s: State)
    requires Conserved(c, s) && !s.writer.Ended? && CanEncrypt(c, s.accepted)
    ensures var t := Run(c, s, ToLoop(s.writer));
            && t.writer.Waiting? && t.queue == s.queue && t.written == s.written + InFlight(s.writer)
            && t.failed == [] && t.accepted == s.accepted && t.closed == s.closed
  {
    var events := ToLoop(s.writer);
    if events != [] {
      assert events[..0] == [];
      assert Run(c, s, events) == Next(c, s, events[0]);
    }
    if s.writer.Writing? {
      assert s.accepted[|s.written|] == s.writer.pack;
    }
  }

  /**
   From any moment of any run, as long as the writer has not ended and the packets can be
   encrypted: left to itself on a connection that does not break, it writes everything accepted,
   in order; and if the channel is closed it then ends.
   */
  lemma {:induction false} EverythingGetsWritten(c: Config, events: seq<Event>)
    requires !Run(c, Init(c), events).writer.Ended? && CanEncrypt(c, Run(c, Init(c), events).accepted)
    ensures var s := Run(c, Init(c), events);
            var t := Run(c, Init(c), events + (ToLoop(s.writer) + Drain(|s.queue|)));
            && t.accepted == s.accepted && t.written == s.accepted && t.queue == [] && t.failed == []
            && Next(c, t, WriterTake).writer == if s.closed then Ended else Waiting
  {
    RunInv(c, events);
    var s := Run(c, Init(c), events);
    RunAppend(c, Init(c), events, ToLoop(s.writer) + Drain(|s.queue|));
    RunAppend(c, s, ToLoop(s.writer), Drain(|s.queue|));
    AllWrittenFrom(c, s);
  }

  lemma {:induction false} AllWrittenFrom(c: Config, s: State)
    requires Conserved(c, s) && !s.writer.Ended? && CanEncrypt(c, s.accepted)
    ensures var t := Run(c, Run(c, s, ToLoop(s.writer)), Drain(|s.queue|));
            && t.writer.Waiting? && t.accepted == s.accepted && t.written == s.accepted
            && t.queue == [] && t.failed == [] && t.closed == s.closed
  {
    LoopBegins(c, s);
    QueueCanEncrypt(c, s);
    DrainAll(c, Run(c, s, ToLoop(s.writer)));
    assert s.failed == [];
    assert s.accepted == s.written + InFlight(s.writer) + s.queue;
  }

  lemma DrainAll(c: Config, s: State)
    requires s.writer.Waiting? && CanEncrypt(c, s.queue)
    ensures var t := Run(c, s, Drain(|s.queue|));
            && t.writer.Waiting? && t.queue == [] && t.written == s.written + s.queue
            && t.failed == s.failed && t.accepted == s.accepted && t.closed == s.closed
  {
    DrainSome(c, s, |s.queue|);
    assert s.queue[..|s.queue|] == s.queue;
  }

  lemma QueueCanEncrypt(c: Config, s: State)
    requires Conserved(c, s) && CanEncrypt(c, s.accepted)
    ensures CanEncrypt(c, s.queue)
  {
    forall i | 0 <= i < |s.queue|
      ensures s.queue[i] == s.accepted[|s.accepted| - |s.queue| + i]
    {
    }
  }

  /** A writer that ended has failed on a packet, or the channel is closed and all accepted is written. */
  lemma {:induction false} EndedMeans(c: Config, events: seq<Event>)
    ensures var s := Run(c, Init(c), events);
            s.writer.Ended? ==> s.failed != [] || (s.closed && s.queue == [] && s.written == s.accepted)
    decreases |events|
  {
    if events != [] {
      var before, e := events[..|events| - 1], events[|events| - 1];
      EndedMeans(c, before);
      RunInv(c, before);
      EndedStep(c, Run(c, Init(c), before), e);
    }
  }

  lemma EndedStep(c: Config, s: State, e: Event)
    requires Conserved(c, s)
    requires s.writer.Ended? ==> s.failed != [] || (s.closed && s.queue == [] && s.written == s.accepted)
    ensures var t := Next(c, s, e);
            t.writer.Ended? ==> t.failed != [] || (t.closed && t.queue == [] && t.written == t.accepted)
  {
  }

  /**
   A packet's write, in any run: encrypted if the session has keys; its frame on the wire and the
   loop going on, or the loop ended, with no more of the packet on the wire than got out.
   */
  lemma {:induction false} FinishExact(c: Config, events: seq<Event>, fail: Option<nat>)
    requires Run(c, Init(c), events).writer.Writing?
    ensures var s, t := Run(c, Init(c), events), Run(c, Init(c), events + [WriterFinish(fail)]);
            var pack := s.writer.pack;
            var body := if c.cipher.Plain? then Some(pack) else c.cipher.enc(pack);
            if body.None? then
              t.writer.Ended? && t.failed == [pack] && t.wire == s.wire && t.written == s.written
            else if fail.Some? && fail.value < |Frame(body.value)| then
              t.writer.Ended? && t.failed == [pack] && t.wire == s.wire + Frame(body.value)[..fail.value] && t.written == s.written
            else
              t.writer.Waiting? && t.failed == s.failed && t.wire == s.wire + Frame(body.value) && t.written == s.written + [pack]
  {
    assert (events + [WriterFinish(fail)])[..|events|] == events;
  }

  /** Once the writer loop has ended, nothing more is written, whatever is pushed. */
  lemma {:induction false} EndedForever(c: Config, events: seq<Event>, more: seq<Event>)
    requires Run(c, Init(c), events).writer.Ended?
    ensures var s, t := Run(c, Init(c), events), Run(c, Init(c), events + more);
            t.writer.Ended? && t.wire == s.wire && t.written == s.written && t.failed == s.failed
  {
    RunAppend(c, Init(c), events, more);
    EndedFrom(c, Run(c, Init(c), events), more);
  }

  lemma {:induction false} EndedFrom(c: Config, s: State, more: seq<Event>)
    requires s.writer.Ended?
    ensures var t := Run(c, s, more);
            t.writer.Ended? && t.wire == s.wire && t.written == s.written && t.failed == s.failed
    decreases |more|
  {
    if more != [] {
      EndedFrom(c, s, more[..|more| - 1]);
      EndedStays(c, Run(c, s, more[..|more| - 1]), more[|more| - 1]);
    }
  }

  lemma EndedStays(c: Config, s: State, e: Event)
    requires s.writer.Ended?
    ensures var t := Next(c, s, e);
            t.writer.Ended? && t.wire == s.wire && t.written == s.written && t.failed == s.failed
  {
  }
}
