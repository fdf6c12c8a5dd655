/**
 The worker's side of one connection (pkg/net/internal/worker.go): framed reads and
 writes, the handshake, and the read loop that hands packets to the service
 (app/gate/internal/intra/net/service).
 */
module Workers {
  import opened Wrappers
  import opened Bytes
  import opened PowerOfTwo
  import opened SlabPool
  import opened BufReader
  import opened Framing
  import opened Sessions

  const READER_BUF_SIZE := 8192
  const MAX_LEN := 65536

  datatype WorkerError = ReadFailed(cause: Error) | LengthRefused | CryptoFailed | WriteFailed | ServiceFailed

  /** A client packet; `index` is a 32-bit number. */
  datatype Packet = Packet(index: int, mod: int, num: int, obj: int, compress: bool, data: seq<byte>)

  /** The libraries and back ends the service relies on. */
  datatype Service = Service(
    unmarshal: seq<byte> -> Option<Packet>,
    decompress: seq<byte> -> Option<seq<byte>>,
    authenticate: seq<byte> -> Option<(int, Cipher)>,
    reply: (int, int) -> Option<seq<byte>>)

  /** The tunnels at one moment: which is found for a module and an object, and what it accepts. */
  datatype Tunnels = Tunnels(find: (int, int) -> Option<int>, accepts: (int, Packet) -> bool)

  /** A packet, and the tunnel it was forwarded to. */
  datatype Delivery = Delivery(tunnel: int, packet: Packet)

  /** Protobuf decodes a packet's index as a signed 32-bit number. */
  ghost predicate IndexesAre32Bit(svc: Service) {
    forall b :: svc.unmarshal(b).Some? ==> -TWO_31 <= svc.unmarshal(b).value.index < TWO_31
  }

  // ---------- how far the buffer can grow ----------

  /** A reader started at 8192 bytes doubles with each reallocation, so there are at most three. */
  ghost predicate Bounded(rd: Reader)
    reads rd
  {
    && (!rd.cleanedUp ==> IsPow2(rd.len))
    && (!rd.cleanedUp ==> READER_BUF_SIZE * Pow2(rd.reallocs) <= rd.len)
    && rd.len <= MAX_LEN && rd.reallocs <= 3
  }

  lemma StartSizeIsPow2()
    ensures IsPow2(READER_BUF_SIZE) && Pow2(0) == 1
  {
    Pow2Shifts();
    Pow2Sum(8, 4, 12, 256, 16);
    Pow2Sum(12, 1, 13, 4096, 2);
  }

  lemma GrowthBounded(oldLen: int, newLen: int, needed: int, reallocs: nat)
    requires IsPow2(oldLen) && READER_BUF_SIZE * Pow2(reallocs) <= oldLen < needed <= 2 * WORKER.hi
    requires IsLeastPow2(needed + 128, newLen)
    ensures newLen <= MAX_LEN && READER_BUF_SIZE * Pow2(reallocs + 1) <= newLen
  {
    Pow2Shifts();
    assert IsPow2(Pow2(16));
    Pow2Doubles(oldLen, newLen);
  }

  lemma AtMostThreeReallocs(len: int, reallocs: nat)
    requires READER_BUF_SIZE * Pow2(reallocs) <= len <= MAX_LEN
    ensures reallocs <= 3
  {
    if reallocs > 3 {
      Pow2Shifts();
      Pow2Monotone(4, reallocs);
    }
  }

  class Worker {
    const reader: Reader
    const svc: Service
    var session: Session
    /** The bytes written to the connection so far. */
    var sent: seq<byte>

    ghost predicate Valid()
      reads this, reader, reader.pool
    {
      reader.Valid() && Bounded(reader)
    }

    /** The arrays the reader may write to: its own buffer and those in the free lists. */
    ghost function Buffers(): set<array<byte>>
      reads this, reader, reader.pool
    {
      reader.pool.free + {reader.buf}
    }

    constructor (pool: SyncPool, conn: Conn, svc: Service, reuse: array?<byte>)
      requires pool.Valid() && ServesReaders(pool)
      modifies pool`classes, pool`free
      ensures Valid() && !reader.cleanedUp && reader.conn == conn && reader.pool == pool && this.svc == svc
      ensures fresh(reader) && fresh(session) && session.cipher == Plain
      ensures sent == [] && reader.Pending() == conn.data
    {
      StartSizeIsPow2();
      this.reader := new Reader(pool, conn, READER_BUF_SIZE, reuse);
      this.svc := svc;
      this.session := new Session(0, Plain);
      sent := [];
      new;
      assert READER_BUF_SIZE * Pow2(0) == READER_BUF_SIZE;
    }

    /** A bounded `ReadFull` keeps the buffer bounded. */
    method ReadSome(n: int) returns (res: Result<seq<byte>, Error>)
      requires Valid() && 0 <= n <= WORKER.hi
      modifies reader, reader.conn, reader.pool, Buffers()
      ensures Valid()
      ensures res.Ok? <==> n <= |old(reader.Pending())|
      ensures res.Ok? ==> res.value == old(reader.Pending())[..n] && reader.Pending() == old(reader.Pending())[n..]
      ensures forall b :: b in Buffers() ==> b in old(Buffers()) || fresh(b)
    {
      var reuse: array?<byte> := *;
      ghost var needed := n + (reader.w - reader.r);
      res := reader.ReadFull(n, reuse);
      if reader.reallocs != old(reader.reallocs) {
        GrowthBounded(old(reader.len), reader.len, needed, old(reader.reallocs));
        AtMostThreeReallocs(reader.len, reader.reallocs);
      }
    }

    /** The packet length in front of the stream, if it is within bounds. */
    method ReadLength() returns (res: Result<nat, WorkerError>)
      requires Valid()
      modifies reader, reader.conn, reader.pool, Buffers()
      ensures Valid()
      ensures match Parse(WORKER, old(reader.Pending()))
              case BadLength => res == Err(LengthRefused)
              case Truncated => |old(reader.Pending())| < LEN_SIZE ==> res.Err? && res.error.ReadFailed?
              case Body(_, _) => res.Ok?
      ensures res.Ok? ==>
                && 1 <= res.value <= WORKER.hi
                && |old(reader.Pending())| >= LEN_SIZE
                && res.value == Int32At(old(reader.Pending())[..LEN_SIZE])
                && reader.Pending() == old(reader.Pending())[LEN_SIZE..]
      ensures res.Err? ==> Parse(WORKER, old(reader.Pending())).BadLength? || |old(reader.Pending())| < LEN_SIZE
      ensures forall b :: b in Buffers() ==> b in old(Buffers()) || fresh(b)
    {
      var head := ReadSome(LEN_SIZE);
      if head.Err? {
        return Err(ReadFailed(head.error));
      }
      var packLen := Int32At(head.value);
      if packLen <= 0 || packLen > WORKER.hi {
        return Err(LengthRefused);
      }
      return Ok(packLen);
    }

    /** One framed body off the connection. */
    method ReadBody() returns (res: Result<seq<byte>, WorkerError>)
      requires Valid()
      modifies reader, reader.conn, reader.pool, Buffers()
      ensures Valid()
      ensures match Parse(WORKER, old(reader.Pending()))
              case Body(body, rest) => res == Ok(body) && reader.Pending() == rest
              case BadLength => res == Err(LengthRefused)
              case Truncated => res.Err? && res.error.ReadFailed?
      ensures forall b :: b in Buffers() ==> b in old(Buffers()) || fresh(b)
    {
      ghost var stream := reader.Pending();
      var packLen := ReadLength();
      if packLen.Err? {
        return Err(packLen.error);
      }
      ParseByParts(WORKER, stream);
      var body := ReadSome(packLen.value);
      if body.Err? {
        return Err(ReadFailed(body.error));
      }
      return Ok(body.value);
    }

    /** One framed, decrypted packet off the connection. */
    method Read() returns (res: Result<seq<byte>, WorkerError>)
      requires Valid()
      modifies reader, reader.conn, reader.pool, Buffers()
      ensures Valid()
      ensures match Parse(WORKER, old(reader.Pending()))
              case Body(body, rest) =>
                && reader.Pending() == rest
                && (session.cipher.Plain? ==> res == Ok(body))
                && (session.cipher.Aes? ==>
                      match session.cipher.dec(body)
                      case Some(packet) => res == Ok(packet)
                      case None => res == Err(CryptoFailed))
              case BadLength => res == Err(LengthRefused)
              case Truncated => res.Err? && res.error.ReadFailed?
      ensures forall b :: b in Buffers() ==> b in old(Buffers()) || fresh(b)
    {
      var body := ReadBody();
      if body.Err? {
        return body;
      }
      return Opened(session.cipher.Decrypt(body.value));
    }

    /**
     Encrypts and frames one packet. `fail` is where the connection broke, if it did: then
     only that many bytes of the frame are on the wire.
     */
    method Write(pack: seq<byte>, fail: Option<nat>) returns (err: Option<WorkerError>)
      modifies this`sent
      ensures session.cipher.Plain? ==> Framed(pack, fail, err, old(sent), sent)
      ensures session.cipher.Aes? ==>
                match session.cipher.enc(pack)
                case None => err == Some(CryptoFailed) && sent == old(sent)
                case Some(body) => Framed(body, fail, err, old(sent), sent)
    {
      var body := session.cipher.Encrypt(pack);
      if body.None? {
        return Some(CryptoFailed);
      }
      var buf := BigEndian32(|body.value|);
      buf := buf + body.value;
      if fail.Some? && fail.value < |buf| {
        sent := sent + buf[..fail.value];
        return Some(WriteFailed);
      }
      sent := sent + buf;
      return None;
    }

    /** The frame of `body` is on the wire, or the part of it that got out before the connection broke. */
    static ghost predicate Framed(body: seq<byte>, fail: Option<nat>, err: Option<WorkerError>, before: seq<byte>, after: seq<byte>) {
      if fail.Some? && fail.value < |Frame(body)|
      then err == Some(WriteFailed) && after == before + Frame(body)[..fail.value]
      else err == None && after == before + Frame(body)
    }

    /** The part of `Auth` that numbers packets: a new session, and the reply that announces it. */
    method Auth(input: seq<byte>) returns (out: Option<seq<byte>>, ss: Session)
      ensures fresh(ss)
      ensures out.Some? ==>
                && svc.authenticate(input) == Some((ss.uid, ss.cipher))
                && out == svc.reply(1, 2) && ss.csIndex == 1 && ss.scIndex == 2
      ensures out.None? <==> svc.authenticate(input).None? || svc.reply(1, 2).None?
    {
      var who := svc.authenticate(input);
      if who.None? {
        ss := new Session(0, Plain);
        return None, ss;
      }
      ss := new Session(who.value.0, who.value.1);
      var startIndex := ss.IncreaseCSIndex();
      var index := ss.IncreaseSCIndex();
      out := svc.reply(startIndex, index);
    }

    /** Authenticates, replies in the old session's cipher, then switches to the new session. */
    method Greet(hello: seq<byte>, fail: Option<nat>) returns (err: Option<WorkerError>)
      requires session.cipher.Plain?
      modifies this`session, this`sent
      ensures err.None? <==>
              && svc.authenticate(hello).Some? && svc.reply(1, 2).Some?
              && !(fail.Some? && fail.value < |Frame(svc.reply(1, 2).value)|)
      ensures err.None? ==> sent == old(sent) + Frame(svc.reply(1, 2).value)
      ensures sent == old(sent) + ReplyBytes(svc, hello, fail)
      ensures err.Some? ==> session == old(session)
      ensures err.None? ==>
                && fresh(session) && session.csIndex == 1 && session.scIndex == 2
                && svc.authenticate(hello) == Some((session.uid, session.cipher))
    {
      var out, ss := Auth(hello);
      if out.None? {
        return Some(ServiceFailed);
      }
      err := Write(out.value, fail);
      if err.None? {
        session := ss;
      }
    }

    /**
     The handshake: the first packet is read and the reply written in
     the clear, and only then does the session take over. The reply announces index 1 for
     the client's next packet and itself carries server index 2.
     */
    method Handshake(fail: Option<nat>) returns (err: Option<WorkerError>)
      requires Valid() && session.cipher.Plain?
      modifies this`session, this`sent, reader, reader.conn, reader.pool, Buffers()
      ensures Valid()
      ensures match Parse(WORKER, old(reader.Pending()))
              case Body(hello, rest) =>
                && (err.None? <==> Greets(svc, hello, fail))
                && sent == old(sent) + ReplyBytes(svc, hello, fail)
                && reader.Pending() == rest
                && (err.None? ==> NewSession(svc, hello, session))
              case BadLength => err == Some(LengthRefused) && sent == old(sent)
              case Truncated => err.Some? && err.value.ReadFailed? && sent == old(sent)
      ensures if err.None? then fresh(session) else session == old(session)
      ensures forall b :: b in Buffers() ==> b in old(Buffers()) || fresh(b)
    {
      var hello := Read();
      if hello.Err? {
        return Some(hello.error);
      }
      err := Greet(hello.value, fail);
    }

    /** `handle`: index check, decompression, object default, then the tunnel. */
    method Handle(input: seq<byte>, tunnels: Tunnels) returns (res: Result<Delivery, WorkerError>)
      modifies session`csIndex
      ensures res.Ok? <==>
              && svc.unmarshal(input).Some?
              && var p := svc.unmarshal(input).value;
              var obj := if p.obj == 0 then session.uid else p.obj;
              var data := if p.compress then svc.decompress(p.data) else Some(p.data);
              && (session.cipher.Aes? ==> p.index == old(session.csIndex))
              && data.Some? && tunnels.find(p.mod, obj).Some?
              && tunnels.accepts(tunnels.find(p.mod, obj).value, Packet(p.index, p.mod, p.num, obj, p.compress, data.value))
      ensures res.Ok? ==>
                var p, d := svc.unmarshal(input).value, res.value;
                && d.packet.obj == (if p.obj != 0 then p.obj else session.uid)
                && (if p.compress then Some(d.packet.data) == svc.decompress(p.data) else d.packet.data == p.data)
                && d.packet.index == p.index && d.packet.mod == p.mod && d.packet.num == p.num
                && tunnels.find(p.mod, d.packet.obj) == Some(d.tunnel) && tunnels.accepts(d.tunnel, d.packet)
      ensures res.Err? ==> res.error == ServiceFailed
      ensures res.Ok? <==> Admits(svc, session, tunnels, old(session.csIndex), input)
      ensures res.Ok? ==> Taken(svc, session.uid, tunnels, input) == Some(res.value)
      ensures session.csIndex == old(session.csIndex) +
                                 if session.cipher.Aes? && svc.unmarshal(input).Some? && svc.unmarshal(input).value.index == old(session.csIndex)
                                 then 1 else 0
    {
      var p := svc.unmarshal(input);
      if p.None? {
        return Err(ServiceFailed);
      }
      var packet := p.value;
      if session.cipher.Aes? {
        if session.csIndex != packet.index {
          return Err(ServiceFailed);
        }
        var _ := session.IncreaseCSIndex();
      }
      if packet.compress {
        var data := svc.decompress(packet.data);
        if data.None? {
          return Err(ServiceFailed);
        }
        packet := packet.(data := data.value);
      }
      if packet.obj == 0 {
        packet := packet.(obj := session.uid);
      }
      var t := tunnels.find(packet.mod, packet.obj);
      if t.None? {
        return Err(ServiceFailed);
      }
      if !tunnels.accepts(t.value, packet) {
        return Err(ServiceFailed);
      }
      return Ok(Delivery(t.value, packet));
    }

    /** `readPack`: read one packet and handle it. */
    method ReadPack(tunnels: Tunnels) returns (res: Result<Delivery, WorkerError>)
      requires Valid()
      modifies session`csIndex, reader, reader.conn, reader.pool, Buffers()
      ensures Valid()
      ensures forall b :: b in Buffers() ==> b in old(Buffers()) || fresh(b)
      ensures PackRead(svc, session, tunnels, old(session.csIndex), session.csIndex,
                       old(reader.Pending()), reader.Pending(), res)
    {
      var input := Read();
      if input.Err? {
        return Err(input.error);
      }
      res := Handle(input.value, tunnels);
    }

    /** One round of the loop: one more packet is forwarded, or the loop ends here. */
    method ForwardNext(ghost run: Run, ghost frames: seq<seq<byte>>, ghost forwarded: seq<Delivery>, tunnels: Tunnels)
      returns (res: Result<Delivery, WorkerError>)
      requires Valid() && run.svc == svc && run.ss == session
      requires !run.told(|forwarded|) && run.tunnels(|forwarded|) == tunnels
      requires Progress(run, frames, forwarded, session.csIndex, reader.Pending())
      modifies session`csIndex, reader, reader.conn, reader.pool, Buffers()
      ensures Valid()
      ensures forall b :: b in Buffers() ==> b in old(Buffers()) || fresh(b)
      ensures match res
              case Ok(d) =>
                && Progress(run, frames, forwarded + [d], session.csIndex, reader.Pending())
                && |reader.Pending()| < |old(reader.Pending())|
              case Err(_) => Delivered(run, frames, forwarded, session.csIndex)
    {
      res := ReadPack(tunnels);
      LoopStep(run, frames, forwarded, old(session.csIndex), session.csIndex, old(reader.Pending()), reader.Pending(), res);
    }

    /**
     `readPackLoop`. `told(k)` says whether the loop finds itself told to stop before packet `k`,
     and `tunnels(k)` are the tunnels that packet meets. The packets forwarded are, in order, the
     first packets the client sent, up to exactly the first that is not to be forwarded.
     */
    method ReadPackLoop(told: nat -> bool, tunnels: nat -> Tunnels) returns (forwarded: seq<Delivery>)
      requires Valid()
      modifies session`csIndex, reader, reader.conn, reader.pool, Buffers()
      ensures Valid() && reader.reallocs <= 3 && reader.len <= MAX_LEN
      ensures Delivered(Run(svc, session, old(session.csIndex), told, tunnels),
                        DecodeAll(WORKER, session.cipher, old(reader.Pending())), forwarded, session.csIndex)
    {
      forwarded := [];
      ghost var run := Run(svc, session, session.csIndex, told, tunnels);
      ghost var frames := DecodeAll(WORKER, session.cipher, reader.Pending());
      while true
        invariant Valid()
        invariant forall b :: b in Buffers() ==> b in old(Buffers()) || fresh(b)
        invariant Progress(run, frames, forwarded, session.csIndex, reader.Pending())
        decreases |reader.Pending()|
      {
        if told(|forwarded|) {
          ToldHere(run, frames, forwarded, session.csIndex, reader.Pending());
          return;
        }
        var res := ForwardNext(run, frames, forwarded, tunnels(|forwarded|));
        if res.Err? {
          return;
        }
        forwarded := forwarded + [res.value];
      }
    }
  }

  function Opened(packet: Option<seq<byte>>): Result<seq<byte>, WorkerError> {
    match packet
    case Some(p) => Ok(p)
    case None => Err(CryptoFailed)
  }

  /** The packet a tunnel is given for `input`, if it decodes. */
  function Prepared(svc: Service, uid: int, input: seq<byte>): Option<Packet> {
    match svc.unmarshal(input)
    case None => None
    case Some(p) =>
      var data := if p.compress then svc.decompress(p.data) else Some(p.data);
      if data.None? then None
      else Some(p.(data := data.value, obj := if p.obj == 0 then uid else p.obj))
  }

  /** The tunnel found for the prepared packet, which accepts it. */
  function Taken(svc: Service, uid: int, tunnels: Tunnels, input: seq<byte>): Option<Delivery> {
    match Prepared(svc, uid, input)
    case None => None
    case Some(p) =>
      var t := tunnels.find(p.mod, p.obj);
      if t.None? || !tunnels.accepts(t.value, p) then None else Some(Delivery(t.value, p))
  }

  /** `input` is a packet that makes an encrypted session advance its counter. */
  ghost predicate Checked(svc: Service, ss: Session, csIndex: int, input: seq<byte>) {
    ss.cipher.Aes? && svc.unmarshal(input).Some? && svc.unmarshal(input).value.index == csIndex
  }

  ghost predicate Admits(svc: Service, ss: Session, tunnels: Tunnels, csIndex: int, input: seq<byte>) {
    Taken(svc, ss.uid, tunnels, input).Some? && (ss.cipher.Aes? ==> Checked(svc, ss, csIndex, input))
  }

  /** The reply is sent and the session taken over. */
  ghost predicate Greets(svc: Service, hello: seq<byte>, fail: Option<nat>) {
    && svc.authenticate(hello).Some? && svc.reply(1, 2).Some?
    && !(fail.Some? && fail.value < |Frame(svc.reply(1, 2).value)|)
  }

  /** What the handshake puts on the wire, whether or not it succeeds. */
  ghost function ReplyBytes(svc: Service, hello: seq<byte>, fail: Option<nat>): seq<byte> {
    if svc.authenticate(hello).None? || svc.reply(1, 2).None? then []
    else if Greets(svc, hello, fail) then Frame(svc.reply(1, 2).value)
    else Frame(svc.reply(1, 2).value)[..fail.value]
  }

  /** The session of the user just authenticated: index 1 announced, index 2 used. */
  ghost predicate NewSession(svc: Service, hello: seq<byte>, ss: Session)
    reads ss
  {
    svc.authenticate(hello) == Some((ss.uid, ss.cipher)) && ss.csIndex == 1 && ss.scIndex == 2
  }

  /** The decrypted packet at the front of the stream, if there is one. */
  ghost function NextInput(cipher: Cipher, stream: seq<byte>): Option<seq<byte>> {
    match Parse(WORKER, stream)
    case Body(body, _) => if cipher.Plain? then Some(body) else cipher.dec(body)
    case _ => None
  }

  /**
   Reading and handling one packet: forwarded if and only if there is one and it is admitted. The
   counter moves on exactly if the packet carries the expected index.
   */
  ghost predicate PackRead(svc: Service, ss: Session, tunnels: Tunnels, csIndex: int, csIndex': int,
                           stream: seq<byte>, stream': seq<byte>, res: Result<Delivery, WorkerError>) {
    match NextInput(ss.cipher, stream)
    case Some(input) =>
      && (res.Ok? <==> Admits(svc, ss, tunnels, csIndex, input))
      && (res.Ok? ==> Taken(svc, ss.uid, tunnels, input) == Some(res.value))
      && csIndex' == csIndex + (if Checked(svc, ss, csIndex, input) then 1 else 0)
      && stream' == Parse(WORKER, stream).rest
    case None => res.Err? && csIndex' == csIndex
  }

  // ---------- what the read loop forwards ----------

  /** One run of the read loop: the session and its first index, and what others decide. */
  datatype Run = Run(svc: Service, ss: Session, start: int, told: nat -> bool, tunnels: nat -> Tunnels) {

    /** The index expected of packet `k`; only encrypted sessions count. */
    ghost function Expected(k: nat): int {
      if ss.cipher.Aes? then start + k else start
    }

    /** Packet `k` ends the loop: there is none, the loop is told to stop, or it is refused. */
    ghost predicate StopsAt(frames: seq<seq<byte>>, k: nat) {
      k >= |frames| || told(k) || !Admits(svc, ss, tunnels(k), Expected(k), frames[k])
    }

    /** The packet that ends the loop may still have advanced the counter. */
    ghost function CounterAfter(frames: seq<seq<byte>>, k: nat): int {
      Expected(k) + if k < |frames| && !told(k) && Checked(svc, ss, Expected(k), frames[k]) then 1 else 0
    }
  }

  /** All packets before the first that stops the loop are forwarded, and the counter has followed. */
  ghost predicate Delivered(run: Run, frames: seq<seq<byte>>, forwarded: seq<Delivery>, csIndex: int) {
    && Forwarded(run, frames, forwarded)
    && run.StopsAt(frames, |forwarded|)
    && csIndex == run.CounterAfter(frames, |forwarded|)
  }

  ghost predicate Forwarded(run: Run, frames: seq<seq<byte>>, forwarded: seq<Delivery>) {
    && |forwarded| <= |frames|
    && forall i :: 0 <= i < |forwarded| ==>
                     !run.StopsAt(frames, i) && Taken(run.svc, run.ss.uid, run.tunnels(i), frames[i]) == Some(forwarded[i])
  }

  /** Between packets: what is delivered so far, and what the stream still holds. */
  ghost predicate Progress(run: Run, frames: seq<seq<byte>>, forwarded: seq<Delivery>, csIndex: int, stream: seq<byte>) {
    && Forwarded(run, frames, forwarded)
    && csIndex == run.Expected(|forwarded|)
    && frames == frames[..|forwarded|] + DecodeAll(WORKER, run.ss.cipher, stream)
  }

  /** The stream's next packet is the next frame. */
  lemma {:induction false} NextFrame(run: Run, frames: seq<seq<byte>>, forwarded: seq<Delivery>, csIndex: int, stream: seq<byte>)
    requires Progress(run, frames, forwarded, csIndex, stream)
    ensures match NextInput(run.ss.cipher, stream)
            case None => |forwarded| == |frames|
            case Some(input) =>
              && |forwarded| < |frames| && frames[|forwarded|] == input
              && frames == frames[..|forwarded| + 1] + DecodeAll(WORKER, run.ss.cipher, Parse(WORKER, stream).rest)
  {
    if NextInput(run.ss.cipher, stream).Some? {
      OneMore(frames, |forwarded|, NextInput(run.ss.cipher, stream).value, DecodeAll(WORKER, run.ss.cipher, Parse(WORKER, stream).rest));
    }
  }

  lemma OneMore(frames: seq<seq<byte>>, k: nat, input: seq<byte>, later: seq<seq<byte>>)
    requires k <= |frames| && frames == frames[..k] + ([input] + later)
    ensures k < |frames| && frames[k] == input && frames == frames[..k + 1] + later
  {
    assert frames[..k + 1] == frames[..k] + [input];
  }

  lemma {:induction false} LoopStep(run: Run, frames: seq<seq<byte>>, forwarded: seq<Delivery>, csIndex: int, csIndex': int,
                                    stream: seq<byte>, stream': seq<byte>, res: Result<Delivery, WorkerError>)
    requires Progress(run, frames, forwarded, csIndex, stream) && !run.told(|forwarded|)
    requires PackRead(run.svc, run.ss, run.tunnels(|forwarded|), csIndex, csIndex', stream, stream', res)
    ensures res.Ok? ==> Progress(run, frames, forwarded + [res.value], csIndex', stream') && |stream'| < |stream|
    ensures res.Err? ==> Delivered(run, frames, forwarded, csIndex')
  {
    NextFrame(run, frames, forwarded, csIndex, stream);
  }

  lemma {:induction false} ToldHere(run: Run, frames: seq<seq<byte>>, forwarded: seq<Delivery>, csIndex: int, stream: seq<byte>)
    requires Progress(run, frames, forwarded, csIndex, stream) && run.told(|forwarded|)
    ensures Delivered(run, frames, forwarded, csIndex)
  {
  }

  /** On an encrypted session the packets forwarded are numbered without a gap. */
  lemma NumberedFromStart(run: Run, frames: seq<seq<byte>>, forwarded: seq<Delivery>, csIndex: int)
    requires Delivered(run, frames, forwarded, csIndex) && run.ss.cipher.Aes?
    ensures forall i :: 0 <= i < |forwarded| ==> forwarded[i].packet.index == run.start + i
    ensures run.start + |forwarded| <= csIndex <= run.start + |forwarded| + 1
    ensures IndexesAre32Bit(run.svc) && run.start <= TWO_31 ==> csIndex <= TWO_31
  {
    forall i | 0 <= i < |forwarded|
      ensures forwarded[i].packet.index == run.start + i
      ensures Checked(run.svc, run.ss, run.start + i, frames[i])
    {
      assert !run.StopsAt(frames, i);
    }
    if |forwarded| > 0 {
      assert Checked(run.svc, run.ss, run.start + |forwarded| - 1, frames[|forwarded| - 1]);
    }
  }

  /** What every packet forwarded is, and where it went. */
  lemma ForwardedAs(run: Run, frames: seq<seq<byte>>, forwarded: seq<Delivery>, i: nat)
    requires Forwarded(run, frames, forwarded) && i < |forwarded|
    ensures !run.told(i) && run.svc.unmarshal(frames[i]).Some?
    ensures var p, d, ts := run.svc.unmarshal(frames[i]).value, forwarded[i], run.tunnels(i);
            && d.packet.obj == (if p.obj != 0 then p.obj else run.ss.uid)
            && (if p.compress then Some(d.packet.data) == run.svc.decompress(p.data) else d.packet.data == p.data)
            && d.packet.index == p.index && d.packet.mod == p.mod && d.packet.num == p.num
            && (run.ss.cipher.Aes? ==> p.index == run.start + i)
            && ts.find(p.mod, d.packet.obj) == Some(d.tunnel) && ts.accepts(d.tunnel, d.packet)
  {
    assert !run.StopsAt(frames, i);
  }

  /** Why the first packet not forwarded was not. */
  lemma RefusedBecause(run: Run, frames: seq<seq<byte>>, k: nat)
    requires run.StopsAt(frames, k) && k < |frames| && !run.told(k) && run.svc.unmarshal(frames[k]).Some?
    ensures var p, ts := run.svc.unmarshal(frames[k]).value, run.tunnels(k);
            var obj := if p.obj == 0 then run.ss.uid else p.obj;
            var data := if p.compress then run.svc.decompress(p.data) else Some(p.data);
            || (run.ss.cipher.Aes? && p.index != run.start + k)
            || data.None? || ts.find(p.mod, obj).None?
            || !ts.accepts(ts.find(p.mod, obj).value, Packet(p.index, p.mod, p.num, obj, p.compress, data.value))
  {
  }

  /** Nobody tells the loop to stop, and every packet is taken and numbered as expected. */
  ghost predicate Smooth(run: Run, frames: seq<seq<byte>>) {
    forall k :: 0 <= k < |frames| ==> !run.StopsAt(frames, k)
  }

  /**
   A whole connection. If the client sent an acceptable first packet and then any packets
   sealed with the cipher it was given, then however the connection chunks those bytes, the
   tunnels are given exactly those packets, up to the first that stops the loop; all of them
   in a smooth run.
   */
  method Converse(w: Worker, fail: Option<nat>, told: nat -> bool, tunnels: nat -> Tunnels,
                  ghost hello: seq<byte>, ghost packets: seq<seq<byte>>, ghost bodies: seq<seq<byte>>)
    returns (err: Option<WorkerError>, forwarded: seq<Delivery>)
    requires w.Valid() && w.session.cipher.Plain?
    requires Accepts(WORKER, hello) && AllAccepted(WORKER, bodies)
    requires w.reader.Pending() == Frame(hello) + FrameAll(bodies)
    requires w.svc.authenticate(hello).Some? ==>
               var cipher := w.svc.authenticate(hello).value.1; cipher.Inverse() && Sealed(cipher, packets, bodies)
    modifies w, w.reader, w.reader.conn, w.reader.pool, w.Buffers()
    ensures w.Valid() && w.reader.reallocs <= 3 && w.reader.len <= MAX_LEN
    ensures err.None? <==> Greets(w.svc, hello, fail)
    ensures w.sent == old(w.sent) + ReplyBytes(w.svc, hello, fail)
    ensures err.Some? ==> forwarded == [] && w.session == old(w.session)
    ensures err.None? ==>
              var run := Run(w.svc, w.session, 1, told, tunnels);
              && w.svc.authenticate(hello) == Some((w.session.uid, w.session.cipher))
              && Delivered(run, packets, forwarded, w.session.csIndex)
              && (forall i :: 0 <= i < |forwarded| ==>
                                && !told(i) && w.svc.unmarshal(packets[i]).Some?
                                && var p, d := w.svc.unmarshal(packets[i]).value, forwarded[i];
                                && d.packet.obj == (if p.obj != 0 then p.obj else w.session.uid)
                                && (if p.compress then Some(d.packet.data) == w.svc.decompress(p.data) else d.packet.data == p.data)
                                && d.packet.index == p.index && d.packet.mod == p.mod && d.packet.num == p.num
                                && (w.session.cipher.Aes? ==> p.index == 1 + i)
                                && tunnels(i).find(p.mod, d.packet.obj) == Some(d.tunnel) && tunnels(i).accepts(d.tunnel, d.packet))
              && (|forwarded| < |packets| && !told(|forwarded|) && w.svc.unmarshal(packets[|forwarded|]).Some? ==>
                    var p, ts := w.svc.unmarshal(packets[|forwarded|]).value, tunnels(|forwarded|);
                    var obj := if p.obj == 0 then w.session.uid else p.obj;
                    var data := if p.compress then w.svc.decompress(p.data) else Some(p.data);
                    || (w.session.cipher.Aes? && p.index != 1 + |forwarded|)
                    || data.None? || ts.find(p.mod, obj).None?
                    || !ts.accepts(ts.find(p.mod, obj).value, Packet(p.index, p.mod, p.num, obj, p.compress, data.value)))
              && (Smooth(run, packets) ==> |forwarded| == |packets|)
              && (IndexesAre32Bit(w.svc) && w.session.cipher.Aes? ==> |forwarded| < TWO_31)
  {
    FrameRoundTripIff(WORKER, hello, FrameAll(bodies));
    forwarded := [];
    err := w.Handshake(fail);
    if err.None? {
      SealedDecodes(w.session.cipher, packets, bodies);
      forwarded := w.ReadPackLoop(told, tunnels);
      ghost var run := Run(w.svc, w.session, 1, told, tunnels);
      forall i | 0 <= i < |forwarded| {
        ForwardedAs(run, packets, forwarded, i);
      }
      if |forwarded| < |packets| && !told(|forwarded|) && w.svc.unmarshal(packets[|forwarded|]).Some? {
        RefusedBecause(run, packets, |forwarded|);
      }
      if w.session.cipher.Aes? {
        NumberedFromStart(Run(w.svc, w.session, 1, told, tunnels), packets, forwarded, w.session.csIndex);
      }
    }
  }

  lemma SealedDecodes(cipher: Cipher, packets: seq<seq<byte>>, bodies: seq<seq<byte>>)
    requires AllAccepted(WORKER, bodies) && cipher.Inverse() && Sealed(cipher, packets, bodies)
    ensures DecodeAll(WORKER, cipher, FrameAll(bodies)) == packets
  {
    SealedRoundTrip(WORKER, cipher, packets, bodies, []);
    assert FrameAll(bodies) + [] == FrameAll(bodies);
  }
}
