/** The client's side of the framing (pkg/net/tcp/client/client.go): no bound on the length. */
module Clients {
  import opened Wrappers
  import opened Bytes
  import opened BufReader
  import opened Framing
  import opened SharedPool

  class Client {
    const reader: Reader
    /** The bytes written to the connection so far. */
    var sent: seq<byte>

    ghost predicate Valid()
      reads this, reader, reader.pool
    {
      reader.Valid() && reader.len <= LEN_LIMIT
    }

    ghost function Buffers(): set<array<byte>>
      reads this, reader, reader.pool
    {
      reader.pool.free + {reader.buf}
    }

    constructor (reader: Reader)
      requires reader.Valid() && reader.len <= LEN_LIMIT
      ensures Valid() && this.reader == reader && sent == []
    {
      this.reader := reader;
      sent := [];
    }

    method ReadSome(n: int) returns (res: Result<seq<byte>, Error>)
      requires Valid() && n <= CLIENT.hi
      modifies reader, reader.conn, reader.pool, Buffers()
      ensures Valid()
      ensures res.Ok? <==> 0 <= n <= |old(reader.Pending())|
      ensures res.Ok? ==> res.value == old(reader.Pending())[..n] && reader.Pending() == old(reader.Pending())[n..]
      ensures n < 0 ==> res == Err(BadSize)
      ensures forall b :: b in Buffers() ==> b in old(Buffers()) || fresh(b)
    {
      var reuse: array?<byte> := *;
      ghost var needed := n + (reader.w - reader.r);
      res := reader.ReadFull(n, reuse);
      if reader.len != old(reader.len) {
        LenLimit(needed + 128, reader.len);
      }
    }

    /** The packet length in front of the stream, whatever it is. */
    method ReadLength() returns (res: Result<int, Error>)
      requires Valid()
      modifies reader, reader.conn, reader.pool, Buffers()
      ensures Valid()
      ensures res.Ok? <==> |old(reader.Pending())| >= LEN_SIZE
      ensures res.Ok? ==>
                && res.value == Int32At(old(reader.Pending())[..LEN_SIZE])
                && reader.Pending() == old(reader.Pending())[LEN_SIZE..]
      ensures forall b :: b in Buffers() ==> b in old(Buffers()) || fresh(b)
    {
      var head := ReadSome(LEN_SIZE);
      if head.Err? {
        return Err(head.error);
      }
      return Ok(Int32At(head.value));
    }

    /** One framed packet; a negative length is refused by the reader. */
    method Read() returns (res: Result<seq<byte>, Error>)
      requires Valid()
      modifies reader, reader.conn, reader.pool, Buffers()
      ensures Valid()
      ensures match Parse(CLIENT, old(reader.Pending()))
              case Body(body, rest) => res == Ok(body) && reader.Pending() == rest
              case BadLength => res == Err(BadSize)
              case Truncated => res.Err?
      ensures forall b :: b in Buffers() ==> b in old(Buffers()) || fresh(b)
    {
      ghost var stream := reader.Pending();
      var packLen := ReadLength();
      if packLen.Err? {
        return Err(packLen.error);
      }
      if packLen.value >= 0 {
        ParseByParts(CLIENT, stream);
      }
      res := ReadSome(packLen.value);
    }

    /** Frames one packet in the clear; `fail` is where the connection broke, if it did. */
    method Write(pack: seq<byte>, fail: Option<nat>) returns (ok: bool)
      modifies this`sent
      ensures ok <==> !(fail.Some? && fail.value < |Frame(pack)|)
      ensures sent == old(sent) + if ok then Frame(pack) else Frame(pack)[..fail.value]
    {
      var buf := BigEndian32(|pack|);
      buf := buf + pack;
      if fail.Some? && fail.value < |buf| {
        sent := sent + buf[..fail.value];
        return false;
      }
      sent := sent + buf;
      return true;
    }

    /** `readPackLoop`: the packets up to the first error are those of the stream, in order. */
    method ReadPackLoop() returns (packets: seq<seq<byte>>)
      requires Valid()
      modifies reader, reader.conn, reader.pool, Buffers()
      ensures Valid() && packets == DecodeAll(CLIENT, Plain, old(reader.Pending()))
    {
      packets := [];
      ghost var all := DecodeAll(CLIENT, Plain, reader.Pending());
      while true
        invariant Valid()
        invariant forall b :: b in Buffers() ==> b in old(Buffers()) || fresh(b)
        invariant all == packets + DecodeAll(CLIENT, Plain, reader.Pending())
        decreases |reader.Pending()|
      {
        ghost var stream := reader.Pending();
        Collect(all, packets, stream);
        var pack := Read();
        if pack.Err? {
          return;
        }
        packets := packets + [pack.value];
      }
    }
  }

  /** Reading one more packet off the stream, or finding none. */
  lemma {:induction false} Collect(all: seq<seq<byte>>, packets: seq<seq<byte>>, stream: seq<byte>)
    requires all == packets + DecodeAll(CLIENT, Plain, stream)
    ensures match Parse(CLIENT, stream)
            case Body(body, rest) => all == packets + [body] + DecodeAll(CLIENT, Plain, rest)
            case _ => all == packets
  {
  }
}
