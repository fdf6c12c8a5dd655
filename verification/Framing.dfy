/**
 Packets on the wire: a 4-byte big-endian length, then the body. The gate's worker
 (pkg/net/internal/worker.go) bounds the length it accepts; the client
 (pkg/net/tcp/client/client.go) does not.
 */
module Framing {
  import opened Wrappers
  import opened Bytes

  const LEN_SIZE := 4
  const TWO_32: int := 0x1_0000_0000
  const TWO_31: int := 0x8000_0000

  /** The lengths a peer accepts. */
  datatype Limits = Limits(lo: nat, hi: nat)

  const WORKER := Limits(1, 16384)
  const CLIENT := Limits(0, 0x7FFF_FFFF)

  /** `uint32(n)` in big-endian order. */
  function BigEndian32(n: nat): (bs: seq<byte>)
    ensures |bs| == LEN_SIZE
  {
    [(n / 0x100_0000 % 256) as byte, (n / 0x1_0000 % 256) as byte, (n / 0x100 % 256) as byte, (n % 256) as byte]
  }

  /** The signed 32-bit number in four big-endian bytes. */
  function Int32At(bs: seq<byte>): (n: int)
    requires |bs| == LEN_SIZE
    ensures -TWO_31 <= n < TWO_31
  {
    var u := 0x100_0000 * bs[0] as int + 0x1_0000 * bs[1] as int + 0x100 * bs[2] as int + bs[3] as int;
    if u >= TWO_31 then u - TWO_32 else u
  }

  /** `n` cut to 32 bits and read as signed. */
  function AsInt32(n: nat): int {
    if n % TWO_32 >= TWO_31 then n % TWO_32 - TWO_32 else n % TWO_32
  }

  lemma LengthSurvives(n: nat)
    ensures Int32At(BigEndian32(n)) == AsInt32(n)
  {
    Digits(n);
  }

  lemma Digits(n: nat)
    ensures n % TWO_32 ==
            0x100_0000 * (n / 0x100_0000 % 256) + 0x1_0000 * (n / 0x1_0000 % 256) + 0x100 * (n / 0x100 % 256) + n % 256
  {
    var a := n / 0x100;
    var b := n / 0x1_0000;
    var c := n / 0x100_0000;
    assert n == 0x100 * a + n % 256;
    assert b == a / 256 && a == 256 * b + a % 256;
    assert c == b / 256 && b == 256 * c + b % 256;
    assert c == 256 * (c / 256) + c % 256;
    assert c / 256 == n / TWO_32;
  }

  /** The first byte is the most significant: larger lengths come later in the order of the bytes. */
  lemma BigEndianOrder(n: nat, m: nat) returns (k: nat)
    requires n < m < TWO_32
    ensures k < LEN_SIZE && BigEndian32(n)[..k] == BigEndian32(m)[..k] && BigEndian32(n)[k] < BigEndian32(m)[k]
  {
    Halves(n);
    Halves(m);
    if n / 0x100_0000 != m / 0x100_0000 {
      k := 0;
    } else if n / 0x1_0000 != m / 0x1_0000 {
      k := 1;
    } else if n / 0x100 != m / 0x100 {
      k := 2;
    } else {
      k := 3;
    }
  }

  lemma Halves(n: nat)
    requires n < TWO_32
    ensures n == 0x100 * (n / 0x100) + n % 256
    ensures n / 0x100 == 0x100 * (n / 0x1_0000) + n / 0x100 % 256
    ensures n / 0x1_0000 == 0x100 * (n / 0x100_0000) + n / 0x1_0000 % 256
    ensures n / 0x100_0000 == n / 0x100_0000 % 256
  {
    assert n / 0x1_0000 == n / 0x100 / 0x100;
    assert n / 0x100_0000 == n / 0x1_0000 / 0x100;
  }

  function Frame(body: seq<byte>): seq<byte> {
    BigEndian32(|body|) + body
  }

  function FrameAll(bodies: seq<seq<byte>>): seq<byte> {
    if bodies == [] then [] else Frame(bodies[0]) + FrameAll(bodies[1..])
  }

  datatype Parsed = Body(body: seq<byte>, rest: seq<byte>) | BadLength | Truncated

  /** One packet off the front of a stream. */
  function Parse(limits: Limits, stream: seq<byte>): (p: Parsed)
    ensures p.Body? ==> |p.rest| < |stream|
  {
    if |stream| < LEN_SIZE then Truncated
    else
      var n := Int32At(stream[..LEN_SIZE]);
      if n < limits.lo || n > limits.hi then BadLength
      else if |stream| < LEN_SIZE + n then Truncated
      else Body(stream[LEN_SIZE..LEN_SIZE + n], stream[LEN_SIZE + n..])
  }

  /** Reading the length and then the body is parsing the stream. */
  lemma ParseByParts(limits: Limits, stream: seq<byte>)
    requires |stream| >= LEN_SIZE && limits.lo <= Int32At(stream[..LEN_SIZE]) <= limits.hi
    ensures var n, after := Int32At(stream[..LEN_SIZE]), stream[LEN_SIZE..];
            Parse(limits, stream) == if |after| < n then Truncated else Body(after[..n], after[n..])
  {
    var n, after := Int32At(stream[..LEN_SIZE]), stream[LEN_SIZE..];
    if n <= |after| {
      assert stream[LEN_SIZE..LEN_SIZE + n] == after[..n];
      assert stream[LEN_SIZE + n..] == after[n..];
    }
  }

  ghost predicate Accepts(limits: Limits, body: seq<byte>) {
    limits.lo <= |body| <= limits.hi
  }

  lemma FrameFront(body: seq<byte>, tail: seq<byte>)
    ensures |Frame(body) + tail| == LEN_SIZE + |body| + |tail|
    ensures Int32At((Frame(body) + tail)[..LEN_SIZE]) == AsInt32(|body|)
    ensures (Frame(body) + tail)[LEN_SIZE..] == body + tail
  {
    LengthSurvives(|body|);
    assert (Frame(body) + tail)[..LEN_SIZE] == BigEndian32(|body|);
  }

  lemma ParseIff(limits: Limits, stream: seq<byte>, body: seq<byte>, tail: seq<byte>)
    requires limits.hi < TWO_31 && |stream| >= LEN_SIZE && stream[LEN_SIZE..] == body + tail
    requires Int32At(stream[..LEN_SIZE]) == AsInt32(|body|)
    ensures Parse(limits, stream) == Body(body, tail) <==> Accepts(limits, body)
  {
    if Accepts(limits, body) {
      var n := LEN_SIZE + |body|;
      assert stream[LEN_SIZE..n] == stream[LEN_SIZE..][..|body|];
      assert stream[n..] == stream[LEN_SIZE..][|body|..];
    }
  }

  /**
   A framed body is read back, with exactly the bytes after it left over, if and only if
   its length is within the reader's limits. A longer body is never read back, not even
   one whose length wraps around to a small one.
   */
  lemma FrameRoundTripIff(limits: Limits, body: seq<byte>, tail: seq<byte>)
    requires limits.hi < TWO_31
    ensures Parse(limits, Frame(body) + tail) == Body(body, tail) <==> Accepts(limits, body)
  {
    FrameFront(body, tail);
    ParseIff(limits, Frame(body) + tail, body, tail);
  }

  ghost predicate AllAccepted(limits: Limits, bodies: seq<seq<byte>>) {
    forall i :: 0 <= i < |bodies| ==> Accepts(limits, bodies[i])
  }

  lemma FrameAllSplit(bodies: seq<seq<byte>>, tail: seq<byte>)
    requires bodies != []
    ensures FrameAll(bodies) + tail == Frame(bodies[0]) + (FrameAll(bodies[1..]) + tail)
  {
  }

  lemma ConsFront(xs: seq<seq<byte>>, ys: seq<seq<byte>>)
    requires xs != []
    ensures [xs[0]] + (xs[1..] + ys) == xs + ys
  {
  }

  lemma {:induction false} FrameAllSnoc(bodies: seq<seq<byte>>, body: seq<byte>)
    ensures FrameAll(bodies + [body]) == FrameAll(bodies) + Frame(body)
    decreases |bodies|
  {
    if bodies == [] {
      assert (bodies + [body])[1..] == [];
    } else {
      assert (bodies + [body])[1..] == bodies[1..] + [body];
      FrameAllSnoc(bodies[1..], body);
    }
  }

  // ---------- encryption, as an abstract pair ----------

  /** A session's cipher; both directions may fail. */
  datatype Cipher = Plain | Aes(enc: seq<byte> -> Option<seq<byte>>, dec: seq<byte> -> Option<seq<byte>>) {

    function Encrypt(data: seq<byte>): Option<seq<byte>> {
      if Plain? then Some(data) else enc(data)
    }

    function Decrypt(data: seq<byte>): Option<seq<byte>> {
      if Plain? then Some(data) else dec(data)
    }

    /** The one law assumed of the library: decryption undoes encryption. */
    ghost predicate Inverse() {
      Aes? ==> forall x :: enc(x).Some? ==> dec(enc(x).value) == Some(x)
    }
  }

  /** The packets a peer reads from a stream before its first error. */
  function DecodeAll(limits: Limits, cipher: Cipher, stream: seq<byte>): seq<seq<byte>>
    decreases |stream|
  {
    match Parse(limits, stream)
    case Body(body, rest) =>
      (match cipher.Decrypt(body)
       case Some(packet) => [packet] + DecodeAll(limits, cipher, rest)
       case None => [])
    case _ => []
  }

  /** What the sender writes: each packet as it is, or encrypted if the session has keys. */
  ghost predicate Sealed(cipher: Cipher, packets: seq<seq<byte>>, bodies: seq<seq<byte>>) {
    && |bodies| == |packets|
    && (cipher.Plain? ==> bodies == packets)
    && (cipher.Aes? ==> forall i :: 0 <= i < |packets| ==> cipher.enc(packets[i]) == Some(bodies[i]))
  }

  lemma DecodeAllFront(limits: Limits, cipher: Cipher, packet: seq<byte>, body: seq<byte>, rest: seq<byte>)
    requires limits.hi < TWO_31 && Accepts(limits, body)
    requires cipher.Inverse() && cipher.Encrypt(packet) == Some(body)
    ensures DecodeAll(limits, cipher, Frame(body) + rest) == [packet] + DecodeAll(limits, cipher, rest)
  {
    FrameRoundTripIff(limits, body, rest);
  }

  /** The reader gets exactly the packets that were sealed, in order. */
  lemma {:induction false} SealedRoundTrip(limits: Limits, cipher: Cipher, packets: seq<seq<byte>>,
                                           bodies: seq<seq<byte>>, tail: seq<byte>)
    requires limits.hi < TWO_31 && AllAccepted(limits, bodies)
    requires cipher.Inverse() && Sealed(cipher, packets, bodies)
    ensures DecodeAll(limits, cipher, FrameAll(bodies) + tail) == packets + DecodeAll(limits, cipher, tail)
    decreases |packets|
  {
    if packets == [] {
      assert FrameAll(bodies) + tail == tail;
    } else {
      FrameAllSplit(bodies, tail);
      DecodeAllFront(limits, cipher, packets[0], bodies[0], FrameAll(bodies[1..]) + tail);
      SealedRoundTrip(limits, cipher, packets[1..], bodies[1..], tail);
      ConsFront(packets, DecodeAll(limits, cipher, tail));
    }
  }

  /** One packet read from a shorter stream is read the same from a longer one. */
  lemma ParseExtends(limits: Limits, stream: seq<byte>, more: seq<byte>)
    requires Parse(limits, stream).Body?
    ensures Parse(limits, stream + more) == Body(Parse(limits, stream).body, Parse(limits, stream).rest + more)
  {
    var n := LEN_SIZE + |Parse(limits, stream).body|;
    assert (stream + more)[..LEN_SIZE] == stream[..LEN_SIZE];
    assert (stream + more)[LEN_SIZE..n] == stream[LEN_SIZE..n];
    assert (stream + more)[n..] == stream[n..] + more;
  }

  /** Bytes that arrive later never change the packets already read. */
  lemma {:induction false} DecodeExtends(limits: Limits, cipher: Cipher, stream: seq<byte>, more: seq<byte>)
    ensures DecodeAll(limits, cipher, stream) <= DecodeAll(limits, cipher, stream + more)
    decreases |stream|
  {
    var p := Parse(limits, stream);
    if p.Body? && cipher.Decrypt(p.body).Some? {
      ParseExtends(limits, stream, more);
      DecodeExtends(limits, cipher, p.rest, more);
    }
  }

  /** A stream of sealed packets cut at any byte decodes to a prefix of the packets. */
  lemma CutStreamDecodes(limits: Limits, cipher: Cipher, packets: seq<seq<byte>>, bodies: seq<seq<byte>>, n: nat)
    requires limits.hi < TWO_31 && AllAccepted(limits, bodies) && n <= |FrameAll(bodies)|
    requires cipher.Inverse() && Sealed(cipher, packets, bodies)
    ensures DecodeAll(limits, cipher, FrameAll(bodies)[..n]) <= packets
  {
    var wire := FrameAll(bodies);
    SealedRoundTrip(limits, cipher, packets, bodies, []);
    DecodeExtends(limits, cipher, wire[..n], wire[n..]);
    assert wire[..n] + wire[n..] == wire + [];
  }
}
