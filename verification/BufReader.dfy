/**
 The buffered reader (pkg/net/internal/bufreader/reader.go) over a connection that delivers
 its bytes in arbitrary chunks.
 */
module BufReader {
  import opened Wrappers
  import opened Bytes
  import opened PowerOfTwo
  import opened Recycling
  import opened SlabPool

  datatype Error = Closed | BadSize | EOF | UnexpectedEOF | ShortBuffer | ConnFailed

  /**
   The reading side of a connection: the bytes still to come, and how many of them each `Read`
   delivers at most (all there are once `sizes` is used up); then an error.
   */
  class Conn {
    var data: seq<byte>
    var sizes: seq<nat>
    const end: Error

    constructor (data: seq<byte>, sizes: seq<nat>, end: Error)
      ensures this.data == data && this.sizes == sizes && this.end == end
    {
      this.data := data;
      this.sizes := sizes;
      this.end := end;
    }

    /** One `Read` into `p[lo..hi]`: the next bytes, as many as arrive together and fit. */
    method Read(p: array<byte>, lo: nat, hi: nat) returns (n: nat, err: Option<Error>)
      requires lo < hi <= p.Length
      modifies this, p
      ensures n <= hi - lo && n <= |old(data)|
      ensures p[lo..lo + n] == old(data)[..n] && data == old(data)[n..]
      ensures p[..lo] == old(p[..lo])
      ensures err == if old(data) == [] && old(sizes) == [] then Some(end) else None
      ensures err.None? ==> |sizes| + |data| < old(|sizes| + |data|)
      ensures err.Some? ==> n == 0 && unchanged(this)
    {
      if data == [] && sizes == [] {
        return 0, Some(end);
      }
      n := if |data| <= hi - lo then |data| else hi - lo;
      if sizes != [] {
        n := if n <= sizes[0] then n else sizes[0];
        sizes := sizes[1..];
      }
      forall i | 0 <= i < n {
        p[lo + i] := data[i];
      }
      data := data[n..];
      err := None;
    }
  }

  /** The error `io.ReadAtLeast` reports when the connection ends after `n` bytes. */
  function EndError(end: Error, n: nat): Error {
    if n > 0 && end == EOF then UnexpectedEOF else end
  }

  /** A read behind what was read before. */
  lemma ReadMore(before: seq<byte>, after: seq<byte>, bytes: seq<byte>, lo: nat, n: nat, m: nat)
    requires lo + n + m <= |before| == |after| && n + m <= |bytes|
    requires before[lo..lo + n] == bytes[..n]
    requires after[..lo + n] == before[..lo + n] && after[lo + n..lo + n + m] == bytes[n..][..m]
    ensures after[..lo] == before[..lo] && after[lo..lo + n + m] == bytes[..n + m]
    ensures bytes[n..][m..] == bytes[n + m..]
  {
    assert after[..lo] == after[..lo + n][..lo];
    assert after[lo..lo + n] == after[..lo + n][lo..] == before[..lo + n][lo..] == before[lo..lo + n];
    assert after[lo..lo + n + m] == after[lo..lo + n] + after[lo + n..lo + n + m];
    assert bytes[..n + m] == bytes[..n] + bytes[n..][..m];
  }

  /** `io.ReadAtLeast` into `p[lo..hi]`. */
  method ReadAtLeast(conn: Conn, p: array<byte>, lo: nat, hi: nat, atLeast: nat) returns (n: nat, err: Option<Error>)
    requires lo <= hi <= p.Length
    modifies conn, p
    ensures p[..lo] == old(p[..lo])
    ensures err.None? <==> atLeast <= hi - lo && atLeast <= |old(conn.data)|
    ensures err.None? ==>
              && atLeast <= n <= hi - lo && n <= |old(conn.data)|
              && p[lo..lo + n] == old(conn.data)[..n]
              && conn.data == old(conn.data)[n..]
    ensures hi - lo < atLeast ==> err == Some(ShortBuffer) && conn.data == old(conn.data)
    ensures err.Some? && atLeast <= hi - lo ==>
              err.value == EndError(conn.end, |old(conn.data)|) && conn.data == []
  {
    if hi - lo < atLeast {
      return 0, Some(ShortBuffer);
    }
    n, err := 0, None;
    ghost var bytes := conn.data;
    while n < atLeast && err.None?
      invariant n <= hi - lo && n <= |bytes|
      invariant p[..lo] == old(p[..lo])
      invariant p[lo..lo + n] == bytes[..n] && conn.data == bytes[n..]
      invariant err.Some? ==> err.value == conn.end && n == |bytes|
      decreases |conn.sizes| + |conn.data|, err.None?
    {
      ghost var before := p[..];
      var m;
      m, err := conn.Read(p, lo + n, hi);
      ReadMore(before, p[..], bytes, lo, n, m);
      n := n + m;
    }
    if n >= atLeast {
      err := None;
    } else {
      err := Some(EndError(err.value, n));
    }
  }

  /** A pool that readers can share: no request a reader makes can clash with another. */
  ghost predicate ServesReaders(pool: SyncPool) {
    NoClash(pool.slab, pool.sizes) && forall s :: IsPow2(s) ==> s in pool.sizes
  }

  /** The bytes from `r` to `w`: the slice `all[r..w]`. */
  ghost function Between(all: seq<byte>, r: nat, w: nat): (s: seq<byte>)
    requires r <= w <= |all|
    ensures |s| == w - r
  {
    if r == w then [] else Between(all, r, w - 1) + [all[w - 1]]
  }

  lemma {:induction false} BetweenIsSlice(all: seq<byte>, r: nat, w: nat)
    requires r <= w <= |all|
    ensures Between(all, r, w) == all[r..w]
  {
    if r < w {
      BetweenIsSlice(all, r, w - 1);
      assert all[r..w] == all[r..w - 1] + [all[w - 1]];
    }
  }

  lemma {:induction false} BetweenOfPrefix(before: seq<byte>, after: seq<byte>, r: nat, w: nat)
    requires r <= w <= |before| == |after| && before[..w] == after[..w]
    ensures Between(before, r, w) == Between(after, r, w)
  {
    BetweenIsSlice(before, r, w);
    BetweenIsSlice(after, r, w);
    assert before[r..w] == before[..w][r..] == after[..w][r..] == after[r..w];
  }

  lemma {:induction false} Appended(all: seq<byte>, r: nat, w: nat, n: nat, stream: seq<byte>)
    requires r <= w && w + n <= |all| && n <= |stream| && all[w..w + n] == stream[..n]
    ensures Between(all, r, w + n) + stream[n..] == Between(all, r, w) + stream
  {
    BetweenIsSlice(all, r, w);
    BetweenIsSlice(all, r, w + n);
    assert all[r..w + n] == all[r..w] + all[w..w + n];
    assert stream == stream[..n] + stream[n..];
  }

  lemma {:induction false} Moved(before: seq<byte>, after: seq<byte>, r: nat, w: nat)
    requires r <= w <= |before| && w - r <= |after|
    requires forall i :: 0 <= i < w - r ==> after[i] == before[r + i]
    ensures Between(after, 0, w - r) == Between(before, r, w)
  {
    BetweenIsSlice(before, r, w);
    BetweenIsSlice(after, 0, w - r);
  }

  /** `copy(buf, buf[r:w])`: the ranges may overlap. */
  method MoveDown(buf: array<byte>, r: nat, w: nat)
    requires r <= w <= buf.Length
    modifies buf
    ensures Between(buf[..], 0, w - r) == old(Between(buf[..], r, w))
  {
    forall i | 0 <= i < w - r {
      buf[i] := buf[r + i];
    }
    Moved(old(buf[..]), buf[..], r, w);
  }

  /** Taking from the buffered part is taking from the front of everything pending. */
  lemma {:induction false} TakeFront(all: seq<byte>, r: nat, w: nat, n: nat, stream: seq<byte>)
    requires r + n <= w <= |all|
    ensures (Between(all, r, w) + stream)[..n] == all[r..r + n]
    ensures (Between(all, r, w) + stream)[n..] == Between(all, r + n, w) + stream
  {
    BetweenIsSlice(all, r, w);
    BetweenIsSlice(all, r + n, w);
    assert all[r..w] == all[r..r + n] + all[r + n..w];
    assert all[r..w] + stream == all[r..r + n] + (all[r + n..w] + stream);
  }

  class Reader {
    const pool: SyncPool
    const conn: Conn
    /** The slice `buf[..len]`; a nil slice is an empty one. */
    var buf: array<byte>
    var len: nat
    var w: nat
    var r: nat
    var cleanedUp: bool
    ghost var reallocs: nat
    /** Every buffer the pool ever handed to this reader. */
    ghost var held: set<array<byte>>

    ghost predicate Valid()
      reads this, pool
    {
      pool.Valid() && ServesReaders(pool) && Own()
    }

    /** The reader's own part of the invariant. */
    ghost predicate Own()
      reads this, pool
    {
      && r <= w <= len <= buf.Length
      && buf !in pool.free
      && (!cleanedUp ==> pool.Served(buf) && buf in held)
      && (cleanedUp ==> len == 0)
    }

    /** The bytes read from the connection and not yet handed out. */
    ghost function Buffered(): seq<byte>
      requires r <= w <= buf.Length
      reads this, buf
    {
      Between(buf[..], r, w)
    }

    /**
     What is still to be read: the buffered bytes, then those on the connection. Nothing can
     be read from a closed reader.
     */
    ghost function Pending(): seq<byte>
      requires Valid()
      reads this, pool, buf, conn
    {
      if cleanedUp then [] else Buffered() + conn.data
    }

    constructor (pool: SyncPool, conn: Conn, initialSize: int, reuse: array?<byte>)
      requires pool.Valid() && ServesReaders(pool) && initialSize in pool.sizes
      modifies pool`classes, pool`free
      ensures Valid() && !cleanedUp && this.pool == pool && this.conn == conn
      ensures len == (if initialSize <= 0 then 0 else initialSize) && r == w == 0 && reallocs == 0
      ensures (fresh(buf) || buf in old(pool.free)) && held == {buf}
      ensures pool.free == old(pool.free) - {buf}
      ensures Pending() == conn.data
    {
      var mem := pool.Alloc(initialSize, reuse);
      buf := mem.value;
      len := if initialSize <= 0 then 0 else initialSize;
      this.pool, this.conn := pool, conn;
      w, r, cleanedUp, reallocs, held := 0, 0, false, 0, {buf};
    }

    /** Fills the buffer from the connection, behind what is buffered. */
    method FillAtLeast(bytes: nat) returns (err: Option<Error>)
      requires Valid() && !cleanedUp
      modifies this`w, buf, conn
      ensures Valid()
      ensures if bytes <= len - old(w) && bytes <= |old(conn.data)| then
                err.None? && w >= old(w) + bytes && Pending() == old(Pending())
              else
                && err.Some? && w == old(w) && Buffered() == old(Buffered())
                && if len - w < bytes then err.value == ShortBuffer && conn.data == old(conn.data)
                   else err.value == EndError(conn.end, |old(conn.data)|) && conn.data == []
      ensures |conn.data| <= |old(conn.data)|
    {
      var n;
      ghost var unread, stream := Buffered(), conn.data;
      n, err := ReadAtLeast(conn, buf, w, len, bytes);
      BetweenOfPrefix(old(buf[..]), buf[..], r, w);
      assert Buffered() == unread;
      if err.None? {
        Appended(buf[..], r, w, n, stream);
        w := w + n;
      }
    }

    /** Makes room at the front: moves the unread bytes down within the buffer. */
    method Compact()
      requires Valid() && !cleanedUp
      modifies this`w, this`r, buf
      ensures Valid() && r == 0 && w == old(w - r)
      ensures Pending() == old(Pending()) && Buffered() == old(Buffered())
    {
      MoveDown(buf, r, w);
      w := w - r;
      r := 0;
    }

    /** Moves the unread bytes to a buffer from the pool and recycles the old one. */
    method Grow(newSize: int, reuse: array?<byte>)
      requires Valid() && !cleanedUp && IsPow2(newSize) && w - r <= newSize
      modifies this`buf, this`len, this`w, this`r, this`reallocs, this`held, pool`classes, pool`free, pool.free
      ensures Valid() && !cleanedUp && r == 0 && w == old(w - r) && len == newSize
      ensures reallocs == old(reallocs) + 1
      ensures Pending() == old(Pending()) && Buffered() == old(Buffered())
      ensures (fresh(buf) || buf in old(pool.free)) && held == old(held) + {buf}
      ensures pool.free == old(pool.free) - {buf} + (if old(buf).Length <= pool.slab.max then {old(buf)} else {})
    {
      var mem := pool.Alloc(newSize, reuse);
      CopyTo(mem.value);
      Adopt(mem.value, newSize);
    }

    /** Copies the unread bytes to the front of another buffer. */
    method CopyTo(newBuf: array<byte>)
      requires Valid() && newBuf != buf && w - r <= newBuf.Length
      modifies newBuf
      ensures Between(newBuf[..], 0, w - r) == Buffered()
    {
      var u := w - r;
      forall i | 0 <= i < u {
        newBuf[i] := buf[r + i];
      }
      Moved(buf[..], newBuf[..], r, w);
    }

    /** Switches to a buffer that already holds the unread bytes, and frees the old one. */
    method Adopt(newBuf: array<byte>, newSize: nat)
      requires Valid() && !cleanedUp && pool.Served(newBuf) && newBuf !in pool.free && newBuf != buf
      requires w - r <= newSize <= newBuf.Length && Between(newBuf[..], 0, w - r) == Buffered()
      modifies this`buf, this`len, this`w, this`r, this`reallocs, this`held, pool`classes, pool`free
      ensures Valid() && !cleanedUp && r == 0 && w == old(w - r) && len == newSize && buf == newBuf
      ensures reallocs == old(reallocs) + 1
      ensures Buffered() == old(Buffered()) && held == old(held) + {buf}
      ensures pool.free == old(pool.free) + (if old(buf).Length <= pool.slab.max then {old(buf)} else {})
    {
      w := w - r;
      r := 0;
      pool.Free(buf);
      buf := newBuf;
      len := newSize;
      reallocs := reallocs + 1;
      held := held + {buf};
    }

    /** Leaves room for `n` more bytes than are buffered, or fails on a closed reader. */
    method MakeRoom(n: nat, reuse: array?<byte>) returns (ok: bool)
      requires Valid() && w - r < n && n + len + 128 <= TWO_62
      modifies this`buf, this`len, this`w, this`r, this`reallocs, this`held, buf, pool`classes, pool`free, pool.free
      ensures Valid() && Pending() == old(Pending()) && Buffered() == old(Buffered())
      ensures w - r == old(w - r)
      ensures ok <==> !cleanedUp
      ensures ok ==> r == 0 && n <= len
      ensures if n + old(w - r) > old(len) && !cleanedUp then
                reallocs == old(reallocs) + 1 && IsLeastPow2(n + old(w - r) + 128, len) && Exchanged()
              else
                reallocs == old(reallocs) && len == old(len) && SameBuffer()
    {
      var needed := n + (w - r);
      if needed > len {
        if cleanedUp {
          return false;
        }
        var newSize := NextPowerOfTwo(needed + 128);
        Grow(newSize, reuse);
      } else {
        Compact();
      }
      return true;
    }

    /** What is read, or which error is reported and what is lost to it. */
    twostate predicate ReadDone(n: int, new res: Result<seq<byte>, Error>)
      requires old(Valid())
      reads this, pool, buf, conn
    {
      && Valid() && cleanedUp == old(cleanedUp)
      && |conn.data| <= |old(conn.data)|
      && if n < 0 then res == Err(BadSize) && Pending() == old(Pending())
         else if n <= |old(Pending())| then
           && n <= r && res == Ok(buf[r - n..r])
           && res.value == old(Pending())[..n]
           && Pending() == old(Pending())[n..]
         else if cleanedUp then res == Err(Closed)
         else
           && res == Err(if conn.end == EOF && old(conn.data) != [] then UnexpectedEOF else conn.end)
           && Pending() == old(Buffered()) && conn.data == []
    }

    /** The old buffer went to the pool, unless it is too large for it, and another came from there. */
    twostate predicate Exchanged()
      reads this, pool
    {
      && buf != old(buf) && (fresh(buf) || buf in old(pool.free)) && held == old(held) + {buf}
      && pool.free == old(pool.free) - {buf} + (if old(buf).Length <= pool.slab.max then {old(buf)} else {})
    }

    twostate predicate SameBuffer()
      reads this, pool
    {
      buf == old(buf) && held == old(held) && pool.free == old(pool.free)
    }

    /** When the buffer is changed for a larger one, and for which. */
    twostate predicate Resized(n: int)
      reads this, pool
    {
      if n > old(w - r) && n + old(w - r) > old(len) && !cleanedUp then
        reallocs == old(reallocs) + 1 && IsLeastPow2(n + old(w - r) + 128, len) && Exchanged()
      else
        reallocs == old(reallocs) && len == old(len) && SameBuffer()
    }

    /** The part of `ReadFull` that is served from the buffer alone. */
    method Take(n: nat) returns (bytes: seq<byte>)
      requires Valid() && n <= w - r
      modifies this`r
      ensures r == old(r) + n && n <= |old(Pending())|
      ensures ReadDone(n, Ok(bytes))
    {
      bytes := buf[r..r + n];
      TakeFront(buf[..], r, w, n, conn.data);
      assert buf[..][r..r + n] == bytes;
      r := r + n;
    }

    /**
     Exactly the next `n` bytes, however they are chunked and wherever they are buffered, as a
     piece of the reader's own buffer. A failed call keeps what was buffered, but loses what it
     had already taken from the connection.
     */
    method ReadFull(n: int, reuse: array?<byte>) returns (res: Result<seq<byte>, Error>)
      requires Valid() && n + len + 128 <= TWO_62
      modifies this`buf, this`len, this`w, this`r, this`reallocs, this`held, buf, conn, pool`classes, pool`free, pool.free
      ensures ReadDone(n, res) && Resized(n)
    {
      if n < 0 {
        return Err(BadSize);
      }
      if w - r >= n {
        var bytes := Take(n);
        res := Ok(bytes);
      } else {
        res := ReadBeyond(n, reuse);
      }
    }

    /** The part of `ReadFull` that needs more than is buffered. */
    method ReadBeyond(n: nat, reuse: array?<byte>) returns (res: Result<seq<byte>, Error>)
      requires Valid() && w - r < n && n + len + 128 <= TWO_62
      modifies this`buf, this`len, this`w, this`r, this`reallocs, this`held, buf, conn, pool`classes, pool`free, pool.free
      ensures ReadDone(n, res) && Resized(n)
    {
      var ok := MakeRoom(n, reuse);
      if !ok {
        return Err(Closed);
      }
      res := FillAndTake(n);
    }

    /** With room for `n` bytes: reads what is missing and hands all of it out. */
    method FillAndTake(n: nat) returns (res: Result<seq<byte>, Error>)
      requires Valid() && !cleanedUp && r == 0 && w < n <= len
      modifies this`w, this`r, buf, conn
      ensures Valid()
      ensures res.Ok? <==> n <= |old(Pending())|
      ensures res.Ok? ==> n <= r && res.value == buf[r - n..r] == old(Pending())[..n] && Pending() == old(Pending())[n..]
      ensures res.Err? ==>
                && res.error == EndError(conn.end, |old(conn.data)|)
                && Pending() == old(Buffered()) && conn.data == []
      ensures |conn.data| <= |old(conn.data)|
    {
      var err := FillAtLeast(n - w);
      if err.Some? {
        return Err(err.value);
      }
      var bytes := Take(n);
      return Ok(bytes);
    }

    /** The next byte; fails only at the end of the stream, when closed, or with no buffer at all. */
    method ReadByte() returns (res: Result<byte, Error>)
      requires Valid()
      modifies this`w, this`r, buf, conn
      ensures Valid()
      ensures if old(Pending()) != [] && len > 0
              then res == Ok(old(Pending())[0]) && Pending() == old(Pending())[1..]
              else
                && res == Err(if cleanedUp then Closed else if len == 0 then ShortBuffer else conn.end)
                && Pending() == old(Pending())
      ensures |conn.data| <= |old(conn.data)|
    {
      if w - r > 0 {
        var b := TakeByte();
        return Ok(b);
      }
      if len - w == 0 && cleanedUp {
        return Err(Closed);
      }
      var err := Refill();
      if err.Some? {
        return Err(err.value);
      }
      var b := TakeByte();
      return Ok(b);
    }

    method TakeByte() returns (b: byte)
      requires Valid() && r < w
      modifies this`r
      ensures Valid() && old(Pending()) != [] && b == old(Pending())[0] && Pending() == old(Pending())[1..]
    {
      var bytes := Take(1);
      b := bytes[0];
    }

    /** With nothing buffered: starts over at the front if there is no room. */
    method Rewind()
      requires Valid() && !cleanedUp && r == w
      modifies this`w, this`r
      ensures Valid() && r == w && Pending() == conn.data == old(Pending()) && (len > 0 ==> w < len)
    {
      assert Buffered() == [];
      if len - w == 0 {
        // both r and w are at the final position
        r, w := 0, 0;
      }
      assert Buffered() == [];
    }

    /** With nothing buffered: reads at least a byte. */
    method Refill() returns (err: Option<Error>)
      requires Valid() && !cleanedUp && r == w
      modifies this`w, this`r, buf, conn
      ensures Valid() && Pending() == old(Pending())
      ensures if old(Pending()) != [] && len > 0 then err.None? && r < w
              else err == Some(if len == 0 then ShortBuffer else conn.end)
      ensures |conn.data| <= |old(conn.data)|
    {
      Rewind();
      err := FillAtLeast(1);
      assert err.Some? ==> Buffered() == [];
    }

    /** Gives the buffer back; a second close is refused. */
    method Close() returns (err: Option<Error>)
      requires Valid()
      modifies this`buf, this`len, this`w, this`r, this`cleanedUp, pool`classes, pool`free
      ensures Valid() && cleanedUp
      ensures err == if old(cleanedUp) then Some(Closed) else None
      ensures old(cleanedUp) ==> unchanged(this) && unchanged(pool)
      ensures !old(cleanedUp) ==> fresh(buf) && len == 0
      ensures !old(cleanedUp) ==>
                pool.free == old(pool.free) + (if old(buf).Length <= pool.slab.max then {old(buf)} else {})
    {
      if cleanedUp {
        return Some(Closed);
      }
      cleanedUp := true;
      pool.Free(buf);
      w, r, len := 0, 0, 0;
      buf := new byte[0];
      return None;
    }
  }
}
