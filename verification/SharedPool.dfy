/**
 Any number of readers on one pool, in any order of calls: buffers are never shared, so each
 reader hands out its own connection's bytes and nothing else.
 */
module SharedPool {
  import opened Wrappers
  import opened Bytes
  import opened PowerOfTwo
  import opened SlabPool
  import opened BufReader

  datatype Call = Full(n: int) | Byte | Shut

  type Outcome = Result<seq<byte>, Error>

  /** Reader lengths stay far below what a 64-bit length can express. */
  const LEN_LIMIT: int := 0x2_0000_0000

  ghost predicate Separate(pool: SyncPool, readers: seq<Reader>)
    reads pool, set rd | rd in readers
  {
    && (forall i :: 0 <= i < |readers| ==> Serves(pool, readers[i]))
    && (forall i, j :: 0 <= i < j < |readers| ==> Apart(readers[i], readers[j]))
  }

  ghost predicate Serves(pool: SyncPool, rd: Reader)
    reads pool, rd
  {
    rd.pool == pool && rd.Valid() && rd.len <= LEN_LIMIT
  }

  ghost predicate Apart(a: Reader, b: Reader)
    reads a, b
  {
    a != b && a.conn != b.conn && a.buf != b.buf
  }

  /** The buffers in use: those readers hold and those in the free lists. */
  ghost function Buffers(pool: SyncPool, readers: seq<Reader>): set<array<byte>>
    reads pool, set rd | rd in readers
  {
    pool.free + set rd | rd in readers :: rd.buf
  }

  ghost predicate LengthOk(c: Call) {
    c.Full? ==> c.n <= 0x7FFF_FFFF
  }

  lemma LeastPow2Below(n: int, p: int, k: nat)
    requires IsLeastPow2(n, p) && n <= Pow2(k)
    ensures p <= Pow2(k)
  {
    assert IsPow2(Pow2(k));
  }

  lemma LenLimit(n: int, p: int)
    requires IsLeastPow2(n, p) && n <= LEN_LIMIT
    ensures p <= LEN_LIMIT
  {
    Pow2Shifts();
    Pow2Sum(32, 1, 33, 0x1_0000_0000, 2);
    LeastPow2Below(n, p, 33);
  }

  // ---------- one reader, as its caller sees it ----------

  /** What is still to be read, and what else the next answers depend on. */
  datatype State = State(rest: seq<byte>, closed: bool, empty: bool, failed: bool)

  /**
   The answer to one call and the state after it. `kept` matters only to the first read past the
   end of the stream: so many of the remaining bytes had been buffered before, and stay readable.
   */
  function Answer(s: State, end: Error, call: Call, kept: nat): (Outcome, State) {
    match call
    case Full(n) =>
      if n < 0 then (Err(BadSize), s)
      else if s.closed then (if n == 0 then Ok([]) else Err(Closed), s)
      else if n <= |s.rest| then (Ok(s.rest[..n]), s.(rest := s.rest[n..], empty := s.empty && n == 0))
      else
        var k := if s.failed || kept > |s.rest| then |s.rest| else kept;
        (Err(EndError(end, |s.rest| - k)), s.(rest := s.rest[..k], failed := true, empty := false))
    case Byte =>
      if s.closed then (Err(Closed), s)
      else if s.empty then (Err(ShortBuffer), s)
      else if s.rest == [] then (Err(end), s)
      else (Ok([s.rest[0]]), s.(rest := s.rest[1..]))
    case Shut => (if s.closed then Err(Closed) else Ok([]), s.(rest := [], closed := true))
  }

  /** The answers to a sequence of calls, and the state after them. */
  function Play(s: State, end: Error, calls: seq<Call>, kept: nat): (seq<Outcome>, State) {
    if calls == [] then ([], s)
    else
      var before := Play(s, end, calls[..|calls| - 1], kept);
      var last := Answer(before.1, end, calls[|calls| - 1], kept);
      (before.0 + [last.0], last.1)
  }

  /** The calls of a schedule that go to reader `j`. */
  function CallsOf(schedule: seq<(nat, Call)>, j: nat): seq<Call> {
    if schedule == [] then []
    else
      var before, last := CallsOf(schedule[..|schedule| - 1], j), schedule[|schedule| - 1];
      if last.0 == j then before + [last.1] else before
  }

  lemma {:induction false} PlayNext(s: State, end: Error, calls: seq<Call>, call: Call, kept: nat)
    ensures var before := Play(s, end, calls, kept);
            var last := Answer(before.1, end, call, kept);
            Play(s, end, calls + [call], kept) == (before.0 + [last.0], last.1)
  {
    assert (calls + [call])[..|calls|] == calls;
  }

  lemma {:induction false} CallsOfNext(schedule: seq<(nat, Call)>, t: nat, j: nat)
    requires t < |schedule|
    ensures CallsOf(schedule[..t + 1], j) ==
            CallsOf(schedule[..t], j) + if schedule[t].0 == j then [schedule[t].1] else []
  {
    assert schedule[..t + 1][..t] == schedule[..t];
  }

  /** Until a read goes past the end, the answers depend on the stream and the calls alone. */
  lemma {:induction false} ChunkingIrrelevant(s: State, end: Error, calls: seq<Call>, kept: nat, kept': nat)
    requires !Play(s, end, calls, kept).1.failed
    ensures Play(s, end, calls, kept') == Play(s, end, calls, kept)
    decreases |calls|
  {
    if calls != [] {
      ChunkingIrrelevant(s, end, calls[..|calls| - 1], kept, kept');
    }
  }

  /** The bytes handed out, in order. */
  function HandedOut(answers: seq<Outcome>): seq<byte> {
    if answers == [] then []
    else
      var last := answers[|answers| - 1];
      HandedOut(answers[..|answers| - 1]) + if last.Ok? then last.value else []
  }

  lemma {:induction false} HandedOutNext(answers: seq<Outcome>, last: Outcome)
    ensures HandedOut(answers + [last]) == HandedOut(answers) + if last.Ok? then last.value else []
  {
    assert (answers + [last])[..|answers|] == answers;
  }

  lemma PrefixStep(stream: seq<byte>, before: seq<byte>, pending: seq<byte>, got: seq<byte>, rest: seq<byte>)
    requires before + pending <= stream
    requires got + rest <= pending
    ensures before + got + rest <= stream
    ensures before + pending == stream && got + rest == pending ==> before + got + rest == stream
  {
    assert stream == before + pending + stream[|before| + |pending|..];
    assert pending == got + rest + pending[|got + rest|..];
  }

  /** One answer hands out the front of what remains, and keeps the rest unless it fails or closes. */
  lemma AnswerConserves(s: State, end: Error, call: Call, kept: nat)
    ensures var a := Answer(s, end, call, kept);
            var got := if a.0.Ok? then a.0.value else [];
            && got + a.1.rest <= s.rest
            && (!a.1.closed && !a.1.failed ==> !s.closed && !s.failed && got + a.1.rest == s.rest)
  {
  }

  /**
   What was handed out and what remains are a prefix of the stream, and all of it while the
   reader is open and no read went past the end.
   */
  lemma {:induction false} PlayConserves(s: State, end: Error, calls: seq<Call>, kept: nat)
    ensures var p := Play(s, end, calls, kept);
            && HandedOut(p.0) + p.1.rest <= s.rest
            && (!p.1.closed && !p.1.failed ==> HandedOut(p.0) + p.1.rest == s.rest)
    decreases |calls|
  {
    if calls == [] {
      assert [] + s.rest == s.rest;
    } else {
      var before := Play(s, end, calls[..|calls| - 1], kept);
      var last := Answer(before.1, end, calls[|calls| - 1], kept);
      PlayConserves(s, end, calls[..|calls| - 1], kept);
      AnswerConserves(before.1, end, calls[|calls| - 1], kept);
      HandedOutNext(before.0, last.0);
      PrefixStep(s.rest, HandedOut(before.0), before.1.rest, if last.0.Ok? then last.0.value else [], last.1.rest);
    }
  }

  // ---------- one reader ----------

  /** The reader is in state `s`. */
  ghost predicate Matches(rd: Reader, s: State)
    reads rd, rd.pool, rd.buf, rd.conn
  {
    && rd.Valid() && rd.len <= LEN_LIMIT
    && s.closed == rd.cleanedUp && s.rest == rd.Pending()
    && (!s.closed ==> (s.empty <==> rd.len == 0))
    && (!s.closed && s.failed ==> rd.conn.data == [])
  }

  /** `res` is the answer to the call made in state `s`, and the reader is in the state after it. */
  ghost predicate Answered(rd: Reader, s: State, call: Call, kept: nat, res: Outcome)
    reads rd, rd.pool, rd.buf, rd.conn
  {
    var a := Answer(s, rd.conn.end, call, kept);
    res == a.0 && Matches(rd, a.1)
  }

  /** The buffer an open reader holds, if the pool would take it back. */
  ghost function Holding(rd: Reader): set<array<byte>>
    reads rd
  {
    if rd.cleanedUp || rd.buf.Length > rd.pool.slab.max then {} else {rd.buf}
  }

  /**
   The buffers stay within those the reader and the pool had, and new ones; and between the two
   none is lost.
   */
  twostate predicate BuffersKept(rd: Reader)
    reads rd, rd.pool
  {
    && (rd.buf == old(rd.buf) || fresh(rd.buf) || rd.buf in old(rd.pool.free))
    && rd.pool.free <= old(rd.pool.free) + {old(rd.buf)}
    && old(rd.pool.free + Holding(rd)) <= rd.pool.free + Holding(rd)
    && old(rd.held) <= rd.held <= old(rd.held) + if rd.cleanedUp then {} else {rd.buf}
  }

  /** The outcome of a `ReadFull` of `n` bytes, given what was buffered and still on the connection. */
  ghost predicate FullOutcome(n: int, closed: bool, end: Error, buffered: seq<byte>, stream: seq<byte>, res: Outcome, rest: seq<byte>) {
    var pending := if closed then [] else buffered + stream;
    if n < 0 then res == Err(BadSize) && rest == pending
    else if n <= |pending| then res == Ok(pending[..n]) && rest == pending[n..]
    else if closed then res == Err(Closed) && rest == []
    else res == Err(EndError(end, |stream|)) && rest == buffered
  }

  lemma FullOutcomeOf(n: int, closed: bool, end: Error, buffered: seq<byte>, stream: seq<byte>, pending: seq<byte>, res: Outcome, rest: seq<byte>)
    requires pending == if closed then [] else buffered + stream
    requires res.Ok? <==> 0 <= n <= |pending|
    requires res.Ok? ==> res.value == pending[..n] && rest == pending[n..]
    requires n < 0 ==> res == Err(BadSize) && rest == pending
    requires res.Err? && n >= 0 && closed ==> res.error == Closed
    requires closed ==> rest == []
    requires res.Err? && n >= 0 && !closed ==> res.error == EndError(end, |stream|) && rest == buffered
    ensures FullOutcome(n, closed, end, buffered, stream, res, rest)
  {
  }

  lemma FullAnswer(s: State, end: Error, n: int, buffered: seq<byte>, stream: seq<byte>, res: Outcome, rest: seq<byte>)
    requires s.rest == if s.closed then [] else buffered + stream
    requires !s.closed && s.failed ==> stream == []
    requires FullOutcome(n, s.closed, end, buffered, stream, res, rest)
    ensures var a := Answer(s, end, Full(n), |buffered|);
            && a.0 == res && a.1.rest == rest && a.1.closed == s.closed
            && (!s.closed ==> a.1.empty == (s.empty && n <= 0))
            && (!s.closed && a.1.failed ==> s.failed || (res.Err? && n >= 0))
  {
    if !s.closed {
      assert s.rest[..|buffered|] == buffered;
      assert s.failed ==> s.rest == buffered;
    }
  }

  /** A read of a length that fits in 31 bits keeps the buffer's length in bounds. */
  method BoundedRead(rd: Reader, n: int) returns (res: Outcome)
    requires rd.Valid() && rd.len <= LEN_LIMIT && n <= 0x7FFF_FFFF
    modifies rd, rd.buf, rd.conn, rd.pool, rd.pool.free
    ensures rd.ReadDone(n, res) && rd.len <= LEN_LIMIT && BuffersKept(rd)
    ensures !rd.cleanedUp ==> (rd.len == 0 <==> old(rd.len) == 0 && n <= 0)
  {
    var reuse: array?<byte> := *;
    ghost var needed := n + (rd.w - rd.r);
    res := rd.ReadFull(n, reuse);
    if rd.len != old(rd.len) {
      LenLimit(needed + 128, rd.len);
    }
  }

  /** What a bounded read did, in terms of what was buffered and what was still to come. */
  method OutcomeOfRead(rd: Reader, n: int, ghost buffered: seq<byte>, ghost stream: seq<byte>) returns (res: Outcome)
    requires rd.Valid() && rd.len <= LEN_LIMIT && n <= 0x7FFF_FFFF
    requires buffered == rd.Buffered() && stream == rd.conn.data
    modifies rd, rd.buf, rd.conn, rd.pool, rd.pool.free
    ensures rd.Valid() && rd.len <= LEN_LIMIT && BuffersKept(rd) && rd.cleanedUp == old(rd.cleanedUp)
    ensures !rd.cleanedUp ==> (rd.len == 0 <==> old(rd.len) == 0 && n <= 0)
    ensures FullOutcome(n, rd.cleanedUp, rd.conn.end, buffered, stream, res, rd.Pending())
    ensures !rd.cleanedUp && (stream == [] || (res.Err? && n >= 0)) ==> rd.conn.data == []
  {
    ghost var pending := rd.Pending();
    res := BoundedRead(rd, n);
    FullOutcomeOf(n, rd.cleanedUp, rd.conn.end, buffered, stream, pending, res, rd.Pending());
  }

  method FullCall(rd: Reader, n: int, ghost s: State) returns (res: Outcome, ghost kept: nat)
    requires Matches(rd, s) && n <= 0x7FFF_FFFF
    modifies rd, rd.buf, rd.conn, rd.pool, rd.pool.free
    ensures Answered(rd, s, Full(n), kept, res) && BuffersKept(rd)
  {
    ghost var buffered, stream := rd.Buffered(), rd.conn.data;
    kept := |buffered|;
    res := OutcomeOfRead(rd, n, buffered, stream);
    FullAnswer(s, rd.conn.end, n, buffered, stream, res, rd.Pending());
  }

  method ByteCall(rd: Reader, ghost s: State) returns (res: Outcome)
    requires Matches(rd, s)
    modifies rd, rd.buf, rd.conn
    ensures Answered(rd, s, Byte, 0, res) && BuffersKept(rd)
  {
    var b := rd.ReadByte();
    res := if b.Ok? then Ok([b.value]) else Err(b.error);
  }

  method ShutCall(rd: Reader, ghost s: State) returns (res: Outcome)
    requires Matches(rd, s)
    modifies rd, rd.pool
    ensures Answered(rd, s, Shut, 0, res) && BuffersKept(rd)
  {
    var err := rd.Close();
    res := if err.None? then Ok([]) else Err(err.value);
  }

  /** One call on one reader in state `s`: its answer, and the state it leaves. */
  method One(rd: Reader, call: Call, ghost s: State) returns (res: Outcome, ghost kept: nat)
    requires Matches(rd, s) && LengthOk(call)
    modifies rd, rd.buf, rd.conn, rd.pool, rd.pool.free
    ensures Answered(rd, s, call, kept, res) && BuffersKept(rd)
  {
    kept := 0;
    match call {
      case Full(n) =>
        res, kept := FullCall(rd, n, s);
      case Byte =>
        res := ByteCall(rd, s);
      case Shut =>
        res := ShutCall(rd, s);
    }
  }

  // ---------- many readers ----------

  /** A call on `rd` changes nothing that the other readers of the pool depend on. */
  method Among(rd: Reader, call: Call, ghost s: State, ghost others: set<Reader>) returns (res: Outcome, ghost kept: nat)
    requires Matches(rd, s) && LengthOk(call)
    requires forall o :: o in others ==> Serves(rd.pool, o) && Apart(o, rd)
    modifies rd, rd.buf, rd.conn, rd.pool, rd.pool.free
    ensures Answered(rd, s, call, kept, res) && BuffersKept(rd)
    ensures forall o :: o in others ==> Serves(rd.pool, o) && Apart(o, rd)
    ensures forall o :: o in others ==> unchanged(o) && unchanged(o.buf) && unchanged(o.conn)
  {
    res, kept := One(rd, call, s);
    forall o | o in others
      ensures Serves(rd.pool, o) && Apart(o, rd)
    {
      assert old(Serves(rd.pool, o)) && old(Apart(o, rd)) && old(o.Own());
      assert unchanged(o) && o.buf !in rd.pool.free;
      assert o.Own() && rd.Valid();
    }
  }

  ghost function Others(readers: seq<Reader>, i: nat): set<Reader> {
    set j | 0 <= j < |readers| && j != i :: readers[j]
  }

  ghost predicate OthersApart(readers: seq<Reader>, i: nat)
    reads Others(readers, i)
  {
    forall a, b :: 0 <= a < b < |readers| && a != i && b != i ==> Apart(readers[a], readers[b])
  }

  ghost function OtherBuffers(readers: seq<Reader>, i: nat): set<array<byte>>
    reads Others(readers, i)
  {
    set o | o in Others(readers, i) :: o.buf
  }

  lemma BuffersSplit(pool: SyncPool, readers: seq<Reader>, i: nat)
    requires i < |readers|
    ensures Buffers(pool, readers) == pool.free + {readers[i].buf} + OtherBuffers(readers, i)
  {
    forall rd | rd in readers && rd != readers[i]
      ensures rd in Others(readers, i)
    {
    }
  }

  // ---------- where the buffers are ----------

  /** The poolable buffers in the free lists or with an open reader. */
  ghost function Stock(pool: SyncPool, readers: seq<Reader>): set<array<byte>>
    reads pool, set rd | rd in readers
  {
    pool.free + WithReaders(readers)
  }

  ghost function WithReaders(readers: seq<Reader>): set<array<byte>>
    reads set rd | rd in readers
  {
    set rd, b | rd in readers && b in Holding(rd) :: b
  }

  lemma StockWith(pool: SyncPool, readers: seq<Reader>, rd: Reader)
    ensures Stock(pool, readers + [rd]) == pool.free + WithReaders(readers) + Holding(rd)
  {
    assert (readers + [rd])[|readers|] == rd;
    forall o | o in readers
      ensures o in readers + [rd]
    {
      var j :| 0 <= j < |readers| && readers[j] == o;
      assert (readers + [rd])[j] == o;
    }
  }

  ghost function OtherStock(readers: seq<Reader>, i: nat): set<array<byte>>
    reads Others(readers, i)
  {
    set o, b | o in Others(readers, i) && b in Holding(o) :: b
  }

  lemma StockSplit(pool: SyncPool, readers: seq<Reader>, i: nat)
    requires i < |readers|
    ensures Stock(pool, readers) == pool.free + Holding(readers[i]) + OtherStock(readers, i)
  {
    forall rd | rd in readers && rd != readers[i]
      ensures rd in Others(readers, i)
    {
    }
  }

  /** No poolable buffer that was ever handed to one of the readers is lost. */
  ghost predicate NoneLost(pool: SyncPool, readers: seq<Reader>)
    reads pool, set rd | rd in readers
  {
    forall j :: 0 <= j < |readers| ==> Kept(readers[j], Stock(pool, readers))
  }

  ghost predicate Kept(rd: Reader, stock: set<array<byte>>)
    reads rd
  {
    forall b :: b in rd.held && b.Length <= rd.pool.slab.max ==> b in stock
  }

  ghost predicate HeldBy(rd: Reader, b: array<byte>)
    reads rd
  {
    !rd.cleanedUp && rd.buf == b
  }

  /** `b` is in the free lists and with no open reader, or with exactly one and not in the free lists. */
  ghost predicate InOnePlace(pool: SyncPool, readers: seq<Reader>, b: array<byte>)
    reads pool, set rd | rd in readers
  {
    if b in pool.free then forall k :: 0 <= k < |readers| ==> !HeldBy(readers[k], b)
    else exists j :: 0 <= j < |readers| && HeldBy(readers[j], b)
                     && forall k :: 0 <= k < |readers| && k != j ==> !HeldBy(readers[k], b)
  }

  lemma StockInOnePlace(pool: SyncPool, readers: seq<Reader>, b: array<byte>)
    requires Separate(pool, readers) && b in Stock(pool, readers)
    ensures InOnePlace(pool, readers, b)
  {
    forall k | 0 <= k < |readers|
      ensures HeldBy(readers[k], b) ==> b !in pool.free
    {
      assert Serves(pool, readers[k]);
    }
    if b !in pool.free {
      var j :| 0 <= j < |readers| && b in Holding(readers[j]);
      forall k | 0 <= k < |readers| && k != j
        ensures !HeldBy(readers[k], b)
      {
        assert Apart(readers[if j < k then j else k], readers[if j < k then k else j]);
      }
    }
  }

  /** The readers are separate when reader `i` is from each of the others, and they from each other. */
  lemma SeparateIff(pool: SyncPool, readers: seq<Reader>, i: nat)
    requires i < |readers|
    ensures Separate(pool, readers) <==>
            && Serves(pool, readers[i]) && OthersApart(readers, i)
            && forall o :: o in Others(readers, i) ==> Serves(pool, o) && Apart(o, readers[i])
  {
    if Separate(pool, readers) {
      forall j | 0 <= j < |readers| && j != i
        ensures Apart(readers[j], readers[i])
      {
        assert Apart(readers[if i < j then i else j], readers[if i < j then j else i]);
      }
    } else if Serves(pool, readers[i]) && OthersApart(readers, i) {
      if forall o :: o in Others(readers, i) ==> Serves(pool, o) && Apart(o, readers[i]) {
        assert forall j :: 0 <= j < |readers| && j != i ==> readers[j] in Others(readers, i);
      }
    }
  }

  /**
   A call on reader `i` answers from that reader's own state, and leaves every other reader as it
   was: its stream, its buffer and the bytes in it, to which its last answer may still refer. No
   poolable buffer is lost to the pool and its open readers.
   */
  method Turn(pool: SyncPool, readers: seq<Reader>, i: nat, call: Call, ghost s: State)
    returns (res: Outcome, ghost kept: nat)
    requires Separate(pool, readers) && i < |readers| && LengthOk(call) && Matches(readers[i], s)
    modifies readers[i], readers[i].buf, readers[i].conn, pool, pool.free
    ensures Separate(pool, readers)
    ensures forall b :: b in Buffers(pool, readers) ==> b in old(Buffers(pool, readers)) || fresh(b)
    ensures forall j :: 0 <= j < |readers| && j != i ==>
                          unchanged(readers[j]) && unchanged(readers[j].buf) && unchanged(readers[j].conn)
    ensures Answered(readers[i], s, call, kept, res)
    ensures old(Stock(pool, readers)) <= Stock(pool, readers) && BuffersKept(readers[i])
  {
    SeparateIff(pool, readers, i);
    BuffersSplit(pool, readers, i);
    StockSplit(pool, readers, i);
    res, kept := Among(readers[i], call, s, Others(readers, i));
    assert OthersApart(readers, i) && OtherBuffers(readers, i) == old(OtherBuffers(readers, i));
    assert OtherStock(readers, i) == old(OtherStock(readers, i));
    assert forall j :: 0 <= j < |readers| && j != i ==> readers[j] in Others(readers, i);
    SeparateIff(pool, readers, i);
    BuffersSplit(pool, readers, i);
    StockSplit(pool, readers, i);
  }

  lemma StillKept(rd: Reader, stock: set<array<byte>>, stock': set<array<byte>>)
    requires Kept(rd, stock) && stock <= stock'
    ensures Kept(rd, stock')
  {
  }

  /** What the reader held before is kept, and so is the buffer it holds now. */
  lemma HeldKept(rd: Reader, held: set<array<byte>>, stock: set<array<byte>>)
    requires forall b :: b in held && b.Length <= rd.pool.slab.max ==> b in stock
    requires rd.held <= held + (if rd.cleanedUp then {} else {rd.buf}) && Holding(rd) <= stock
    ensures Kept(rd, stock)
  {
  }

  method CarefulTurn(pool: SyncPool, readers: seq<Reader>, i: nat, call: Call, ghost s: State)
    returns (res: Outcome, ghost kept: nat)
    requires Separate(pool, readers) && NoneLost(pool, readers)
    requires i < |readers| && LengthOk(call) && Matches(readers[i], s)
    modifies readers[i], readers[i].buf, readers[i].conn, pool, pool.free
    ensures Separate(pool, readers) && NoneLost(pool, readers)
    ensures forall b :: b in Buffers(pool, readers) ==> b in old(Buffers(pool, readers)) || fresh(b)
    ensures forall j :: 0 <= j < |readers| && j != i ==>
                          unchanged(readers[j]) && unchanged(readers[j].buf) && unchanged(readers[j].conn)
    ensures Answered(readers[i], s, call, kept, res)
  {
    ghost var stock, held := Stock(pool, readers), readers[i].held;
    assert Kept(readers[i], stock);
    res, kept := Turn(pool, readers, i, call, s);
    StockSplit(pool, readers, i);
    forall j | 0 <= j < |readers|
      ensures Kept(readers[j], Stock(pool, readers))
    {
      if j == i {
        HeldKept(readers[i], held, Stock(pool, readers));
      } else {
        assert old(Kept(readers[j], Stock(pool, readers)));
        StillKept(readers[j], stock, Stock(pool, readers));
      }
    }
  }

  /** One more reader on the pool: still none shares a buffer with another, and none is lost. */
  method Join(pool: SyncPool, readers: seq<Reader>, conn: Conn, initialSize: int, reuse: array?<byte>)
    returns (rd: Reader)
    requires Separate(pool, readers) && NoneLost(pool, readers) && pool.Valid() && ServesReaders(pool)
    requires initialSize in pool.sizes && initialSize <= LEN_LIMIT
    requires forall j :: 0 <= j < |readers| ==> readers[j].conn != conn
    modifies pool
    ensures fresh(rd) && rd.conn == conn && rd.Valid() && Start(rd) == State(conn.data, false, initialSize <= 0, false)
    ensures Separate(pool, readers + [rd]) && NoneLost(pool, readers + [rd])
    ensures pool.free == old(pool.free) - {rd.buf}
  {
    rd := new Reader(pool, conn, initialSize, reuse);
    forall j | 0 <= j < |readers|
      ensures Serves(pool, readers[j]) && Apart(readers[j], rd)
    {
      assert old(Serves(pool, readers[j])) && old(readers[j].Own());
      assert readers[j].buf !in old(pool.free);
    }
    forall a, b | 0 <= a < b < |readers|
      ensures Apart(readers[a], readers[b])
    {
      assert old(Apart(readers[a], readers[b]));
    }
    SeparateWith(pool, readers, rd);
    StockWith(pool, readers, rd);
    assert WithReaders(readers) == old(WithReaders(readers));
    forall j | 0 <= j < |readers|
      ensures Kept(readers[j], old(Stock(pool, readers)))
    {
      assert old(Kept(readers[j], Stock(pool, readers)));
    }
    NoneLostWith(pool, readers, rd, old(Stock(pool, readers)));
  }

  lemma SeparateWith(pool: SyncPool, readers: seq<Reader>, rd: Reader)
    requires Separate(pool, readers) && Serves(pool, rd)
    requires forall j :: 0 <= j < |readers| ==> Apart(readers[j], rd)
    ensures Separate(pool, readers + [rd])
  {
  }

  lemma NoneLostWith(pool: SyncPool, readers: seq<Reader>, rd: Reader, stock: set<array<byte>>)
    requires stock <= Stock(pool, readers + [rd]) && Kept(rd, Stock(pool, readers + [rd]))
    requires forall j :: 0 <= j < |readers| ==> Kept(readers[j], stock)
    ensures NoneLost(pool, readers + [rd])
  {
  }

  /** What has happened to one reader: where it started, its calls, and what chunking decided. */
  datatype Log = Log(start: State, calls: seq<Call>, kept: nat)

  /** The reader answered as if it were alone, and is in the state that leaves. */
  ghost predicate Follows(rd: Reader, log: Log, answers: seq<Outcome>)
    reads rd, rd.pool, rd.buf, rd.conn
  {
    var p := Play(log.start, rd.conn.end, log.calls, log.kept);
    answers == p.0 && Matches(rd, p.1)
  }

  /** The log after one more call: `kept` is settled by the first read past the end. */
  ghost function Extend(log: Log, end: Error, call: Call, kept: nat): (l: Log) {
    var failed := Play(log.start, end, log.calls, log.kept).1.failed;
    Log(log.start, log.calls + [call], if failed then log.kept else kept)
  }

  lemma {:induction false} ExtendAnswers(log: Log, end: Error, call: Call, kept: nat)
    ensures var before, l := Play(log.start, end, log.calls, log.kept), Extend(log, end, call, kept);
            var last := Answer(before.1, end, call, kept);
            Play(l.start, end, l.calls, l.kept) == (before.0 + [last.0], last.1)
  {
    var l := Extend(log, end, call, kept);
    if !Play(log.start, end, log.calls, log.kept).1.failed {
      ChunkingIrrelevant(log.start, end, log.calls, log.kept, kept);
    }
    PlayNext(log.start, end, log.calls, call, l.kept);
  }

  ghost predicate AllFollow(readers: seq<Reader>, logs: seq<Log>, answers: seq<seq<Outcome>>)
    reads set rd | rd in readers, set rd | rd in readers :: rd.pool
    reads set rd | rd in readers :: rd.buf, set rd | rd in readers :: rd.conn
  {
    && |logs| == |answers| == |readers|
    && forall j :: 0 <= j < |readers| ==> Follows(readers[j], logs[j], answers[j])
  }

  method LoggedTurn(pool: SyncPool, readers: seq<Reader>, i: nat, call: Call, ghost logs: seq<Log>, answers: seq<seq<Outcome>>)
    returns (ghost logs': seq<Log>, answers': seq<seq<Outcome>>)
    requires Separate(pool, readers) && NoneLost(pool, readers)
    requires i < |readers| && LengthOk(call) && AllFollow(readers, logs, answers)
    modifies readers[i], readers[i].buf, readers[i].conn, pool, pool.free
    ensures Separate(pool, readers) && NoneLost(pool, readers) && AllFollow(readers, logs', answers')
    ensures forall b :: b in Buffers(pool, readers) ==> b in old(Buffers(pool, readers)) || fresh(b)
    ensures Extended(logs, logs', i, call)
  {
    ghost var end := readers[i].conn.end;
    ghost var kept;
    var res;
    res, kept := CarefulTurn(pool, readers, i, call, Play(logs[i].start, end, logs[i].calls, logs[i].kept).1);
    ExtendAnswers(logs[i], end, call, kept);
    logs' := logs[i := Extend(logs[i], end, call, kept)];
    ExtendOne(logs, i, end, call, kept);
    answers' := answers[i := answers[i] + [res]];
    forall j | 0 <= j < |readers|
      ensures Follows(readers[j], logs'[j], answers'[j])
    {
      if j != i {
        assert old(Follows(readers[j], logs[j], answers[j]));
        assert Serves(pool, readers[j]);
      }
    }
  }

  /** After `t` steps of the schedule each log holds its own reader's calls. */
  ghost predicate Logged(logs: seq<Log>, starts: seq<State>, schedule: seq<(nat, Call)>, t: nat)
    requires t <= |schedule|
  {
    && |logs| == |starts|
    && forall j :: 0 <= j < |logs| ==> logs[j].start == starts[j] && logs[j].calls == CallsOf(schedule[..t], j)
  }

  lemma {:induction false} LoggedNext(logs: seq<Log>, logs': seq<Log>, starts: seq<State>, schedule: seq<(nat, Call)>, t: nat)
    requires t < |schedule| && Logged(logs, starts, schedule, t) && |logs'| == |logs|
    requires Extended(logs, logs', schedule[t].0, schedule[t].1)
    ensures Logged(logs', starts, schedule, t + 1)
  {
    forall j | 0 <= j < |logs'|
      ensures logs'[j].calls == CallsOf(schedule[..t + 1], j)
    {
      CallsOfNext(schedule, t, j);
    }
  }

  /** Only log `i` has one more call. */
  ghost predicate Extended(logs: seq<Log>, logs': seq<Log>, i: nat, call: Call) {
    && |logs'| == |logs|
    && forall j :: 0 <= j < |logs| ==>
                     && logs'[j].start == logs[j].start
                     && logs'[j].calls == logs[j].calls + if j == i then [call] else []
  }

  lemma ExtendOne(logs: seq<Log>, i: nat, end: Error, call: Call, kept: nat)
    requires i < |logs|
    ensures Extended(logs, logs[i := Extend(logs[i], end, call, kept)], i, call)
  {
    forall j | 0 <= j < |logs|
      ensures logs[j].calls + [] == logs[j].calls
    {
    }
  }

  /** Where a reader starts. */
  ghost function Start(rd: Reader): State
    requires rd.Valid()
    reads rd, rd.pool, rd.buf, rd.conn
  {
    State(rd.Pending(), rd.cleanedUp, rd.len == 0, false)
  }

  /**
   Any schedule of calls over any number of readers that share one pool: each reader answers its
   own calls from its own stream, whatever the others do. Chunking decides at most one number, how
   much a first read past the end leaves readable. No poolable buffer that was ever handed to one
   of them is lost: it is with exactly one open reader, or back in the free lists.
   */
  method Interleave(pool: SyncPool, readers: seq<Reader>, schedule: seq<(nat, Call)>, ghost starts: seq<State>)
    returns (answers: seq<seq<Outcome>>, ghost kept: seq<nat>)
    requires Separate(pool, readers) && NoneLost(pool, readers)
    requires |starts| == |readers| && forall j :: 0 <= j < |readers| ==> starts[j] == Start(readers[j])
    requires forall t :: 0 <= t < |schedule| ==> schedule[t].0 < |readers| && LengthOk(schedule[t].1)
    modifies pool, set rd | rd in readers, set rd | rd in readers :: rd.conn, Buffers(pool, readers)
    ensures Separate(pool, readers) && NoneLost(pool, readers) && |answers| == |kept| == |readers|
    ensures forall j, b :: 0 <= j < |readers| && b in readers[j].held && b.Length <= pool.slab.max ==>
                             InOnePlace(pool, readers, b)
    ensures forall j :: 0 <= j < |readers| ==>
                          Follows(readers[j], Log(starts[j], CallsOf(schedule, j), kept[j]), answers[j])
  {
    answers := seq(|readers|, _ => []);
    ghost var logs: seq<Log> := seq(|starts|, j requires 0 <= j < |starts| => Log(starts[j], [], 0));
    for t := 0 to |schedule|
      invariant Separate(pool, readers) && NoneLost(pool, readers)
      invariant AllFollow(readers, logs, answers) && Logged(logs, starts, schedule, t)
      invariant forall b :: b in Buffers(pool, readers) ==> b in old(Buffers(pool, readers)) || fresh(b)
    {
      assert readers[schedule[t].0].buf in Buffers(pool, readers);
      ghost var before := logs;
      logs, answers := LoggedTurn(pool, readers, schedule[t].0, schedule[t].1, logs, answers);
      LoggedNext(before, logs, starts, schedule, t);
    }
    forall j, b | 0 <= j < |readers| && b in readers[j].held && b.Length <= pool.slab.max
      ensures InOnePlace(pool, readers, b)
    {
      assert Serves(pool, readers[j]) && Kept(readers[j], Stock(pool, readers));
      StockInOnePlace(pool, readers, b);
    }
    kept := seq(|logs|, j requires 0 <= j < |logs| => logs[j].kept);
    forall j | 0 <= j < |readers|
      ensures logs[j] == Log(starts[j], CallsOf(schedule, j), kept[j])
    {
      assert schedule[..|schedule|] == schedule;
    }
  }
}
