/**
 Size classes of the slab pool (pkg/net/internal/bufreader/pool.go): how many classes the
 counting loop makes, what sizes the fill loop gives them, and what the byte-wide lookup
 table says, all as functions of the three constructor parameters.
 */
module SizeClasses {

  newtype uint8 = x: int | 0 <= x < 256

  datatype Params = Params(min: int, max: int, factor: int) {
    predicate Valid() {
      0 < min <= max && 0 < factor
    }
  }

  const DEFAULT := Params(1024, 65536, 4)

  function Min(a: int, b: int): int {
    if a <= b then a else b
  }

  /** The growth term `minSize * (i/factor*2 + 1)` shared by both loops. */
  function Growth(p: Params, i: nat): (g: int)
    requires p.Valid()
    ensures g >= p.min
  {
    var m := i / p.factor * 2 + 1;
    assert m >= 1;
    ScaleAtLeast(p.min, m);
    p.min * m
  }

  lemma ScaleAtLeast(a: int, m: int)
    requires a >= 0 && m >= 1
    ensures a * m >= a
  {
  }

  /** The `j`-th chunk size tried by the counting loop. */
  function Chunk(p: Params, j: nat): int
    requires p.Valid()
  {
    if j == 0 then p.min else Chunk(p, j - 1) + Growth(p, j)
  }

  /** The first index at or after `j` whose chunk exceeds the maximum. */
  function FirstAbove(p: Params, j: nat): (n: nat)
    requires p.Valid()
    ensures j <= n && Chunk(p, n) > p.max
    ensures j < n ==> Chunk(p, n - 1) <= p.max
    decreases if Chunk(p, j) > p.max then 0 else p.max - Chunk(p, j) + 1
  {
    if Chunk(p, j) > p.max then j
    else
      assert Chunk(p, j + 1) == Chunk(p, j) + Growth(p, j + 1);
      FirstAbove(p, j + 1)
  }

  function ClassCount(p: Params): (n: nat)
    requires p.Valid()
    ensures n >= 1
  {
    var c := FirstAbove(p, 0);
    if Chunk(p, c - 1) < p.max then c + 1 else c
  }

  function ClassSize(p: Params, k: nat): int
    requires p.Valid()
  {
    Min(Chunk(p, k) + p.min, p.max)
  }

  /** The last class up to `k` whose fill range starts at or below `s`. */
  function LookupFrom(p: Params, s: nat, k: nat): (c: nat)
    requires p.Valid()
    ensures c <= k
    ensures c == 0 || ClassSize(p, c - 1) <= s
    ensures forall j :: c <= j < k ==> s < ClassSize(p, j)
  {
    if k == 0 || ClassSize(p, k - 1) <= s then k else LookupFrom(p, s, k - 1)
  }

  /** The class index written last at position `s` of the lookup table. */
  function Lookup(p: Params, s: nat): (c: nat)
    requires p.Valid()
    ensures c < ClassCount(p)
  {
    LookupFrom(p, s, ClassCount(p) - 1)
  }

  /** What the table holds: the class index cut to eight bits. */
  function Entry(p: Params, s: nat): (c: nat)
    requires p.Valid()
    ensures c < ClassCount(p)
  {
    Lookup(p, s) % 256
  }

  /** `SyncPool.Size`. */
  function SizeOf(p: Params, s: int): int
    requires p.Valid()
  {
    if s <= 0 || s > p.max then s else ClassSize(p, Entry(p, s))
  }

  // ---------- both loops ----------

  /** The counting loop of `NewSyncPool`. */
  method CountClasses(p: Params) returns (n: nat)
    requires p.Valid()
    ensures n == ClassCount(p)
  {
    n := 0;
    var curSize := p.min;
    var chunkSize := p.min;
    while chunkSize <= p.max
      invariant chunkSize == Chunk(p, n)
      invariant n > 0 ==> curSize == Chunk(p, n - 1)
      invariant n == 0 ==> chunkSize <= p.max
      invariant FirstAbove(p, n) == FirstAbove(p, 0)
      decreases p.max - chunkSize
    {
      curSize := chunkSize;
      n := n + 1;
      chunkSize := chunkSize + p.min * (n / p.factor * 2 + 1);
    }
    if curSize < p.max {
      n := n + 1;
    }
  }

  /** The fill loop of `NewSyncPool`: class sizes and the lookup table. */
  method FillTables(p: Params, n: nat) returns (classesSize: array<int>, sizeLookup: array<uint8>)
    requires p.Valid() && n == ClassCount(p)
    ensures fresh(classesSize) && fresh(sizeLookup)
    ensures classesSize.Length == n && sizeLookup.Length == p.max + 1
    ensures forall k :: 0 <= k < n ==> classesSize[k] == ClassSize(p, k)
    ensures forall s :: 0 <= s <= p.max ==> sizeLookup[s] as int == Entry(p, s)
  {
    classesSize := new int[n];
    sizeLookup := new uint8[p.max + 1];
    var chunkSize := p.min;
    for k := 0 to n
      invariant chunkSize == if k == 0 then p.min else Chunk(p, k - 1) + p.min
      invariant forall j :: 0 <= j < k ==> classesSize[j] == ClassSize(p, j)
      invariant k > 0 ==> LookupFilled(p, sizeLookup, k - 1)
    {
      chunkSize := chunkSize + Growth(p, k);
      FirstGrowth(p);
      assert chunkSize == Chunk(p, k) + p.min;
      var size := Min(chunkSize, p.max);
      classesSize[k] := size;
      var start := 0;
      if k > 0 {
        start := classesSize[k - 1];
        ClassSizesGrow(p, k - 1, k);
      }
      FillRange(p, sizeLookup, k, start, size);
    }
    LastClassIsMax(p);
  }

  /** Once class `k` is done, the table is right up to that class's size. */
  ghost predicate LookupFilled(p: Params, sizeLookup: array<uint8>, k: nat)
    requires p.Valid()
    reads sizeLookup
  {
    ClassSize(p, k) < sizeLookup.Length &&
    forall s :: 0 <= s <= ClassSize(p, k) ==> sizeLookup[s] as int == LookupFrom(p, s, k) % 256
  }

  lemma FirstGrowth(p: Params)
    requires p.Valid()
    ensures Growth(p, 0) == p.min
  {
  }

  /** Adding class `k` changes the lookup only from where that class's range starts. */
  lemma {:induction false} LookupStep(p: Params, s: nat, k: nat)
    requires p.Valid()
    ensures LookupFrom(p, s, k) == if k == 0 || ClassSize(p, k - 1) <= s then k else LookupFrom(p, s, k - 1)
  {
  }

  /** One class's range of the lookup table, both ends included. */
  method FillRange(p: Params, sizeLookup: array<uint8>, k: nat, start: int, size: int)
    requires p.Valid() && sizeLookup.Length == p.max + 1
    requires size == ClassSize(p, k) && start == if k == 0 then 0 else ClassSize(p, k - 1)
    requires 0 <= start <= size
    requires k > 0 ==> LookupFilled(p, sizeLookup, k - 1)
    modifies sizeLookup
    ensures LookupFilled(p, sizeLookup, k)
  {
    Overwrite(sizeLookup, start, size, k);
    forall s | 0 <= s <= size
      ensures sizeLookup[s] as int == LookupFrom(p, s, k) % 256
    {
      LookupStep(p, s, k);
    }
  }

  /** The inner loop: writes `uint8(k)` from `start` to `size`. */
  method Overwrite(sizeLookup: array<uint8>, start: nat, size: nat, k: nat)
    requires start <= size < sizeLookup.Length
    modifies sizeLookup
    ensures forall s :: 0 <= s < start ==> sizeLookup[s] == old(sizeLookup[s])
    ensures forall s :: start <= s <= size ==> sizeLookup[s] as int == k % 256
  {
    var i := start;
    while i <= size
      invariant start <= i <= size + 1
      invariant forall s :: 0 <= s < start ==> sizeLookup[s] == old(sizeLookup[s])
      invariant forall s :: start <= s < i ==> sizeLookup[s] as int == k % 256
    {
      sizeLookup[i] := (k % 256) as uint8;
      i := i + 1;
    }
  }

  // ---------- the shape of the classes ----------

  lemma {:induction false} ChunksGrow(p: Params, i: nat, j: nat)
    requires p.Valid() && i < j
    ensures Chunk(p, i) + p.min <= Chunk(p, j)
    decreases j
  {
    if i < j - 1 {
      ChunksGrow(p, i, j - 1);
    }
  }

  lemma ChunkAtLeastMin(p: Params, j: nat)
    requires p.Valid()
    ensures Chunk(p, j) >= p.min
  {
    if j > 0 {
      ChunksGrow(p, 0, j);
    }
  }

  lemma ClassSizesGrow(p: Params, i: nat, j: nat)
    requires p.Valid() && i <= j
    ensures 0 < ClassSize(p, i) <= ClassSize(p, j) <= p.max
  {
    ChunkAtLeastMin(p, i);
    if i < j {
      ChunksGrow(p, i, j);
    }
  }

  /** The two loops agree: the last class is exactly the maximum size. */
  lemma LastClassIsMax(p: Params)
    requires p.Valid()
    ensures ClassSize(p, ClassCount(p) - 1) == p.max
  {
  }

  /** Sizes strictly increase, except that the last two classes may coincide. */
  lemma ClassSizesStrict(p: Params, i: nat, j: nat)
    requires p.Valid() && i < j < ClassCount(p)
    ensures ClassSize(p, i) < ClassSize(p, j) || (j == i + 1 == ClassCount(p) - 1 && ClassSize(p, i) == p.max)
  {
    ChunksGrow(p, i, j);
    var c := FirstAbove(p, 0);
    if i + 1 < c - 1 {
      ChunksGrow(p, i + 1, c - 1);
      ChunksGrow(p, i, i + 1);
    } else if i + 1 == c - 1 {
      ChunksGrow(p, i, i + 1);
    }
  }

  /** The lookup is the last class whose predecessor's size does not exceed the request. */
  lemma LookupExact(p: Params, s: nat, k: nat)
    requires p.Valid() && k < ClassCount(p)
    ensures k == Lookup(p, s) <==>
            (k == 0 || ClassSize(p, k - 1) <= s) && forall j :: k <= j < ClassCount(p) - 1 ==> s < ClassSize(p, j)
  {
    var c := Lookup(p, s);
    assert c < k ==> s < ClassSize(p, k - 1);
    assert k < c ==> ClassSize(p, c - 1) <= s;
  }

  lemma LookupCovers(p: Params, s: nat)
    requires p.Valid() && s <= p.max
    ensures s <= ClassSize(p, Lookup(p, s))
    ensures s < p.max ==> s < ClassSize(p, Lookup(p, s))
  {
    LastClassIsMax(p);
  }

  /** After the first class, no more than one growth term is wasted. */
  lemma SlackBound(p: Params, s: nat)
    requires p.Valid() && s <= p.max && Lookup(p, s) >= 1
    ensures 0 <= ClassSize(p, Lookup(p, s)) - s <= Growth(p, Lookup(p, s))
  {
    LookupCovers(p, s);
  }

  /**
   A request is always given a class at least as large as itself exactly when the class
   index fits the table's byte, that is when there are at most 256 classes.
   */
  lemma FitsIffByteIndex(p: Params)
    requires p.Valid()
    ensures (forall s :: 1 <= s <= p.max ==> SizeOf(p, s) >= s) <==> ClassCount(p) <= 256
  {
    if ClassCount(p) <= 256 {
      forall s | 1 <= s <= p.max ensures SizeOf(p, s) >= s {
        LookupCovers(p, s);
      }
    } else {
      LargestRequestTruncated(p);
    }
  }

  lemma LargestRequestTruncated(p: Params)
    requires p.Valid() && ClassCount(p) > 256
    ensures SizeOf(p, p.max) < p.max
  {
    var n := ClassCount(p);
    LookupOfMax(p);
    assert (n - 1) % 256 < n - 2;
    ClassSizesStrict(p, (n - 1) % 256, n - 1);
    LastClassIsMax(p);
  }

  lemma LookupOfMax(p: Params)
    requires p.Valid()
    ensures Lookup(p, p.max) == ClassCount(p) - 1
  {
    if ClassCount(p) >= 2 {
      ClassSizesGrow(p, ClassCount(p) - 2, ClassCount(p) - 1);
    }
  }

  /**
   `Size` never returns the request itself below the maximum: each class's own size is
   looked up in the next class.
   */
  lemma ExactFitOnlyAtMax(p: Params, s: int)
    requires p.Valid() && ClassCount(p) <= 256 && 1 <= s <= p.max
    ensures SizeOf(p, s) == s <==> s == p.max
  {
    LookupCovers(p, s);
    LastClassIsMax(p);
    ClassSizesGrow(p, Lookup(p, s), ClassCount(p) - 1);
  }

  // ---------- quadratic growth bounds the class count ----------

  lemma {:induction false} ChunkClosedForm(p: Params, q: nat, r: nat)
    requires p.Valid() && r < p.factor
    ensures 0 <= p.factor * q
    ensures Chunk(p, p.factor * q + r) == p.min * (1 + p.factor * q * q + 2 * q + r * (2 * q + 1))
    decreases q, r
  {
    var f := p.factor;
    MulNat(f, q);
    if r > 0 {
      ChunkClosedForm(p, q, r - 1);
      QuotientOf(f, q, r);
      AddRow(p.min, f, q, r);
    } else if q > 0 {
      MulNat(f, q - 1);
      MulPred(f, q);
      ChunkClosedForm(p, q - 1, f - 1);
      QuotientOf(f, q, 0);
      AddBlock(p.min, f, q);
    }
  }

  lemma MulNat(a: nat, b: nat)
    ensures 0 <= a * b
  {
  }

  lemma MulPred(f: int, q: int)
    ensures f * (q - 1) == f * q - f
  {
  }

  lemma QuotientOf(f: nat, q: nat, r: nat)
    requires r < f
    ensures (f * q + r) / f == q
  {
    var d := (f * q + r) / f;
    var m := (f * q + r) % f;
    assert f * d + m == f * q + r;
    assert f * (d - q) == r - m;
    if d != q {
      OutOfRow(f, d - q);
    }
  }

  lemma OutOfRow(f: nat, e: int)
    requires e != 0
    ensures f * e >= f || f * e + f <= 0
  {
  }

  lemma AddRow(m: int, f: int, q: int, r: int)
    ensures m * (1 + f * q * q + 2 * q + (r - 1) * (2 * q + 1)) + m * (q * 2 + 1)
         == m * (1 + f * q * q + 2 * q + r * (2 * q + 1))
  {
    var a := 1 + f * q * q + 2 * q;
    assert (r - 1) * (2 * q + 1) + (q * 2 + 1) == r * (2 * q + 1);
    Factor(m, a + (r - 1) * (2 * q + 1), q * 2 + 1);
  }

  lemma AddBlock(m: int, f: int, q: int)
    ensures m * (1 + f * (q - 1) * (q - 1) + 2 * (q - 1) + (f - 1) * (2 * (q - 1) + 1)) + m * (q * 2 + 1)
         == m * (1 + f * q * q + 2 * q + 0 * (2 * q + 1))
  {
    BlockSquares(f, q);
    Factor(m, 1 + f * (q - 1) * (q - 1) + 2 * (q - 1) + (f - 1) * (2 * (q - 1) + 1), q * 2 + 1);
  }

  lemma BlockSquares(f: int, q: int)
    ensures f * (q - 1) * (q - 1) + (f - 1) * (2 * (q - 1) + 1) == f * q * q - 2 * q + 1
  {
    var fq := f * q;
    assert f * (q - 1) == fq - f;
    assert (fq - f) * (q - 1) == fq * q - fq - f * q + f;
    assert (f - 1) * (2 * q - 1) == 2 * fq - f - 2 * q + 1;
  }

  lemma Factor(m: int, a: int, b: int)
    ensures m * a + m * b == m * (a + b)
  {
  }

  /** If the quadratic passes the maximum at `q`, there are at most `factor*q + 1` classes. */
  lemma ClassCountBound(p: Params, q: nat)
    requires p.Valid() && p.min * (p.factor * q * q + 2 * q + 1) > p.max
    ensures ClassCount(p) <= p.factor * q + 1
  {
    ChunkClosedForm(p, q, 0);
    assert 1 + p.factor * q * q + 2 * q + 0 * (2 * q + 1) == p.factor * q * q + 2 * q + 1;
    var c := FirstAbove(p, 0);
    if p.factor * q < c - 1 {
      ChunksGrow(p, p.factor * q, c - 1);
    }
  }

  // ---------- the default pool ----------

  function DefaultSizes(): seq<int> {
    [2048, 3072, 4096, 5120, 8192, 11264, 14336, 17408, 22528, 27648, 32768, 37888, 45056, 52224, 59392, 65536]
  }

  lemma DefaultChunks()
    ensures DEFAULT.Valid()
    ensures Chunk(DEFAULT, 0) == 1024 && Chunk(DEFAULT, 1) == 2048 && Chunk(DEFAULT, 2) == 3072
    ensures Chunk(DEFAULT, 3) == 4096 && Chunk(DEFAULT, 4) == 7168 && Chunk(DEFAULT, 5) == 10240
    ensures Chunk(DEFAULT, 6) == 13312 && Chunk(DEFAULT, 7) == 16384 && Chunk(DEFAULT, 8) == 21504
    ensures Chunk(DEFAULT, 9) == 26624 && Chunk(DEFAULT, 10) == 31744 && Chunk(DEFAULT, 11) == 36864
    ensures Chunk(DEFAULT, 12) == 44032 && Chunk(DEFAULT, 13) == 51200 && Chunk(DEFAULT, 14) == 58368
    ensures Chunk(DEFAULT, 15) == 65536
  {
  }

  lemma {:induction false} CountIs(p: Params, n: nat)
    requires p.Valid() && n >= 1 && Chunk(p, n - 1) == p.max
    ensures ClassCount(p) == n
  {
    var c := FirstAbove(p, 0);
    if n < c {
      if n < c - 1 {
        ChunksGrow(p, n - 1, c - 1);
      } else {
        ChunksGrow(p, n - 1, n);
      }
    } else if c < n - 1 {
      ChunksGrow(p, c, n - 1);
    }
  }

  /** `NewSyncPool(1024, 65536, 4)` has sixteen classes, of these sizes. */
  lemma {:induction false} DefaultClasses(p: Params)
    requires p == DEFAULT
    ensures p.Valid() && ClassCount(p) == 16
    ensures forall k :: 0 <= k < 16 ==> ClassSize(p, k) == DefaultSizes()[k]
  {
    DefaultChunks();
    CountIs(p, 16);
  }

  /** The pool the package's concurrency test sets up has 1024 classes, so its table truncates. */
  lemma {:induction false} StressPoolTruncates(p: Params)
    requires p == Params(1024, 1048576, 1024)
    ensures p.Valid() && ClassCount(p) == 1024 && SizeOf(p, p.max) < p.max
  {
    ChunkClosedForm(p, 0, 1023);
    CountIs(p, 1024);
    LargestRequestTruncated(p);
  }
}
