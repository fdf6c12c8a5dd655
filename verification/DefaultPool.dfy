/** The reader package's own pool (pkg/net/internal/bufreader/reader.go). */
module DefaultPool {
  import opened Wrappers
  import opened SizeClasses
  import opened Recycling
  import opened SlabPool
  import opened BufReader

  /** The package's own pool, set up by `init`, can serve any number of readers. */
  method InitPool() returns (pool: SyncPool)
    ensures fresh(pool) && pool.Valid() && pool.free == {} && pool.params == DEFAULT && ServesReaders(pool)
  {
    var res := NewSyncPool(1024, 65536, 4, ReaderSizes(DEFAULT.max));
    pool := res.value;
    DefaultPoolServesReaders(pool.params);
  }
}
