# Verified model of the Vulcan gate's connection layer

The gate turns a TCP connection into a stream of packets, numbers and routes those packets,
and pushes replies back. This project models that path in Dafny and proves what it keeps:
bytes are neither lost nor shared while buffers are compacted, grown and recycled; framed
packets come back exactly; packet numbers have no gaps; accepted replies reach the wire in
order; a worker is registered only while it is live; the registry, the tunnels and the route
table stay consistent over every history.

Verify everything with `dafny verify dfyconfig.toml`.

## Files

| file | what it models |
|---|---|
| `PowerOfTwo.dfy` | `nextPowerOfTwo`, bit by bit, with the 64-bit overflow |
| `SizeClasses.dfy` | the two loops and the byte-wide lookup table of `NewSyncPool` |
| `Recycling.dfy` | histories of `Alloc` and `Free` for any set of request sizes |
| `SlabPool.dfy`, `DefaultPool.dfy` | the pool object; the pool set up by `init` |
| `BufReader.dfy` | the buffered reader over a connection that chunks its bytes at will |
| `SharedPool.dfy` | any number of readers on one pool, in any order of calls |
| `Framing.dfy` | length-prefixed frames, cutting and extending streams, abstract encryption |
| `Sessions.dfy`, `Workers.dfy`, `Clients.dfy` | the counters of a session, a worker's side of a connection, the client's side |
| `ServerIndexes.dfy` | server packet numbers drawn by several tunnels |
| `ReplyQueue.dfy` | pushers, writer loop and stop, interleaved |
| `Lifecycle.dfy` | `work`, `Start`, `Run`, `Stop` over any number of workers |
| `Registry.dfy`, `UidIndex.dfy` | the sharded registry and the uid index over histories |
| `TunnelHolder.dfy` | get-or-create of tunnels |
| `RouteTable.dfy` | the route table shared by all gates |

## Where the code does not give what one would expect

Each of these is stated exactly: a concrete failing case, and the condition that decides.

- A request fits the class it is looked up in if and only if the pool has at most 256 classes
  (`SizeClasses.FitsIffByteIndex`). The pool that `reader_test.go` sets up for its concurrency
  test has 1024, and does not serve its largest size (`SizeClasses.StressPoolTruncates`).
- `Size` returns its argument only at the maximum size (`SizeClasses.ExactFitOnlyAtMax`); the
  first class has twice the minimum size. The tests `TestSize` and `TestClassSizes` expect
  otherwise; the model follows the code.
- Recycling never reslices past a buffer's capacity if and only if the request sizes in use do
  not clash (`Recycling.RecyclingSafeIff`). Powers of two never clash on the default pool;
  4096 and 6000 do (`Recycling.DefaultPoolClashes`).
- `nextPowerOfTwo` is right up to 2^62 and negative above (`PowerOfTwo.NextPowerOfTwo`).
- A packet is read back if and only if its length is within the reader's bounds; the writer
  does not check them (`Framing.FrameRoundTripIff`).
- A failed read loses what it had already taken from the connection (`BufReader.Reader.ReadFull`).
  That is all a first read past the end can cost a reader, and all that chunking can decide
  (`SharedPool.Interleave`, `SharedPool.ChunkingIrrelevant`).
- A push panics on the closed channel exactly if its check came before `Stop` began and its send
  after the channel was closed (`ReplyQueue.PanicIff`); such a run is `ReplyQueue.PushCanPanic`.
- A worker waiting in `Run` leaves it exactly if a write has failed and the other goroutines have
  returned (`Lifecycle.LeavesRunIff`), so without a failed write no continuation leaves it
  (`Lifecycle.StuckUntilWriteFails`); `Lifecycle.ShutdownCanHang` is a run that waits there with
  every other goroutine gone.
- A lookup by uids can yield a missing worker, exactly if the worker the index named was deleted
  between the load of the index and the read of the bucket (`UidIndex.MissingIff`);
  `UidIndex.GroupLookupCanMiss` is such a run.
- A user is found by uid exactly while no registered worker of that user was deleted since the
  latest put, so a second login is lost when the first one is cleaned up (`UidIndex.UidFoundIff`,
  `UidIndex.ReloginLosesUser`).
- A late disconnect of an older connection to the same gate removes the newer route
  (`RouteTable.LateDisconnectUnroutes`).

## Assumptions

- `Stoppable`'s flags only go up and `DoStop` runs its body once.
- `GetSet` and `DelIfSame` are atomic: a call takes effect at one moment, or not at all.
- A put or a deletion is one step, as the bucket lock makes it for one bucket; loading the uid
  index and reading the bucket are two, with any puts and deletions of others between them.
- Worker ids are unique, and a worker's uid is fixed before it is registered.
- Decryption undoes encryption (`Cipher.Inverse`); unmarshalled indexes are 32-bit
  (`Workers.IndexesAre32Bit`).
- A reader is given a pool whose request sizes do not clash (`BufReader.ServesReaders`);
  `DefaultPool.InitPool` shows that the default pool is one.
- Nondeterminism (chunking, which idle buffer is reused, which call fails, when a loop is told to
  stop, what tunnels answer, interleaving) is a parameter or an arbitrary value, so the results
  hold for every choice.

## Model

| member | source | states |
|---|---|---|
| `PowerOfTwo.NextPowerOfTwo` | pkg/net/internal/bufreader/reader.go:143-155 | the least power of two at or above n for 1 <= n <= 2^62, 1 for n <= 1, and the most negative int above 2^62 |
| `PowerOfTwo.SmearStep` | pkg/net/internal/bufreader/reader.go:148-153 | one or-shift doubles the run of leading ones |
| `SizeClasses.CountClasses` | pkg/net/internal/bufreader/pool.go:38-46 | the counting loop yields the number of classes |
| `SizeClasses.FillTables` | pkg/net/internal/bufreader/pool.go:56-74 | every class size, and every lookup entry from 0 to the maximum, is filled with the right value |
| `SizeClasses.FillRange` | pkg/net/internal/bufreader/pool.go:66-73 | one class overwrites its range, both ends included, and keeps what is below |
| `SizeClasses.LastClassIsMax` | pkg/net/internal/bufreader/pool.go:44-60 | the two loops agree: the last class is exactly the maximum |
| `SizeClasses.ClassSizesStrict` | pkg/net/internal/bufreader/pool.go:56-60 | sizes strictly increase, except that the last two classes may coincide |
| `SizeClasses.LookupExact` | pkg/net/internal/bufreader/pool.go:66-73 | the lookup is the last class whose predecessor's size does not exceed the request, and only that one |
| `SizeClasses.LookupCovers` | pkg/net/internal/bufreader/pool.go:111-116 | the class looked up is at least as large as the request, and larger below the maximum |
| `SizeClasses.SlackBound` | pkg/net/internal/bufreader/pool.go:111-116 | after the first class at most one growth term is wasted |
| `SizeClasses.FitsIffByteIndex` | pkg/net/internal/bufreader/pool.go:72-89 | all requests fit their class if and only if there are at most 256 classes |
| `SizeClasses.ExactFitOnlyAtMax` | pkg/net/internal/bufreader/pool.go:111-116 | Size returns the request itself exactly at the maximum |
| `SizeClasses.ChunkClosedForm` | pkg/net/internal/bufreader/pool.go:40-43 | chunk sizes grow quadratically, in closed form |
| `SizeClasses.ClassCountBound` | pkg/net/internal/bufreader/pool.go:38-46 | if the quadratic exceeds the maximum at q there are at most factor*q + 1 classes |
| `SizeClasses.DefaultClasses` | pkg/net/internal/bufreader/reader.go:14-19 | the default pool has sixteen classes, of the listed sizes |
| `SizeClasses.StressPoolTruncates` | pkg/net/internal/bufreader/reader_test.go:338-338 | that test's pool has 1024 classes, and its largest request is looked up in a smaller class |
| `Recycling.RecyclingSafeIff` | pkg/net/internal/bufreader/pool.go:79-108 | for any tables and request sizes, no history panics if and only if the sizes do not clash |
| `Recycling.RunSafe` | pkg/net/internal/bufreader/pool.go:79-108 | non-clashing histories never panic from any state they can reach |
| `Recycling.ClashPanics` | pkg/net/internal/bufreader/pool.go:84-106 | allocate, free, allocate panics for any clashing pair |
| `Recycling.ReleaseAvoidsClash` | pkg/net/internal/bufreader/pool.go:79-108 | the same calls succeed if the idle buffer was released in between |
| `Recycling.DefaultPoolServesReaders` | pkg/net/internal/bufreader/reader.go:14-19 | powers of two, and sizes above the maximum, never clash on the default pool |
| `Recycling.DefaultPoolClashes` | pkg/net/internal/bufreader/pool.go:84-106 | a 6000-byte request can be handed the 5120-byte buffer of a freed 4096-byte one |
| `SlabPool.NewSyncPool` | pkg/net/internal/bufreader/pool.go:29-77 | succeeds exactly for valid parameters, with the right tables and nothing free |
| `SlabPool.SyncPool.constructor` | pkg/net/internal/bufreader/pool.go:48-61 | a pool with given tables satisfies its invariant |
| `SlabPool.SyncPool.Get` | pkg/net/internal/bufreader/pool.go:61-64 | hands out the chosen idle buffer of the class, or makes one of the class size |
| `SlabPool.SyncPool.Drop` | pkg/net/internal/bufreader/pool.go:21-23 | an idle buffer may be released at any time |
| `SlabPool.SyncPool.Alloc` | pkg/net/internal/bufreader/pool.go:79-93 | a buffer large enough, either the chosen idle one of the request's class or a new one of its capacity; absent (a panic) only if the sizes clash |
| `SlabPool.SyncPool.Free` | pkg/net/internal/bufreader/pool.go:95-108 | files the buffer under its capacity, or lets it go if it is larger than the maximum |
| `SlabPool.SyncPool.Size` | pkg/net/internal/bufreader/pool.go:110-116 | the capacity a request is given |
| `DefaultPool.InitPool` | pkg/net/internal/bufreader/reader.go:14-19 | the package's pool can be shared by any number of readers |
| `BufReader.Conn.Read` | pkg/net/internal/bufreader/reader.go:114-121 | delivers the next bytes in order, as many as arrive together and fit, and fails only at the end |
| `BufReader.ReadAtLeast` | pkg/net/internal/bufreader/reader.go:114-121 | reads the next bytes in order, at least as many as asked, exactly when there are enough and they fit |
| `BufReader.Reader.constructor` | pkg/net/internal/bufreader/reader.go:39-42 | a new reader has the whole connection pending and holds one buffer, which left the pool if it was there |
| `BufReader.Reader.FillAtLeast` | pkg/net/internal/bufreader/reader.go:114-121 | moves bytes from the connection behind the buffered ones; nothing pending changes |
| `BufReader.Reader.Compact` | pkg/net/internal/bufreader/reader.go:98-102 | moving the unread bytes down keeps what is pending |
| `BufReader.Reader.Grow` | pkg/net/internal/bufreader/reader.go:84-97 | changing buffers keeps what is pending; the old buffer is in the pool afterwards exactly if its capacity is within the maximum, and nothing else is added |
| `BufReader.Reader.Adopt` | pkg/net/internal/bufreader/reader.go:90-97 | the switch itself: the old buffer is filed in the pool if it is not too large for it |
| `BufReader.Reader.MakeRoom` | pkg/net/internal/bufreader/reader.go:82-102 | room for the request, by compaction or by the least power of two with 128 bytes to spare; the pool's exact content in both cases |
| `BufReader.Reader.ReadFull` | pkg/net/internal/bufreader/reader.go:69-112 | exactly the next n pending bytes, as a piece of the reader's own buffer, if and only if there are n; otherwise which error, and what stays readable; when and to what size the buffer grows, and what the pool holds then |
| `BufReader.Reader.Take` | pkg/net/internal/bufreader/reader.go:75-80 | what is buffered is handed out from the front, in place |
| `BufReader.Reader.FillAndTake` | pkg/net/internal/bufreader/reader.go:103-112 | with room for n bytes: all n, or the error and only what was buffered before |
| `BufReader.Reader.ReadBeyond` | pkg/net/internal/bufreader/reader.go:82-112 | the same, when more is needed than is buffered |
| `BufReader.Reader.ReadByte` | pkg/net/internal/bufreader/reader.go:44-67 | the next pending byte, if and only if there is one and the buffer is not empty; nothing is lost on failure |
| `BufReader.Reader.Refill` | pkg/net/internal/bufreader/reader.go:50-63 | with nothing buffered, at least one byte is read in, exactly if there is one and the buffer is not empty |
| `BufReader.Reader.Close` | pkg/net/internal/bufreader/reader.go:131-140 | gives the buffer to the pool once; a second close is refused and changes nothing |
| `SharedPool.Turn` | pkg/net/internal/bufreader/reader.go:69-140 | a call is answered from its own reader's state alone, and every other reader keeps its stream, its buffer and the bytes in it, so a result stays valid until the next call on the same reader |
| `SharedPool.Interleave` | pkg/net/internal/bufreader/reader.go:69-140 | over any schedule of calls on any number of readers of one pool, each reader's answers and errors are a function of its own stream and its own calls, but for one number: how much a first read past the end left buffered; and every poolable buffer ever handed to a reader is with exactly one open reader or back in the pool |
| `SharedPool.Join` | pkg/net/internal/bufreader/reader.go:39-42 | a new reader on the pool shares no buffer with another, and no buffer is lost |
| `SharedPool.ChunkingIrrelevant` | pkg/net/internal/bufreader/reader.go:69-121 | until a read goes past the end, the answers do not depend on how the bytes are chunked |
| `SharedPool.PlayConserves` | pkg/net/internal/bufreader/reader.go:69-140 | bytes handed out and bytes remaining are a prefix of the stream, and all of it while open and no read went past the end |
| `SharedPool.One` | pkg/net/internal/bufreader/reader.go:44-140 | the exact answer to one call of any kind, and the exact state it leaves |
| `Framing.LengthSurvives` | pkg/net/internal/worker.go:288-337 | the big-endian length read as signed 32 bits is the length cut to 32 bits |
| `Framing.BigEndianOrder` | pkg/net/internal/worker.go:288-290 | the first byte of the length is the most significant: lengths and their bytes are ordered alike |
| `Framing.FrameRoundTripIff` | pkg/net/internal/worker.go:280-356 | a framed body is read back, and only its bytes consumed, if and only if its length is within the reader's limits |
| `Framing.SealedRoundTrip` | pkg/net/internal/worker.go:280-356 | any sequence of encrypted, framed packets is decoded to exactly those packets, in order |
| `Framing.DecodeExtends` | pkg/net/internal/worker.go:327-356 | bytes that arrive later never change the packets already read |
| `Framing.CutStreamDecodes` | pkg/net/internal/worker.go:299-302 | a stream cut at any byte decodes to a prefix of the packets |
| `Workers.GrowthBounded` | pkg/net/internal/bufreader/reader.go:82-97 | for bodies up to 16384 a reallocation at least doubles the buffer and stays within 65536 |
| `Workers.AtMostThreeReallocs` | pkg/net/internal/bufreader/reader.go:82-97 | a buffer that starts at 8192 bytes, doubles and stays within 65536 is reallocated at most three times; part of the worker's invariant, so of every whole connection |
| `Workers.Worker.constructor` | pkg/net/internal/worker.go:51-81 | a new worker has the whole connection pending, sent nothing and encrypts nothing |
| `Workers.Worker.ReadSome` | pkg/net/internal/worker.go:329-347 | bounded reads keep the buffer within its bound |
| `Workers.Worker.ReadLength` | pkg/net/internal/worker.go:327-345 | the length field, refused exactly when it is out of bounds |
| `Workers.Worker.ReadBody` | pkg/net/internal/worker.go:327-350 | the framed body the stream parses to |
| `Workers.Worker.Read` | pkg/net/internal/worker.go:327-356 | the packet the stream parses to, as it is or decrypted if the session has keys, or the error that fits |
| `Workers.Worker.Write` | pkg/net/internal/worker.go:280-304 | the frame of the packet itself, or of its encryption if the session has keys, is appended to the wire; a proper prefix of it if the connection breaks, nothing if encryption fails |
| `Workers.Worker.Auth` | app/gate/internal/intra/net/service/auth.go:66-85 | a new session announces index 1 and replies with server index 2 |
| `Workers.Worker.Greet` | pkg/net/internal/worker.go:185-193 | succeeds if and only if the user is authenticated and the whole reply gets out; the wire holds the reply, or the part that got out; the session changes only on success |
| `Workers.Worker.Handshake` | pkg/net/internal/worker.go:173-195 | exactly when it succeeds and what is on the wire in every case; consumes exactly the first packet; sets user, cipher and counters |
| `Workers.Worker.Handle` | app/gate/internal/intra/net/service/service.go:58-96 | field by field what the tunnel is given: the user's id where the packet names no object, the decompressed data, everything else as sent; to the tunnel found for that module and object; and exactly which packets are refused; the counter moves exactly on a matching index |
| `Workers.Worker.ReadPack` | pkg/net/internal/worker.go:306-325 | succeeds if and only if there is a packet, it decrypts and it is admitted; its effect on stream and counter in every case |
| `Workers.Worker.ReadPackLoop` | pkg/net/internal/worker.go:248-261 | forwards all packets of the stream, in order, up to exactly the first at which the loop is told to stop, a tunnel refuses or the packet is not admitted; the exact counter; at most three reallocations and 65536 bytes |
| `Workers.NumberedFromStart` | app/gate/internal/intra/net/service/service.go:67-74 | on an encrypted session the packets forwarded are numbered without gap, and the counter never passes 2^31 |
| `Workers.ForwardedAs` | app/gate/internal/intra/net/service/service.go:58-96 | what every forwarded packet of the loop is, field by field, and where it went |
| `Workers.RefusedBecause` | app/gate/internal/intra/net/service/service.go:58-96 | the packet that ends the loop without a stop fails its index, decompression, lookup or tunnel |
| `Workers.Converse` | pkg/net/internal/worker.go:174-261 | a whole connection, however chunked: when the handshake succeeds and what it sends; then each packet the client sealed reaches, field by field, the tunnel of its module and object, up to the first that is refused, and why that one is; all of them if none is; fewer than 2^31; at most three reallocations |
| `Sessions.Session.constructor` | pkg/net/session.go:57-74 | client counter 0, server counter 1 |
| `Sessions.Session.IncreaseCSIndex` | pkg/net/session.go:76-78 | adds one and returns the new value |
| `Sessions.Session.IncreaseSCIndex` | pkg/net/session.go:84-86 | adds one and returns the new value |
| `Clients.Client.Read` | pkg/net/tcp/client/client.go:127-144 | the framed packet the stream parses to, with no bound on its length |
| `Clients.Client.Write` | pkg/net/tcp/client/client.go:146-167 | the frame is appended to the wire, or a proper prefix of it on failure |
| `Clients.Client.ReadPackLoop` | pkg/net/tcp/client/client.go:117-125 | all packets of the stream up to the first error, in order |
| `ServerIndexes.RunInv` | app/gate/internal/intra/net/tunnels/tunnel.go:143-182 | in every interleaving draws are distinct, above the handshake's, and increasing per tunnel |
| `ServerIndexes.PushExact` | app/gate/internal/intra/net/tunnels/tunnel.go:143-182 | a successful push carries exactly its draw; a failed one carries nothing, and its draw is never used again |
| `ServerIndexes.DrawsAccountedFor` | app/gate/internal/intra/net/tunnels/tunnel.go:143-182 | every number drawn is on the channel, waits for its push or was lost to a failed one |
| `ServerIndexes.IndexesCollideIff` | app/gate/internal/intra/net/tunnels/tunnel.go:171-179 | two pushed packets carry the same index exactly when their draws differ by a multiple of 2^32 |
| `ServerIndexes.IndexesIncreasePerTunnel` | app/gate/internal/intra/net/tunnels/tunnel.go:171-179 | within 31 bits, every index exceeds the handshake's and each tunnel's indexes increase |
| `ServerIndexes.TunnelsMayOvertake` | app/gate/internal/intra/net/tunnels/tunnel.go:171-179 | a run in which the order on the channel is not the order of the indexes |
| `ServerIndexes.OneTunnelNoGaps` | pkg/net/session.go:123-137 | one tunnel that pushes n packets uses exactly the n indexes after the handshake's |
| `ReplyQueue.RunInv` | pkg/net/internal/worker.go:208-304 | accepted pushes are those written, then a failed one or one in flight, then those queued; the queue stays within capacity; the wire is the reply, whole frames, and part of the failed one |
| `ReplyQueue.ClientReadsPrefix` | pkg/net/internal/worker.go:174-304 | the client reads the handshake reply, every packet completely written, and otherwise only accepted pushes in order, each as it is or encrypted if the session has keys |
| `ReplyQueue.AcceptedExact` | pkg/net/internal/worker.go:208-218 | in every run the accepted pushes are, in order, exactly what was checked by the pushers whose sends found the channel open and with room |
| `ReplyQueue.EverythingGetsWritten` | pkg/net/internal/worker.go:236-246 | from any moment a writer that is left to itself on a sound connection writes everything accepted, and ends if the channel is closed |
| `ReplyQueue.EndedMeans` | pkg/net/internal/worker.go:236-246 | a writer that ended failed on a packet, or the channel is closed and all accepted packets are written |
| `ReplyQueue.EndedForever` | pkg/net/internal/worker.go:236-246 | once the writer ended nothing more is written |
| `ReplyQueue.FinishExact` | pkg/net/internal/worker.go:268-304 | what one write does to wire and loop: encryption failure, broken connection, success |
| `ReplyQueue.PanicIff` | pkg/net/internal/worker.go:208-218 | in every run from the start a pusher panics exactly if its check precedes the stop and its send follows the close |
| `ReplyQueue.PushCanPanic` | pkg/net/internal/worker.go:145-218 | a run of four steps that panics |
| `Lifecycle.RunInv` | pkg/net/tcp/server/server.go:225-257 | the invariant of every run over any number of workers |
| `Lifecycle.RegisteredOnlyWhileLive` | pkg/net/tcp/server/server.go:242-268 | a registered worker has completed its handshake and its Stop has not begun; no put replaces a worker |
| `Lifecycle.ChannelClosedSafely` | pkg/net/internal/worker.go:145-171 | the reply channel is closed at most once and never under a running writer, and the wait on the writer never blocks |
| `Lifecycle.FinishedExactlyOnce` | pkg/net/tcp/server/server.go:228-248 | a finished worker is not registered, closed its channel and reader once, and ran OnDisconnect exactly if Start completed |
| `Lifecycle.PathExact` | pkg/net/tcp/server/server.go:225-257 | where every worker is and what it achieved, as the results of its own steps so far imply |
| `Lifecycle.ServesIff` | pkg/net/tcp/server/server.go:242-257 | a worker ever serves if and only if its four fallible start steps and the connect callback succeeded |
| `Lifecycle.RegisteredIff` | pkg/net/tcp/server/server.go:242-248 | a worker is ever registered if and only if the start steps succeeded and the put was reached |
| `Lifecycle.FailedStartStops` | pkg/net/tcp/server/server.go:228-244 | after a failed start step, whatever follows: stopping, never registered, no OnDisconnect |
| `Lifecycle.FailedConnectLeaves` | pkg/net/tcp/server/server.go:248-254 | after a failed connect callback, whatever follows: registered until the next own step, stopping from then on |
| `Lifecycle.StopOrder` | pkg/net/internal/worker.go:145-171 | OnDisconnect before the channel is closed, that before the wait for the writer, then the reader, the disconnect callback last |
| `Lifecycle.LeavesRunIff` | pkg/net/internal/worker.go:236-246 | in every reachable state a worker leaves Run exactly if a write failed and the other goroutines returned |
| `Lifecycle.StuckUntilWriteFails` | pkg/net/internal/worker.go:236-246 | no continuation without a failed write leaves Run |
| `Lifecycle.ShutdownCanHang` | pkg/net/internal/worker.go:248-261 | a reachable state in which all other goroutines have returned and the worker waits in Run |
| `Lifecycle.StopCompletes` | pkg/net/internal/worker.go:145-171 | once begun, Stop moves one stage with each step of its own goroutine, whatever other goroutines and workers do between them, until it is done |
| `Registry.Buckets.constructor` | pkg/net/internal/buckets.go:19-30 | an empty registry |
| `Registry.Buckets.Worker` | pkg/net/internal/buckets.go:32-39 | looks up the one merged map |
| `Registry.Buckets.Put` | pkg/net/internal/buckets.go:41-44 | one merged map and the uid index are updated, and the old entry returned |
| `Registry.Buckets.Del` | pkg/net/internal/buckets.go:46-50 | removes only the identical worker, and that worker's uid entry |
| `Registry.Buckets.GetByUID` | pkg/net/internal/buckets.go:58-64 | the worker registered, when the bucket is read, under the id the index named before |
| `Registry.Buckets.GetByUIDs` | pkg/net/internal/buckets.go:66-74 | one entry for each uid the index names, in the order asked, each read after others may have acted |
| `Registry.Buckets.LookupOne` | pkg/net/internal/buckets.go:68-72 | load and read as two steps, with puts and deletions of others before each |
| `Registry.Buckets.Replay` | pkg/net/internal/buckets.go:41-50 | the sharded registry follows the merged map and index over any sequence of puts and deletions |
| `Registry.Buckets.Walk` | pkg/net/internal/buckets.go:52-56 | visits registered workers at most once; misses one only if the callback refused another of its bucket |
| `Registry.WalkBucket` | pkg/net/internal/buckets.go:123-139 | visits each worker of the snapshot once unless the callback refuses |
| `Registry.Buckets.WIDList` | pkg/net/tcp/server/server.go:281-288 | every registered id exactly once |
| `Registry.MergePut` | pkg/net/internal/buckets.go:88-96 | putting in the selected bucket puts in the merged map |
| `Registry.MergeDel` | pkg/net/internal/buckets.go:98-113 | deleting from the selected bucket deletes from the merged map |
| `UidIndex.RunSound` | pkg/net/internal/buckets.go:88-113 | in every history each index entry points to a registered worker of that user |
| `UidIndex.MemberFoundIff` | pkg/net/internal/buckets.go:88-113 | in every history an id is found exactly if the latest put under it was not deleted since, and then as that worker |
| `UidIndex.MissingIff` | pkg/net/internal/buckets.go:58-74 | the exact outcome of a lookup: none, the indexed worker of that user, or a missing one, the last exactly if it was deleted between load and read |
| `UidIndex.GroupLookupExact` | pkg/net/internal/buckets.go:66-74 | a group lookup is its uids' lookups one after the other, each after the history up to its own load |
| `UidIndex.GroupLookupCanMiss` | pkg/net/internal/buckets.go:66-74 | a run in which a group lookup yields a missing worker |
| `UidIndex.ReplayFromEmpty` | pkg/net/internal/buckets.go:41-113 | the sharded registry, over any history, has exactly the index the history results speak of |
| `UidIndex.UidFoundIff` | pkg/net/internal/buckets.go:58-113 | a user is found exactly if no registered worker of that user was deleted since the latest put, and then as the worker put |
| `UidIndex.ReloginLosesUser` | pkg/net/internal/buckets.go:107-112 | a second login followed by the first one's cleanup: registered, but not found |
| `UidIndex.OneAtATimeInverse` | pkg/net/internal/buckets.go:88-113 | with one worker per user at a time the index is exactly the inverse of the registry |
| `TunnelHolder.Holder.constructor` | pkg/net/internal/tunnel.go:18-23 | an empty holder |
| `TunnelHolder.Holder.LiveUnique` | pkg/net/internal/tunnel.go:52-74 | at most one tunnel per type and object is not stopping |
| `TunnelHolder.Holder.Lookup` | pkg/net/internal/tunnel.go:36-50 | the live tunnel for the key, and nothing only if there is none |
| `TunnelHolder.Holder.CreateTunnel` | pkg/net/internal/tunnel.go:52-74 | the live tunnel if there is one, else a new one unless creation fails |
| `TunnelHolder.Holder.Stop` | pkg/net/internal/tunnel.go:25-34 | exactly the tunnels held are told to stop, so every tunnel created so far has been told or was stopping |
| `TunnelHolder.Holder.TunnelStops` | app/gate/internal/intra/net/tunnels/tunnel.go:184-189 | a tunnel begins to stop, and only that one |
| `TunnelHolder.Drive` | pkg/net/internal/worker.go:197-206 | over every run of lookups, creations, failures and stops: what each returned and changed; one live tunnel per key at every moment, and it is held; a tunnel is told to stop exactly by a stop that finds it held |
| `TunnelHolder.Perform` | pkg/net/internal/tunnel.go:25-74 | one operation returns and changes exactly what the abstract step says |
| `RouteTable.Store.AddRouteTable` | app/gate/internal/router/routetable.go:25-37 | afterwards the user is routed to this gate and nobody else's route changed; a failed write changes nothing and is reported |
| `RouteTable.Store.DelRouteTable` | app/gate/internal/router/routetable.go:39-48 | once applied, a user routed here is unrouted, and every other route is as before; a failed call changes nothing |
| `RouteTable.Store.Replay` | app/gate/internal/router/routetable.go:25-48 | the stored table over any history is the one the history results speak of, so a stored route is exactly a connect that stands |
| `RouteTable.RouteIff` | app/gate/internal/router/routetable.go:25-48 | after any history over any number of gates a user has a route exactly if the latest connect stands, and it names that connect's gate |
| `RouteTable.OtherGatesCannotUnroute` | app/gate/internal/router/routetable.go:39-48 | with distinct addresses no other gate's disconnect removes a route |
| `RouteTable.SharedAddressUnroutes` | app/gate/internal/router/routetable.go:43-43 | gates with the same address do remove each other's entries |
| `RouteTable.LateDisconnectUnroutes` | pkg/net/tcp/server/server.go:234-239 | an older connection's late disconnect removes the newer route to the same gate |

## Left out

- BufReader.Reader.ReadFull: requires that the sum of the sizes fits below 2^62, where no Go slice can be longer; the reader's pool must not clash. The result is a value equal to a piece of the reader's buffer.
- BufReader.Reader.constructor: of an initial size that does not clash with the pool's other requests, the exact condition of `Recycling.RecyclingSafeIff`; for other sizes a later request can panic.
- BufReader.Conn.Read: a read that returns data together with an error is not modelled; TCP connections report the two separately.
- SlabPool.SyncPool.Free: of a buffer that came from the same pool; foreign buffers and double frees are not modelled.
- SizeClasses.CountClasses: sizes are unbounded integers; overflow of 64 bits needs a maximum for which the lookup table cannot be allocated.
- Sessions.Session.IncreaseCSIndex: counters are unbounded integers instead of 64-bit ones.
- ReplyQueue.RunInv: the channel is buffered (1024 in the configuration); the rendezvous of an unbuffered channel and a write filter that changes packets are not modelled.
- Lifecycle.RunInv: a goroutine other than the writer may return at any time for any reason; deadlines, the ticker and contexts are only seen as such returns.
- Registry.Buckets.Put: the two updates of one put or deletion count as one step.
- Workers.Worker.Handle: which tunnel is found and what it accepts are given; how tunnels are found and created is `TunnelHolder`.
- The payload a tunnel pushes: `push` never copies the message's data, so there is nothing to preserve.
- The client's channel of received packets: it holds slices of the reader's buffer, which later reads overwrite.
- Encryption, compression, tokens, protobuf: foreign libraries, present only as abstract functions.
- Etcd, redis, gRPC and HTTP servers, health, logging and metadata middleware, wiring: input and output plumbing.
- `Broadcast`, `PushGroup`, context metadata, packet object pools, generated code: would only add easy members.
