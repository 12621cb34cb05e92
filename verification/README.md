# Dragonfly2 concurrency and protocol models

A Dafny 4.11 model of the parts of Dragonfly2 whose correctness is a matter of protocol rather than
of single functions, with proofs about every run or every input. `dafny verify dfyconfig.toml` checks
the whole project.

| file | models |
|---|---|
| `SyncLock.dfy` | the keyed, recycling reader/writer lock pool, as a step machine and as classes |
| `CdnTrigger.dfy` | the double-checked CDN trigger running on that pool |
| `Connection.dfy` | the consistent-hash connection table: binding, migration, renaming, GC, close |
| `ConnectionProtocol.dfy` | threads interleaving on the connection table |
| `SeedStream.dfy` | the seed stream from the CDN to the scheduler |
| `SeedProgress.dfy` | publishing downloaded pieces to a subscriber: condition variable, reader loop, closing |
| `SeedPublisher.dfy` | the publisher with all its subscribers, each of which runs the machine of `SeedProgress` |
| `SeedPieces.dfy` | storing, sorting and paging the pieces of a CDN task |
| `Cache.dfy`, `Dynconfig.dfy` | the TTL cache and the configuration reader that tolerates stale entries |
| `RangeHeader.dfy`, `RangePrinting.dfy`, `RangeGrammar.dfy` | the HTTP Range parser, RFC 7233 headers as they are printed, and the texts outside that grammar |
| `Wrappers.dfy` | the optional value the other modules share |
| `Worker.dfy` | the hash-routed event loops of the scheduler |
| `Reschedule.dfy` | the circulation of reschedule entries between the delay queue and the workers |
| `PollingJob.dfy` | the preheat job poller: bounded retry on an aggregated group state |

Objects that the source updates in place are classes; each method is proved against a value-level
function or relation, and the properties of whole runs are proved about those. Goroutines are step
machines: a run is a sequence of states joined by enabled steps, and the theorems quantify over all
of them. The clock, the network, dialing, closing, database and file writes, `sync.Pool`, the hash
ring's order, the hash function and the scheduler's evaluator are parameters that range over every
behaviour.

Main results, one line each:

- the lock pool refines one permanent RW lock per key, although it recycles locks while others wait
  (`PoolRefinesPermanentLocks`, `GrantedExactlyWhenFree`, `MutualExclusion`, `PoolBalanced`);
- the CDN is started at most once more than a task is frozen again, whatever the interleaving
  (`TriggeredOncePerFreeze`), and a call that returns has started it or has found the task running or
  done (`ReturnsForAReason`); when all calls have returned and everybody else has left, its lock is
  free exactly when no call returned early for lacking resources, and after such a return nobody ever
  gets the write lock of the task again
  (`BalancedExactlyWithoutLack`, `LackedEndsWriters`);
- a bound key always has a client and an access time, and racing callers all get the first binder's
  client (`AlwaysCoherent`, `FirstBinderWins`); migration chains visit distinct ring nodes
  (`ChainVisitsDistinctNodes`);
- the scheduler gets exactly the CDN's pieces, length and count, and success if and only if the CDN
  succeeded and its host is known (`SeedingIsExact`, `SeedingGivesThePieceMap`), and otherwise the
  error that fits the CDN's failure (`FailureIsReported`);
- a receiver that saw the end of a subscriber's channel has received exactly the task's pieces,
  whenever it joined and however publishing and reading interleaved (`ClosedStreamIsComplete`), and so
  the scheduler ends up with them (`SchedulerGetsTheCdnsPieces`); the stream fails to end exactly when
  the closing signal falls into a window that `StreamHangsExactlyInTheWindow` names or the receiver
  leaves too much unread (`AwakeReaderEnds`, `BlockedNeverEnds`); publishing a piece blocks for ever
  exactly when the receiver has gone and more is pending than the channel has room for
  (`PublishingBlocksExactlyWhenStuck`);
- with any number of subscribers each runs that machine, and every receiver that saw the end has all
  pieces (`EveryViewIsReachable`, `EveryReceiverGetsAll`); a publication can be completed exactly when none of the subscribers still to
  be given the piece is stuck (`CompletesExactlyUnlessStuck`), and one that is stops all others
  (`OneStuckStopsAll`), while closing never blocks (`ClosingNeverBlocks`);
- a cache read finds exactly what was stored last and not removed since, up to the end of its duration
  (`GetFindsLastStored`, `ReadUntilExpired`);
  deleting expired cache items is invisible to every operation that respects expiration, which Get,
  Keys, ItemCount and Save do not (`CleaningIsInvisible`); the configuration reader is as
  fresh as the service allows (`GetIsAsFreshAsPossible`);
- printed Range headers are answered as RFC 7233 says if and only if the positions the parser reads
  fit 64 bits and the specs inside the content are not all suffixes of length zero
  (`PrintedHeaderParses`); a header text that is not rejected is a printed one if and only if no
  element has a line break, a sign or an unread last position that the grammar forbids
  (`AcceptedIsPrinted`);
  accepted headers give proper ranges if and only if no suffix is negative
  (`AcceptedIsProper`);
- paging enumerates every piece exactly once if and only if no piece is numbered 2^32 - 1
  (`PagingIsExact`);
- accepted events are applied once, in order, one at a time per task, and none is left when the
  task's worker exits (`AcceptedAreAppliedInOrder`, `OneAtATime`, `NothingAcceptedIsLost`,
  `ExitIsFinal`); reschedule entries are applied at most nine times and end, except exactly those that
  a stopped loop leaves behind (`AppliedBoundedly`, `CirculationEnds`, `LeftBehindExactlyByStop`), each
  for the reason its outcome names (`EndsForAReason`);
- a polled job ends in SUCCESS exactly when the last poll saw a non-empty group of successes, and in
  FAILURE otherwise (`PollJob`).

## Where the code differs from what it seems to promise

- cdn/supervisor/service.go:90 returns without giving the read lock back (`LackIsReachable`).
  `BalancedExactlyWithoutLack` says exactly when the lock is balanced, `LackedEndsWriters` what the
  missing release costs: `Update`, `UpdateProgress` and `AddOrUpdate` lock the same key of the same pool.
- cdn/supervisor/progress/progress.go:118-125 signals without the mutex of the condition variable, so
  the signal can be lost between the test and the Wait of lines 82-83 (`WindowIsReachable`), and the
  channel is then never closed; `StreamHangsExactlyInTheWindow` says exactly when.
- The piece channel holds 100 pieces and cdn/supervisor/progress/progress.go:91-104 sends on it while
  holding the mutex of the condition variable, whether or not its context is done, so a receiver that
  has gone can block PublishPiece and with it the task (`StuckIsReachable`);
  `PublishingBlocksExactlyWhenStuck` says exactly when. Since the subscribers are notified one after the
  other, such a receiver also cuts off all the others (`OneStuckStopsAll`, `StopIsReachable`).
- scheduler/core/service.go:165-167 shuts the delaying queue down and returns, so entries that are
  queued, or are added later, never end (`StopLeavesEntry`); `LeftBehindExactlyByStop` says exactly
  which. A loop that waits in Get sees Stop only after one more entry (`StopTakesAtMostOneMore`).
- client/clientutil/range.go:69, :79 and :94 read positions as int64, so `bytes=0-10000000000000000000`
  is rejected although RFC 7233 does not bound positions (`LargeLastExample`); `PrintedHeaderParses`
  says exactly when.
- client/clientutil/range.go:66-77 keeps a suffix of length zero as an empty range, so `bytes=-0`, which
  section 2.1 of RFC 7233 calls unsatisfiable, is accepted (`ZeroSuffixExample`,
  `ZeroSuffixesAreAccepted`); `PrintedHeaderParses`, `SatisfiableExactlyWithoutZeroSuffix` and
  `EmptyRangesExactlyFromZeroSuffixes` say exactly when.
- client/clientutil/range.go:54-94 accepts line breaks as blanks, accepts signed numbers and does not read the last position of a spec
  that starts past the end, so `-+5` and `20-x` are not rejected on ten bytes (`SignedSuffixExample`,
  `UnreadLastExample`); `AcceptedIsPrinted` says exactly when that happens.
- client/clientutil/range.go:69 accepts a signed suffix, so `bytes=--5` yields a negative length
  (`NegativeSuffixExample`); `AcceptedIsProper` says exactly when.
- The uint32 start number of a page wraps after piece 2^32 - 1 (`PagingWraps`); `PagingIsExact` says
  exactly when paging is right.
- pkg/rpc/client.go:405 drops the ring that `RemoveNode` returns: `Close` leaves the ring as it is.
- cdn/rpcserver/rpcserver.go:118 replaces the lookup error before it is classified, so a missing task
  is reported as CDNError there; `Failure` follows the code.
- pkg/rpc/cdnsystem/server/server.go:80 ends a stream on the first error even if pieces are still
  queued; `Delivers` allows any prefix in that case.
- pkg/cache/cache.go:40 and :190 treat negative expirations differently: `TestsDiffer` says exactly when,
  and `LoadReplacesLive` that Load then replaces an item which every other operation still reports
  (`LoadReplacesLiveExample`).

## Model

| member | source | states |
|---|---|---|
| SyncLock.CountRWMutex.Lock | pkg/synclock/count_rwmutex.go:48-54 | the lock is granted exactly when the RWMutex admits the mode, and is then held in it |
| SyncLock.CountRWMutex.Unlock | pkg/synclock/count_rwmutex.go:56-62 | gives back one hold of the mode and nothing else; on a mutex that is not locked in the mode it reports the misuse and changes nothing |
| SyncLock.LockerPool.Checkout | pkg/synclock/key_locker.go:56-60 | the mapped locker of the key, or an idle or new one that is then mapped |
| SyncLock.LockerPool.EnterLock | pkg/synclock/key_locker.go:54-62 | the critical section of Lock is the machine's Enter step: locker found or recycled, counted, session waiting |
| SyncLock.LockerPool.AcquireLocker | pkg/synclock/key_locker.go:64 | the blocking part of Lock is granted exactly when the machine's Acquire step is enabled, and is that step |
| SyncLock.LockerPool.UnLock | pkg/synclock/key_locker.go:67-83 | the two unlock steps of the machine if the locker of the key is locked in the mode; on an unmapped key it does nothing, on a locker not locked in the mode it reports the misuse |
| SyncLock.StepKeepsInv | pkg/synclock/key_locker.go:54-83 | every step keeps: lockers serve one key or are idle and unused, no session is on a stale locker, counts and holds are accurate |
| SyncLock.RunKeepsInv | pkg/synclock/key_locker.go:54-83 | that invariant holds in every state of every run |
| SyncLock.PoolBalanced | pkg/synclock/key_locker.go:54-83 | between critical sections a count is the number of sessions holding or waiting on the key, a key is mapped iff that is positive, no locker serves two keys, idle lockers are unheld with count zero |
| SyncLock.MutualExclusion | pkg/synclock/key_locker.go:54-83 | two sessions holding the same key in any reachable state are both readers |
| SyncLock.GrantedExactlyWhenFree | pkg/synclock/key_locker.go:64 | a waiting Lock can be granted iff a permanent lock of its key could grant it |
| SyncLock.HolderMayUnlock | pkg/synclock/key_locker.go:67-76 | UnLock by a holder finds its key mapped to a locker locked in its mode |
| SyncLock.ReleasableExactlyWhenHeld | pkg/synclock/key_locker.go:67-76 | a mapped locker is locked in a mode exactly when a session holds the key in it, so an UnLock that is no misuse ends a session |
| SyncLock.PoolRefinesPermanentLocks | pkg/synclock/key_locker.go:54-83 | every run of the pool is, step by step, a run of one permanent RW lock per key |
| SyncLock.LockerIsRecycled | pkg/synclock/key_locker.go:54-83 | a run in which two readers share a key, leave, and their locker then serves a writer of another key |
| SyncLock.LockerIsForgotten | pkg/synclock/key_locker.go:54-83 | a run after which the pool is empty again, sync.Pool having dropped the idle locker |
| CdnTrigger.TriggerStepKeepsInv | cdn/supervisor/service.go:80-122 | every step of every call keeps each call's lock session on the task, in its mode and held where the call acts |
| CdnTrigger.OneConfirmed | cdn/supervisor/service.go:100-107 | at most one call is between its second check and StartTrigger |
| CdnTrigger.TriggeredOncePerFreeze | cdn/supervisor/service.go:85-107 | in every run StartTrigger happens at most once more than the status is frozen again |
| CdnTrigger.ReturnsForAReason | cdn/supervisor/service.go:93-107 | in every run a call that returned without errResourcesLacked has taken StartTrigger, or has found the status Running or Success at one of its two checks |
| CdnTrigger.TriggersForAReason | cdn/supervisor/service.go:102-107 | in every run StartTrigger follows a second check of the same call that found Waiting, Failed or SourceError, and leaves the status Running |
| CdnTrigger.AloneTriggers | cdn/supervisor/service.go:80-122 | a run in which a single call on a fresh task starts the CDN and returns |
| CdnTrigger.AnyStatusChange | cdn/supervisor/task/task.go:151-154 | any status may follow any other, and counts as freezing again iff it leads from running or done to waiting or failed |
| CdnTrigger.LackedEndsTriggers | cdn/supervisor/service.go:86-91 | once a call has returned errResourcesLacked no StartTrigger happens on that task any more |
| CdnTrigger.BalancedExactlyWithoutLack | cdn/supervisor/service.go:85-101 | when all calls have returned, nobody holds or waits for the lock of the task iff no call returned errResourcesLacked and no session on it is somebody else's |
| CdnTrigger.EverySessionIsSomebodys | cdn/supervisor/service.go:80-122 | in every run a session on the task is owned by a call, or was entered by somebody else and has not been left since |
| CdnTrigger.LackIsReachable | cdn/supervisor/service.go:85-90 | a run in which the first call returns errResourcesLacked with the read lock |
| CdnTrigger.LackedEndsWriters | cdn/supervisor/service.go:86-91 | after such a return no write session on the task, of anyone, is ever held or can be granted |
| Connection.Conn.FindCandidate | pkg/rpc/client.go:211-263 | the bound node if it is allowed and has a client, else the first allowed ring node that has or gets a client, else none |
| Connection.FindsMeans | pkg/rpc/client.go:211-263 | the candidate written out: bound allowed node with a client, else the first allowed ring node with a cached or dialed client, none iff there is none |
| Connection.FindsIsUnique | pkg/rpc/client.go:211-263 | that description determines the candidate |
| Connection.Conn.BindAbsent | pkg/rpc/client.go:353-362 | the key is bound to the candidate with its client and access time, or nothing changes; coherence is kept |
| Connection.Conn.LoadOrCreateByNode | pkg/rpc/client.go:301-324 | the cached client or a newly dialed one that is stored; the access time is stored either way |
| Connection.Conn.GetClientConn | pkg/rpc/client.go:328-363 | a bound key gets the cached or newly dialed client of its node, an unbound one is bound to the first usable ring node, and fails iff there is none or the caller needs an old binding; the client returned is the one of the key's node, accessed now; other keys and clients stay |
| Connection.Conn.TryMigrate | pkg/rpc/client.go:367-398 | succeeds iff the cause allows it and some ring node outside the list and off the current node has or gets a client; success moves the key as Migrates says and returns the previous node; failure changes nothing |
| Connection.Conn.CorrectKey2NodeRelation | pkg/rpc/client.go:167-177 | the real key takes over the node of the temporary one, which disappears, and other keys stay; panics exactly on an unbound temporary key other than the real one, changing nothing |
| Connection.Conn.UpdateState | pkg/rpc/client.go:430-441 | only the ring and the server nodes change |
| Connection.Conn.GcConn | pkg/rpc/client_util.go:87-112 | no key is on the node any more and its access time is gone, its client too iff closing succeeds; everything else stays |
| Connection.Conn.GcPass | pkg/rpc/client_util.go:54-68 | node by node and key by key: gone are exactly the access times and keys of the nodes idle for at least the expiry, and their clients iff closing succeeds |
| Connection.Conn.Close | pkg/rpc/client.go:400-428 | node by node and key by key: gone are exactly the access times and keys of the server nodes, and their clients iff closing succeeds; the ring stays |
| Connection.ClosedIsDialedAnew | pkg/rpc/client_util.go:87-112 | after a collection or close, a node whose client was closed is found only with a newly dialed client |
| Connection.MigratesAway | pkg/rpc/client.go:367-398 | a migrated key is on a ring node outside the exclusive list and other than the previous node; other bindings and clients stay |
| Connection.ChainVisitsDistinctNodes | pkg/rpc/client.go:367-398 | migrations that accumulate previous nodes visit distinct ring nodes, none of them the one they started from, so at most as many as the ring has others |
| ConnectionProtocol.StepKeepsInv | pkg/rpc/client.go:328-441 | every step of every thread keeps coherence, and no thread dials for a node that has a key |
| ConnectionProtocol.AlwaysCoherent | pkg/rpc/client.go:328-441 | in every reachable state the node of every key has a client and an access time |
| ConnectionProtocol.SoloGetBound | pkg/rpc/client.go:328-348 | a GetClientConn of a bound key that meets nobody stores the access time and, if it can be dialed, a missing client |
| ConnectionProtocol.SoloGetUnbound | pkg/rpc/client.go:328-363 | one of an unbound key binds the key to the candidate found, or does nothing if there is none or the caller needs the old binding |
| ConnectionProtocol.SoloGetByTarget | pkg/rpc/client.go:301-324 | a lookup by node does the same without a key |
| ConnectionProtocol.SoloMigrate | pkg/rpc/client.go:367-398 | a TryMigrate that meets nobody binds the key to what is found outside its list and off its node |
| ConnectionProtocol.WriteSections | pkg/rpc/client.go:400-441 | renaming, ring change, collection and close run as soon as nobody reads, and do to the table, entry by entry, what the methods do |
| ConnectionProtocol.TouchIsFree | pkg/rpc/client.go:179-192 | an access time can be stored at any time, and nothing else changes |
| ConnectionProtocol.WritersKeepClients | pkg/rpc/client.go:355-361 | binding and migrating never give a node that has a client another one |
| ConnectionProtocol.FirstBinderWins | pkg/rpc/client.go:333-362 | all GetClientConn of a key end on the same node and client until the binding is successfully migrated, renamed, collected or closed |
| ConnectionProtocol.MigrationAvoidsPrevious | pkg/rpc/client.go:379-397 | whatever happens between its two locks, TryMigrate ends outside its list and off the node it read |
| SeedStream.ObtainSeeds | cdn/rpcserver/rpcserver.go:80-146 | one message per piece in order, a done message iff the task succeeded, and no error iff it did |
| SeedStream.MessagesSay | cdn/rpcserver/rpcserver.go:93-140 | each message has the fields of its piece and the task's length and count at that moment; the last one, after a success, those of the end |
| SeedStream.AnyPrefixMayArrive | pkg/rpc/cdnsystem/server/server.go:76-82 | of a failing run any number of messages may arrive before its error |
| SeedStream.SeedReceiver.InitCDNPeer | scheduler/supervisor/cdn.go:198-220 | succeeds iff the peer or its host is known; the peer is then running and its host registered |
| SeedStream.SeedReceiver.ReceivePiece | scheduler/supervisor/cdn.go:126-196 | the receive loop computes the meaning of the stream for the scheduler's state |
| SeedStream.SeedingIsExact | scheduler/supervisor/cdn.go:126-220 | success iff the CDN succeeded and its host is known, with all its pieces, its final length and count; otherwise an error of the right kind and no success |
| SeedStream.FailureIsReported | scheduler/supervisor/cdn.go:131-156 | lacking resources and a failed lookup give the unknown error, a failed registration and a failed download their own, an unknown host the init error, success none |
| SeedStream.SeedingSetsPeer | scheduler/supervisor/cdn.go:158-220 | after a success the CDN's peer exists on its host, which is known, with the progress of the pieces; other peers are untouched; a file of at most 128 bytes is kept whole if its download has that length |
| SeedStream.InterruptedIsSeeding | scheduler/supervisor/cdn.go:158-170 | an interrupted stream that reached a known host leaves the task seeding, unless it was a success before, and the peer running |
| SeedStream.BrokenStreamFails | scheduler/supervisor/cdn.go:131-156 | a connection that breaks before the done message yields the invoke error, or the init error for an unknown host, and no success |
| SeedStream.EarlyEndFails | scheduler/supervisor/cdn.go:133-140 | a stream closed before the done message is an error too |
| SeedStream.SeedingGivesThePieceMap | scheduler/supervisor/cdn.go:192-193 | the scheduler's pieces are the CDN's piece map, number by number and field by field |
| SeedProgress.StepKeepsInv | cdn/supervisor/progress/progress.go:62-125 | every step of manager, reader and receiver keeps: each piece of the task is sent or pending unless the subscriber was cancelled, nothing else is, and a closed channel has nothing pending |
| SeedProgress.ClosedStreamIsComplete | cdn/supervisor/progress/manager.go:68-145 | in every run, a receiver that saw the end of a channel that was not cancelled has received every piece of the task and nothing else |
| SeedProgress.StreamCanEnd | cdn/supervisor/progress/progress.go:62-125 | a run in which a waiting subscriber receives a piece and the end of the channel |
| SeedProgress.CancelDropsPieces | cdn/supervisor/progress/progress.go:69-71 | a run in which a subscriber is cancelled before it sends what it has |
| SeedProgress.ReplayIsSorted | cdn/supervisor/progress/manager.go:84-94 | a receiver that joined when the task was done gets the pieces in increasing order |
| SeedProgress.SchedulerGetsTheCdnsPieces | cdn/supervisor/progress/manager.go:68-145 | a successful seeding of what was received to the end of the channel gives a fresh scheduler task exactly the CDN's pieces, number by number and field by field |
| SeedProgress.PublishingBlocksExactlyWhenStuck | cdn/supervisor/progress/progress.go:91-112 | a PublishPiece waiting for the mutex stays there in every later state if the receiver has gone and pending and buffered pieces are more than 100, and otherwise reader and receiver can let it go on |
| SeedProgress.StuckIsReachable | cdn/supervisor/progress/progress.go:54 | a run in which a publisher is blocked that way |
| SeedProgress.StreamHangsExactlyInTheWindow | cdn/supervisor/progress/progress.go:82-125 | after Close's signal the reader sleeps in every later state if it was between its test and its Wait, and in no later state otherwise |
| SeedProgress.WindowIsReachable | cdn/supervisor/progress/progress.go:118-125 | a run in which the closing signal is lost |
| SeedProgress.AwakeReaderEnds | cdn/supervisor/progress/progress.go:62-104 | once the task is published, a reader that is neither asleep nor blocked by a receiver gone too early, or its receiver, can step, and each such step brings the end nearer |
| SeedProgress.BlockedNeverEnds | cdn/supervisor/progress/progress.go:91-104 | a reader whose receiver has gone with more pending than fits the channel never ends its stream, unless cancelled before it sends |
| SeedPublisher.StepReaches | cdn/supervisor/progress/progress.go:139-167 | a step of the publisher takes the view of every subscriber, joined or not, from a reachable state of `SeedProgress` to a reachable one |
| SeedPublisher.EveryViewIsReachable | cdn/supervisor/progress/progress.go:139-167 | in every run with any number of subscribers the view of each is a reachable state of `SeedProgress` |
| SeedPublisher.EveryReceiverGetsAll | cdn/supervisor/progress/manager.go:68-145 | every receiver that saw the end of a channel that was not cancelled has received every piece of the task and nothing else |
| SeedPublisher.CompletesExactlyUnlessStuck | cdn/supervisor/progress/progress.go:155-159 | a publication under way can be completed iff none of the subscribers still to be given the piece is stuck |
| SeedPublisher.ClosingNeverBlocks | cdn/supervisor/progress/progress.go:144-167 | PublishTask can always be completed once it has the lock of the task, whatever its subscribers do |
| SeedPublisher.OneStuckStopsAll | cdn/supervisor/progress/progress.go:155-159 | once a publication has a stuck subscriber ahead, in every later state it is still under way, the task has no new piece or subscriber, and neither that subscriber nor those after it have been given the piece |
| SeedPublisher.StopIsReachable | cdn/supervisor/progress/progress.go:155-159 | a run in which the first of two subscribers is stuck and the second, whose receiver is there, waits behind it |
| SeedPieces.PieceStore.UpdateProgress | cdn/supervisor/task/manager.go:193-205 | a piece is stored under its own number |
| SeedPieces.GetSeedPieces | cdn/supervisor/service.go:124-137 | the pieces of the map in increasing order, each exactly once |
| SeedPieces.CollectPage | cdn/rpcserver/rpcserver.go:187-202 | the first `limit` pieces from the start number on, all of them for limit zero |
| SeedPieces.GetPieceTasks | cdn/rpcserver/rpcserver.go:149-214 | a page of the sorted pieces iff the task can be read and has not failed, else the right error |
| SeedPieces.UnlimitedPageIsSuffix | cdn/rpcserver/rpcserver.go:190 | limit zero returns the whole remaining suffix |
| SeedPieces.PagingWraps | cdn/rpcserver/rpcserver.go:190 | after a piece numbered 2^32 - 1 paging starts over |
| SeedPieces.PagingIsExact | cdn/rpcserver/rpcserver.go:187-202 | paging with any positive limits enumerates each piece once in increasing order, iff no piece is numbered 2^32 - 1 |
| Cache.TtlCache.Set | pkg/cache/cache.go:86-103 | the item is stored with the expiration of its duration |
| Cache.ReadUntilExpired | pkg/cache/cache.go:86-103 | what was stored last at t for d is reported with its expiration up to t + d and not after, for ever if d is negative, and as by the default duration if d is zero |
| Cache.GetFindsLastStored | pkg/cache/cache.go:141-152 | at any point of any run there is an item to find under a key, expired or not, exactly when one was stored there and nothing was stored or removed since, and it is that item |
| Cache.TtlCache.GetWithExpiration | pkg/cache/cache.go:158-182 | the object and expiration of an unexpired item, nothing otherwise |
| Cache.TtlCache.Add | pkg/cache/cache.go:127-137 | stores exactly when there is no unexpired item |
| Cache.TtlCache.DeleteExpired | pkg/cache/cache.go:225-242 | leaves exactly the unexpired items and evicts each other item once |
| Cache.TtlCache.Load | pkg/cache/cache.go:317-332 | loaded items replace exactly the missing and expired ones |
| Cache.TestsDiffer | pkg/cache/cache.go:36-41 | the test of Load and the test of all other operations differ exactly on a negative expiration that has passed |
| Cache.LoadReplacesLive | pkg/cache/cache.go:317-332 | Load replaces an item that the other operations still report exactly when its expiration is negative and has passed |
| Cache.LoadReplacesLiveExample | pkg/cache/cache.go:317-332 | a run of two loads in which the second replaces an item that is still reported |
| Cache.TtlCache.Items | pkg/cache/cache.go:353-368 | exactly the unexpired items |
| Cache.StepKeepsSimilar | pkg/cache/cache.go:86-368 | caches that differ only in expired items stay so under every operation and report the same |
| Cache.CleaningIsInvisible | pkg/cache/cache.go:225-242 | runs that differ only in their DeleteExpired calls report the same everywhere |
| Dynconfig.DynconfigManager.LoadFromManager | internal/dynconfig/dynconfig_manager.go:86-97 | a fetched value is stored even when the file cannot be written |
| Dynconfig.DynconfigManager.Start | internal/dynconfig/dynconfig_manager.go:43-49 | the cache is the file if it can be read, else the service must answer and the file be written |
| Dynconfig.DynconfigManager.Get | internal/dynconfig/dynconfig_manager.go:53-72 | an unexpired entry is returned and nothing changes; otherwise the service is asked, its answer stored and returned, and without one whatever entry there is |
| Dynconfig.AsksExactlyWhenExpired | internal/dynconfig/dynconfig_manager.go:53-72 | over every sequence of calls the service is asked again iff the expiry time has passed since the last fetched value was stored |
| Dynconfig.GetIsAsFreshAsPossible | internal/dynconfig/dynconfig_manager.go:53-97 | over every sequence of calls: the newest fetched value, failure only if there never was one, an expired value only if the service failed in that call |
| RangeHeader.ParseRange | client/clientutil/range.go:45-111 | the loop computes the meaning of the header: ranges in order, invalid if any element is, no overlap if nothing is kept and something is past the end |
| RangeHeader.MustParseRange | client/clientutil/range.go:125-134 | returns a range iff the header parses to exactly one |
| RangeHeader.KeptIsProper | client/clientutil/range.go:66-103 | a kept range is inside the content iff its element is not a negative suffix; first-position ranges are not empty, suffix ranges end at the size |
| RangeHeader.AcceptedIsProper | client/clientutil/range.go:53-110 | all ranges of an accepted header are inside the content iff no element is a negative suffix |
| RangeHeader.NegativeSuffixExample | client/clientutil/range.go:66-77 | `bytes=--5` on ten bytes gives start 15 and length -5 |
| RangePrinting.ReadSelects | client/clientutil/range.go:55-104 | one printed element is rejected iff a position the parser reads does not fit 64 bits, has its bytes right otherwise, and is read as RFC 7233 says iff it also is no suffix of length zero, which becomes an empty range |
| RangePrinting.PrintedHeaderParses | client/clientutil/range.go:45-111 | a printed list is invalid iff a position that is read does not fit 64 bits; it is answered as section 2.1 of RFC 7233 says (NoOverlap iff unsatisfiable, else the ranges of exactly the selected bytes in order) iff all fit and the specs inside the content are not all suffixes of length zero; blanks only yield no ranges |
| RangePrinting.ZeroSuffixesAreAccepted | client/clientutil/range.go:66-77 | an unsatisfiable list with suffixes of length zero is accepted with nothing but empty ranges at the end |
| RangePrinting.ZeroSuffixExample | client/clientutil/range.go:66-77 | `bytes=-0` on ten bytes is accepted with the range (10, 0) |
| RangePrinting.EmptyRangesExactlyFromZeroSuffixes | client/clientutil/range.go:66-77 | an accepted header on a non-empty content has an empty range iff one of its specs is a suffix of length zero |
| RangePrinting.SatisfiableExactlyWithoutZeroSuffix | client/clientutil/range.go:45-111 | a printed byte-range-set is answered with the ranges of its satisfiable specs only, in order, or NoOverlap, iff all positions that are read fit 64 bits and no spec is a suffix of length zero |
| RangePrinting.LargeLastIsRejected | client/clientutil/range.go:93-96 | a spec from byte 0 to a last position above 2^63 - 1 selects the whole content and is rejected |
| RangePrinting.LargeLastExample | client/clientutil/range.go:93-96 | `bytes=0-10000000000000000000` on ten bytes is invalid |
| RangeGrammar.AcceptedIsInGrammar | client/clientutil/range.go:54-104 | a list element that is not rejected is blanks or a spec of the grammar iff it has no line break, no number in it has a sign and its last position, if left unread, is empty or a number not below the first |
| RangeGrammar.AcceptedIsPrinted | client/clientutil/range.go:45-111 | a header text that is not rejected is a printed list of the grammar iff that holds for all its elements |
| RangeGrammar.NumberIsRead | client/clientutil/range.go:69 | a number is read, with its value, iff it is decimal digits with or without a sign that fit 64 bits |
| RangeGrammar.SignedSuffixExample | client/clientutil/range.go:69 | `-+5` on ten bytes is read as the last five |
| RangeGrammar.UnreadLastExample | client/clientutil/range.go:83-88 | `20-x` on ten bytes is read as past the end |
| Worker.StepKeepsInv | scheduler/core/worker.go:54-101 | every step keeps, per task, accepted = applied plus the one in progress, on the routed worker |
| Worker.AcceptedAreAppliedInOrder | scheduler/core/worker.go:54-101 | in every run the events of a task are applied once each in acceptance order, at most the last being in progress |
| Worker.OneAtATime | scheduler/core/worker.go:54-57 | no two events of one task are in progress together |
| Worker.NothingAcceptedIsLost | scheduler/core/worker.go:79-101 | whenever the worker of a task is not applying an event, exited or not, every event accepted for the task has been applied |
| Worker.ExitIsFinal | scheduler/core/worker.go:79-101 | after the worker of a task has exited, what was accepted for the task never grows and has all been applied |
| Worker.EndsOnlyAfterStop | scheduler/core/worker.go:79-92 | a worker's loop returns only after its done channel has been closed |
| Worker.RefusedOnlyAfterStop | scheduler/core/worker.go:94-101 | an event is refused only after the worker of its task has been stopped |
| Worker.EventIsApplied | scheduler/core/worker.go:54-101 | a run in which an event is accepted and applied, its worker stops, and the next event is refused |
| Reschedule.State.Apply | scheduler/core/events.go:70-105 | one application counts once, ends or requeues the entry, and a busy channel queues a fresh one; a queue shut down takes neither |
| Reschedule.PutBackExactly | scheduler/core/events.go:70-105 | an application puts its entry back iff the task has not failed, the peer has no other parent, none was found and it may not or need not go back to source; else the entry ends with the outcome of the first that holds |
| Reschedule.HandedOverExactly | scheduler/core/service.go:177-193 | the loop hands an entry over iff it was applied at most eight times and its peer is not back-to-source, not done and has not left; else it gives up, or finds it no longer needed |
| Reschedule.EndsForAReason | scheduler/core/events.go:70-105 | in every run an ended entry was ended by a step that saw what its outcome says |
| Reschedule.StepKeepsInv | scheduler/core/service.go:162-196 | every step, the exit of the loop included, keeps an entry in exactly one place until it has ended, its count within bounds and its outcome fitting the count |
| Reschedule.AppliedBoundedly | scheduler/core/service.go:177-194 | for any scheduling an entry is applied at most maxRescheduleTimes + 1 times; the loop gives up only on entries applied that often and drops or fails to send only entries applied less often |
| Reschedule.NeverInTwoPlaces | scheduler/core/service.go:169-193 | an entry is never queued twice, nor queued while in the loop or under application |
| Reschedule.CirculationEnds | scheduler/core/events.go:96-98 | an entry takes at most 39 steps in any run |
| Reschedule.QuietMeansEnded | scheduler/core/events.go:70-105 | without Stop, when nothing can move any more every entry has ended with an outcome |
| Reschedule.LeftBehindExactlyByStop | scheduler/core/service.go:163-167 | when nothing can move any more, an entry has no outcome iff the loop has stopped and the entry is still queued or was added after the shutdown |
| Reschedule.StopTakesAtMostOneMore | scheduler/core/service.go:163-169 | after Stop the loop takes an entry only if it was waiting in Get, and then only one |
| Reschedule.StopLeavesEntry | scheduler/core/service.go:163-167 | a run that ends with an entry left in the queue |
| Reschedule.StopCanRefuse | scheduler/core/service.go:193 | a run in which an entry on its way to a worker ends because the workers have stopped |
| PollingJob.GetGroupJobState | internal/job/job.go:112-147 | failure iff a member failed, success iff the group is non-empty and all succeeded, else pending; the creation time of the deciding member |
| PollingJob.GroupMeans | internal/job/job.go:112-147 | a group has failed iff some member has, and has succeeded iff it is not empty and all members have |
| PollingJob.Attempt | manager/service/job.go:103-126 | one attempt stores the group state and cancels exactly on a decided group or a failed write |
| PollingJob.PollJob | manager/service/job.go:100-141 | between 1 and 120 polls; if writes succeed the row ends in SUCCESS iff the last poll saw a non-empty group of successes, else in FAILURE |
| PollingJob.PollUndecided | pkg/retry/retry.go:36-52 | a group that is never decided takes all 120 attempts and ends in FAILURE |

## Left out

- Writer preference of sync.RWMutex: the model lets any admissible waiter go first, which covers more runs than Go allows.
- 32-bit overflow of a locker's reference count, and 64-bit overflow of `time.Now().Add(d)` in the cache.
- SyncLock.CountRWMutex.Unlock: reports every misuse, while Go ends the program on it except for an RUnlock of a write-locked mutex on which readers wait, because the count of waiting readers that Go keeps is not modelled.
- SyncLock.LockerPool.UnLock: reports misuse in the same way.
- GetServerNode, AddServerNodes and the UpdateAccessNodeMap functions have no methods of their own; ring changes and unlocked access updates are steps of `ConnectionProtocol`.
- The slice aliasing of `append(exclusiveNodes, preNode)` in TryMigrate, and the empty string it returns for an unbound key, which is `None` here.
- Uniqueness of clients dialed by simultaneous GetClientConnByTarget calls: the protocol allows the second to replace the first, as the code does.
- ExecuteWithRetry and gRPC dialing, interceptors and error conversion.
- The building of the configured host map in cdnsToHosts: the model has the set of configured host ids.
- Peer.Touch, access times of peers, and the content of a downloaded tiny file beyond its length.
- Re-triggered downloads, a failed Update in PublishTask and RemoveSubscriber on its own are not modelled.
- The readLoop goroutines and the publisher are step machines rather than objects; a piece number has one content per download.
- In-place sorting by sort.Slice: `SortByPieceNum` sorts a sequence.
- Cache Keys, ItemCount, OnEvicted registration, the janitor's timer, and gob encoding, which is taken as faithful.
- The delay of the delaying queue, and duplicates that its own deduplication would merge: entries are queued once anyway.
- Unmarshal and the local configuration source of dynconfig.
- GetContentRange: a single formatting call.
- The worker goroutines, the delay queue and the reschedule loop are step machines rather than objects with channels.
- The event handlers other than reScheduleParentEvent, peer trees and the evaluator.
- The in-memory job after a failed database write is arbitrary in `PollJob`, and its claim about the stored state is for successful writes.
- pkg/sync/kmutex.go and krwmutex.go, the manager's other services, plugins, metrics and command line.
