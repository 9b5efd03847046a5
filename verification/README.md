# Verified model of the Pancake proxy's stateful core

Pancake is a gRPC reverse proxy that discovers services on upstream servers through gRPC
reflection and answers reflection queries itself. This project models the parts of it that keep
state and proves what those parts promise:

- **Reflection** (`ImportGraph`, `Resolver`, `ResolverProperties`, `LatestDeclarations`,
  `ReflectionServer`, `VisitOrder`): file descriptors and their import graph; the index filled by
  recursive registration; the server's queue walk, which sends each path at most once per stream.
- **Chained reflection** (`ReflectionClient`, `Lockstep`, `StreamReceiver`, `StreamLifecycle`): the
  client's descriptor cache and stream fields; the protocol between a deduplicating server and a
  caching client, over every run; the capacity-one receive buffer; connecting and disconnecting.
- **Routing** (`ServiceLists`, `Proxy`, `WatcherProtocol`, `StrayServers`, `RegistryRuns`, `RoundRobin`,
  `LockOrder`, `Dashboard`): provider pools and service lists with in-place removal; every interleaving of watcher
  goroutines with `ReplaceServers`; the wrapping round-robin counter; the three reader/writer locks; the
  dashboard's inversion of the routing relation.
- **gRPC-Web** (`GrpcWeb`): the split of a response into headers, message frames and a trailer
  frame.

Code that updates fields appears as classes with the same fields. Each method's contract ties the
new state to a function of the old one, and the lemmas are about those functions. Concurrency is
modelled by step systems whose theorems hold for every run.

## How the source is read

- A descriptor is an immutable value that contains its imports, so every graph is acyclic, as the
  protobuf library guarantees. Different files may share a path; a placeholder has a path only.
- Iteration over a Go map is an arbitrary order. A nil map and an empty one are the same value.
- Encoding a descriptor is a total function (`ToProto`) that keeps the declarations and replaces
  imports by their paths. Linking a set of encoded descriptors succeeds when every dependency is
  in the set.
- `int` is 64 bits wide, so converting the 32-bit counter to `int` keeps its value.
- The network supplies arbitrary inputs: which dial succeeds, what a server reports, when a stream
  dies, when a wait ends.
- The writer below the gRPC-Web writer sends its header map when it is first written to or flushed, or
  given a final status, as `net/http` documents; later changes to the map have no effect.
- Strings are ordered by their characters, which is also the order of their UTF-8 bytes.

## Results that differ from what the code suggests

- `proxy/dashboard.go:74-77` hopes that a service never lists a server outside the pools. With no
  call running, the listed servers outside the pools are exactly the cleaned-up ones
  (`StrayServers.StraysExactly`), and a server can stray after its clean-up if and only if the
  clean-up found its watcher not yet cancellable and still running, or past its check with services
  left to announce, or the server listed twice under a service (`StrayServers.CleanupDecidesExactly`).
  A run shows each case.
- The descriptor cache is meant to live as long as one stream. It does so if and only if no answer
  was received between the last loss of a stream and the opening of the current one
  (`Lockstep.CacheLivesForOneStream`); `Lockstep.LateAnswerOutlivesItsStream` is such a run.
- Deduplication relies on the cache, so an answer read after its stream was lost can be incomplete.
  Completing an exchange leaves the client with the whole closure of the requested file, as if all of
  it had been sent, if and only if the stream was not lost meanwhile or nothing of that closure but
  its root had been sent before (`Lockstep.ServerNeverAheadOfClient`,
  `Lockstep.SameAsSendingEverything`; a failing run in `Lockstep.LateAnswerLacksImports`).
- What such an answer leaves over can make every link on the next stream fail, although no placeholder
  is involved (`Lockstep.LateAnswerBreaksLinking`; exactly when: `Lockstep.LinkingSucceedsExactly`).
- If two different files share a path, the second is never sent on a stream, and the client keeps
  the first (`Lockstep.InconsistentStreamMisleads`, `Lockstep.ContentsAgreeExactly`).
- In `getStream` both branches start the goroutine before the stream is stored, and the v1 branch
  before the channel is made. The lifecycle is sound whenever no opening is under way if and only if
  no stream calls back during its own opening (`StreamLifecycle.SplitLifecycleIsSoundExactly`). An
  early callback closes a channel twice exactly when v1 is opened after an earlier stream was lost,
  and leaves the client connected to a dead stream for good exactly when it comes before the stream
  is stored (`StreamLifecycle.EarlyCallbackClosesTwice`, `StreamLifecycle.EarlyCallbackIsForgotten`).
- `getStream` returns the field in which it stored the stream, so it returns nil without an error if
  and only if the stream calls back after it was stored and before the call returns
  (`StreamLifecycle.NilReturnedExactly`, `StreamLifecycle.NilIsReturned`).
- After a message the peer sends unasked, no later request is given its own answer
  (`StreamReceiver.UnsolicitedResponseMispairs`; a run in `StreamReceiver.UnsolicitedMessageIsTaken`).
- A path whose last registration was a top-level placeholder cannot be asked for, even if an earlier
  registered file resolves it (`ReflectionServer.RegisteredFileIsServed`,
  `ReflectionServer.PlaceholderHidesFile`). The proxy itself never gets there: it registers what
  `AllFilesForSymbol` returns, which are linked files only, and then every path of the registered
  closure can be asked for (`ResolverProperties.ResolvedWithoutPlaceholders`).
- `Finish` looks for a capitalised prefix in a lower-cased key and so never removes it
  (`GrpcWeb.PrefixNeverTrimmed`). After several `WriteHeader` calls, a key is a trailer if and only if
  it was first set after the last, and lost altogether if and only if it was first set after the
  headers were sent and before the last call (`GrpcWeb.HeadersAndTrailersExactly`,
  `GrpcWeb.HeaderLostExactly`).
- Round robin is within one pick of even on every window exactly when the number of servers divides
  2^32 (`RoundRobin.FairExactlyForDivisors`).

## Model

| member | source | states |
|---|---|---|
| ImportGraph.ImportPathsExact | proxy/reflection.go:237-239 | the enumerated import paths are all index paths through resolved imports and nothing else |
| ImportGraph.PathCountIsNumberOfPaths | proxy/reflection.go:219-240 | the weight that bounds the walk is the number of import paths starting at a file, including those ending in placeholders |
| ImportGraph.ClosureIsReachability | proxy/reflection.go:219-240 | a file is in the closure if and only if it is resolved and some import path leads to it |
| ImportGraph.ClosureIsClosed | proxy/reflection.go:237-239 | resolved imports of a reachable file are reachable |
| ImportGraph.ToProtoDescribes | proxy/reflection.go:229-230 | the wire form of a file is exactly the descriptor with its path, its four lists of declarations and the paths of its imports |
| Resolver.SimpleResolver.constructor | proxy/proxy.go:46 | a new resolver is empty and has visited nothing |
| Resolver.SimpleResolver.RegisterFiles | reflection/resolver.go:89-108 | after any sequence of registrations the three maps are the fold over the depth-first preorder visits of all files registered so far, in order |
| Resolver.SimpleResolver.RegisterFileLocked | reflection/resolver.go:110-159 | registering one file visits it and its resolved imports in depth-first preorder, once per import path |
| Resolver.SimpleResolver.RegisterDeclarations | reflection/resolver.go:118-149 | the declaration loops write services, enums, messages and extensions in this order |
| Resolver.SimpleResolver.GetExtensionsByMessage | reflection/resolver.go:46-61 | not found exactly for unknown messages; otherwise each number once, exactly those a lookup by number finds |
| Resolver.FieldsKeyedByNumber | reflection/resolver.go:137-149 | an extension is stored under its own extended message and number |
| ResolverProperties.IndexIsLastWrite | reflection/resolver.go:110-159 | each key of each map holds what the last declaration of that key wrote, and is absent if there is none |
| ResolverProperties.LastIsLatest | reflection/resolver.go:110-159 | the last write is a position of the log after which nothing writes the key |
| ResolverProperties.SameLastWritesSameIndex | reflection/resolver.go:24-31 | the last writes determine all three maps |
| ResolverProperties.RegistrationIdempotent | reflection/resolver.go:89-159 | registering the same files again leaves all three maps unchanged |
| ResolverProperties.RepeatedRegistration | proxy/services.go:114-126 | registering once per service name equals registering once, when there is at least one name |
| ResolverProperties.PreorderVisitsClosure | reflection/resolver.go:151-158 | the recursive walk visits the root and exactly its closure |
| ResolverProperties.FileQueries | reflection/resolver.go:75-83 | after any sequence of registrations, a path lookup succeeds exactly for the paths of the registered closure and leads to a registered file of that path |
| ResolverProperties.SymbolQueries | reflection/resolver.go:64-72 | after any sequence of registrations, a symbol is found exactly when a file of the registered closure declares it at top level, and its parent declares it |
| ResolverProperties.ExtensionQueries | reflection/resolver.go:34-61 | after any sequence of registrations, extensions and extended messages are found exactly when a file of the registered closure declares them |
| ResolverProperties.LookupIsLastVisit | reflection/resolver.go:75-83 | a path lookup returns the file visited last under that path |
| ResolverProperties.LastVisitResolvedExactly | reflection/resolver.go:110-116 | the last visit to a path is a resolved file if and only if a registered file has it in its closure and no placeholder for it was registered later |
| ResolverProperties.ResolvedWithoutPlaceholders | proxy/services.go:146-154 | if only resolved files are registered, every path of the registered closure leads to a resolved file |
| LatestDeclarations.SymbolIsLatest | reflection/resolver.go:118-149 | a symbol lookup returns the declaration in the latest visited file that has one, within it the latest in the order services, enums, messages, extensions, with its kind |
| LatestDeclarations.ExtensionIsLatest | reflection/resolver.go:137-149 | an extension lookup returns the latest declaration of that number in the latest visited file that has one |
| LatestDeclarations.LatestExtensionExactly | reflection/resolver.go:137-149 | the latest extension is the last one in the file with that message and number |
| VisitOrder.PreorderInPathOrder | reflection/resolver.go:151-158 | registration visits what a file imports once per import path, in the lexicographic order of the paths |
| ReflectionServer.ReflectionHandler.constructor | proxy/reflection.go:148-154 | a new stream has sent nothing |
| ReflectionServer.ReflectionHandler.FileDescWithDependencies | proxy/reflection.go:213-243 | fails only for a placeholder; answers with the root and the unsent rest of its closure, each described field by field, marks the whole closure as sent, and dequeues once per import path |
| ReflectionServer.ReflectionHandler.FileByFilename | proxy/reflection.go:174-181 | answers for the file indexed under the path, and fails without effect if there is none or it is a placeholder |
| ReflectionServer.ReflectionHandler.FileContainingSymbol | proxy/reflection.go:183-190 | answers for the parent file of the indexed symbol, and fails without effect if there is none |
| ReflectionServer.ReflectionHandler.FileContainingExtension | proxy/reflection.go:192-198 | answers for the parent file of the indexed extension, and fails without effect if there is none |
| ReflectionServer.ReflectionHandler.AllExtensionNumbersOfType | proxy/reflection.go:200-211 | numbers come back strictly ascending, exactly those for which a lookup by number succeeds |
| ReflectionServer.BfsVisitsClosure | proxy/reflection.go:219-240 | the queue walk meets exactly the closure of its queue, whatever was sent before |
| VisitOrder.BfsInPathOrder | proxy/reflection.go:219-240 | the queue walk visits what a file imports once per import path, shorter paths first and those of one length in lexicographic order |
| VisitOrder.UnsentTakesFirst | proxy/reflection.go:227-235 | of the visits to a path the first is sent, and what is sent is in the order of the visits |
| ReflectionServer.TransferElements | proxy/reflection.go:218-242 | a response starts with the requested file and stays inside its closure |
| ReflectionServer.TransferIsFresh | proxy/reflection.go:227-235 | no path repeats within a response, and only the first element may have been sent before |
| ReflectionServer.TransferPaths | proxy/reflection.go:213-243 | the paths of a response are the root's and the unsent ones of its closure, both directions |
| ReflectionServer.StreamDeduplication | proxy/reflection.go:142-146 | over a whole stream, no element after the first of any response was sent earlier |
| ReflectionServer.StreamCompleteness | proxy/reflection.go:227-235 | a path is marked as sent if and only if some response of the stream contained it |
| ReflectionServer.RepeatSendsOnlyRoot | proxy/reflection.go:227 | repeating a successful request yields exactly the one root file |
| ReflectionServer.RegisteredFileIsServed | proxy/reflection.go:174-181 | a filename query succeeds if and only if the path is in the closure of a registered file and no placeholder for it was registered later, and the answer starts with a file of that path |
| ReflectionServer.PlaceholderHidesFile | proxy/reflection.go:213-216 | the shortest registration after which a query for a resolved file fails |
| ReflectionServer.RegisteredSymbolIsServed | proxy/reflection.go:183-190 | a symbol query succeeds if and only if a registered file or one it imports declares the symbol, and the first file of the answer declares it |
| ReflectionServer.RegisteredExtensionIsServed | proxy/reflection.go:192-198 | an extension query succeeds if and only if such a file declares the extension, and the first file of the answer declares it |
| ReflectionServer.ReflectionHandler.Reply | proxy/reflection.go:75-137 | a filename, symbol or extension request gets descriptors if and only if what is registered has the file, the symbol or the extension, and the first one then has that path, lists that symbol under its kind, or holds that extension; the other requests get the numbers, the names or an error |
| ReflectionServer.ReflectionHandler.ServerReflectionInfo | proxy/reflection.go:42-138 | over a whole stream, while files keep being registered, every message gets one such reply, and the answers and the sent set are those the stream theorems speak of |
| ReflectionServer.ReflectionHandler.ReflectionListServices | proxy/reflection.go:156-172 | lists the service names in iteration order without those of the reflection services |
| ReflectionServer.VisibleExactly | proxy/reflection.go:161-164 | each other name is listed as often as the proxy has it, a reflection service never |
| ReflectionServer.SortDistinct | proxy/reflection.go:206-208 | sorting distinct numbers gives a strictly ascending list with the same members |
| ReflectionClient.ReflectionClient.GetStream | reflection/client.go:104-127 | returns the current stream; without one it returns a stream if and only if one of the two dials succeeds, v1 before v1alpha, with a new open disconnect channel |
| ReflectionClient.ReflectionClient.StreamDisconnected | reflection/client.go:129-136 | closes a channel that is still open, forgets both streams and the cache |
| ReflectionClient.ReflectionClient.AllFilesForSymbol | reflection/client.go:57-102 | an error changes nothing; an answer is added to the cache before the whole cache is linked |
| ReflectionClient.FillExact | reflection/client.go:75-84 | after an answer a name is cached if it was before or is in the answer; the last descriptor of the answer with that name takes precedence |
| Lockstep.RunKeepsInStep | reflection/client.go:57-136 | the relation between the server's sent set, the answer under way and the client's cache holds after every run |
| Lockstep.ServerNeverAheadOfClient | reflection/client.go:57-136 | over every run, completing an exchange leaves the client with the whole closure of the requested file if and only if the stream was not lost meanwhile or nothing of it but the root had been sent before; likewise for all that the server marked as sent |
| Lockstep.WholeStreamIsCached | reflection/client.go:57-136 | between exchanges on a living stream the cached paths are exactly those marked as sent and those left over, so the whole closure of every file requested on the stream |
| Lockstep.SameAsSendingEverything | proxy/reflection.go:213-243 | over every run, if equal paths mean equal files, an answer changes the cache exactly as sending the full closure would, if and only if the same condition holds |
| Lockstep.ContentsAgreeExactly | proxy/reflection.go:227-235 | the cached contents match every requested closure if and only if equal paths on the stream mean equal encodings |
| Lockstep.InconsistentStreamMisleads | proxy/reflection.go:227-235 | with two files sharing a path, the client keeps the first version of the file |
| Lockstep.CacheLivesForOneStream | reflection/client.go:129-136 | in every connected state the cache holds files of the current stream only if and only if no answer was received between the last loss of a stream and the opening of the current one |
| Lockstep.LateAnswerOutlivesItsStream | reflection/client.go:71-84 | a run in which an answer read after its stream was lost is still cached on the next stream |
| Lockstep.LateAnswerLacksImports | reflection/client.go:71-84 | a run after which the client lacks a file that the server marked as sent and that the requested file imports |
| Lockstep.LateAnswerBreaksLinking | reflection/client.go:86-94 | a run after which a new stream cannot link, without any placeholder |
| Lockstep.LeftoverExactly | reflection/client.go:129-136 | what is left over is the root of the late answer and that part of its closure that was not sent before on its own stream |
| Lockstep.LinkingSucceedsExactly | reflection/client.go:86-94 | over every run, between exchanges, linking succeeds if and only if the cache covers the placeholders imported by the held files of the current stream and all imports of the files left over by a late answer |
| Lockstep.LinkingOnOneStream | reflection/client.go:86-94 | with equal paths meaning equal files and nothing left over, linking succeeds if and only if every imported placeholder shares its path with a cached file |
| StreamReceiver.BufferedReceiver.OnItem | reflection/client.go:292-309 | an item is dropped exactly when the buffer is full; the goroutine ends after a drop or an error, with one callback |
| StreamReceiver.BufferedReceiver.Recv | reflection/client.go:314-321 | takes the buffered item; an error or a closed channel gives no message |
| StreamReceiver.StepKeepsPaired | reflection/client.go:286-321 | every step keeps requests, responses and results aligned, and a polite peer never finds the buffer full |
| StreamReceiver.RequestsGetTheirResponses | reflection/client.go:174-193 | with at most one response per request, the i-th request receives the i-th response and no response is dropped |
| StreamReceiver.ErrorKeepsUnreadResponse | reflection/client.go:296-301 | a terminal error arriving while a response is unread does not lose that response |
| StreamReceiver.ResultsFollowArrivals | reflection/client.go:286-321 | whatever the peer does, requests are given the responses in the order of arrival, and only the last response can be dropped |
| StreamReceiver.UnsolicitedResponseMispairs | reflection/client.go:286-321 | over every run with answers in order, a request is given its own answer if and only if no unsolicited message arrived up to that point |
| StreamReceiver.UnsolicitedMessageIsTaken | reflection/client.go:286-321 | the shortest run in which a request is given an unsolicited message |
| StreamLifecycle.LifecycleIsSound | reflection/client.go:31-136 | over every run at most one stream is set, the client is connected exactly while its channel is open, no channel is closed twice, and only the current stream can call back |
| StreamLifecycle.GetStreamConnects | reflection/client.go:104-127 | a disconnected client gets a stream if and only if one of the two dials succeeds, v1 if it answered and v1alpha only otherwise; a connected one keeps what it has |
| StreamLifecycle.EveryLossIsSignalled | reflection/client.go:129-136 | over every run, every channel handed out but that of the current stream is closed, exactly once |
| StreamLifecycle.UndisturbedOpeningIsAtomic | reflection/client.go:112-126 | without a callback in between, the three assignments of either branch amount to the atomic step |
| StreamLifecycle.SplitLifecycleIsSoundExactly | reflection/client.go:104-136 | with both branches split, over every run, the lifecycle invariant holds whenever no assignment of an opening is outstanding if and only if no stream calls back before its opening is complete |
| StreamLifecycle.CallbackOutcome | reflection/client.go:112-126 | the callback can come after the first stage of v1 or the second of v1alpha and no earlier, and this is the client it leaves |
| StreamLifecycle.EarlyCallbackClosesTwice | reflection/client.go:112-126 | a callback after any number of stages closes some channel twice if and only if a v1 opening was unfinished and an earlier stream had been lost |
| StreamLifecycle.EarlyCallbackIsForgotten | reflection/client.go:112-126 | it leaves the client connected with no step possible any more if and only if it comes before the second stage of v1 or the third of v1alpha, which stores the stream |
| StreamLifecycle.NilReturnedExactly | reflection/client.go:112-126 | over every run, some call returns a nil stream without an error if and only if some stream calls back after it was stored and before its call returned |
| StreamLifecycle.NilIsReturned | reflection/client.go:114-116 | a run with such a call |
| ServiceLists.AnnouncementConserves | proxy/services.go:98-127 | a server is listed under a name exactly as often as it announced the name, every other server keeps its place in the order, and no service is forgotten |
| ServiceLists.RemoveThenAppend | proxy/services.go:104-126 | filtering a server out and appending it name by name is the announcement |
| ServiceLists.CleanupDropsOne | proxy/servers.go:82-87 | clean-up drops exactly one occurrence per list, so it removes the server if and only if it was listed at most once |
| ServiceLists.SwapRemoveAt | proxy/servers.go:83-86 | the last server takes the index of the first occurrence, every other one keeps its index |
| ServiceLists.SwapRemoveNothing | proxy/servers.go:83 | a list without the server is not changed |
| ServiceLists.AnnouncementKeepsDuplicateFree | proxy/services.go:98-127 | announcing distinct names keeps all lists duplicate-free |
| ServiceLists.CleanupKeepsDuplicateFree | proxy/servers.go:76-88 | clean-up keeps lists duplicate-free and leaves the server in none of them |
| Proxy.UpstreamService.SwapRemoveServer | proxy/servers.go:83-86 | the last server takes the place of the first occurrence |
| Proxy.Proxy.CleanupServer | proxy/servers.go:76-88 | cancels the watcher if its stop handle is installed and swap-removes the server from every list |
| Proxy.Proxy.ReplaceServers | proxy/servers.go:90-123 | keeps wanted servers in order, cleans up exactly the dropped ones, and touches no other pool; over every sequence of calls the pool then holds each wanted configuration exactly once |
| Proxy.Proxy.KeepOrCleanup | proxy/servers.go:104-111 | the loop over the old pool keeps or cleans up each server and notes which configurations are left to build |
| Proxy.Proxy.Spawn | proxy/servers.go:113-120 | exactly one new server per configuration still to build |
| Proxy.Proxy.ReplaceServices | proxy/services.go:98-127 | the lists become the announcement, existing entries keep their identity, and the files are registered once per name |
| Proxy.Proxy.FindServer | proxy/proxy.go:106-118 | fails exactly for an unknown or empty service; otherwise advances that counter modulo 2^32 and picks by it |
| Proxy.PoolHoldsEachConfigOnce | proxy/servers.go:90-123 | with distinct configurations before, the provider afterwards holds each wanted configuration exactly once |
| Proxy.KeptInOrder | proxy/servers.go:104-107 | retained servers keep their relative order |
| Proxy.DroppedExact | proxy/servers.go:108-110 | the servers cleaned up are exactly those whose configuration is no longer wanted |
| Proxy.RepeatChangesNothing | proxy/servers.go:90-123 | a pool within the wanted configurations is kept whole and nothing of it is dropped |
| Proxy.Proxy.ReplaceServersTwice | proxy/servers.go:90-123 | a second call with the same configurations leaves pools, lists and watchers as the first one left them |
| Proxy.CleanedUpServersAreGone | proxy/servers.go:76-88 | in duplicate-free lists the dropped servers are gone and nobody else's entries change |
| WatcherProtocol.RunKeepsInv | proxy/services.go:43-96 | over all interleavings a cleaned-up server is unlisted and its watcher can never announce again, unless one of three circumstances excuses it |
| WatcherProtocol.StrayServersAreExcused | proxy/dashboard.go:74-77 | with no call running, a listed server is pooled, or was cleaned up while its watcher ran uncancelled, was about to announce services, or was listed twice |
| WatcherProtocol.ListsStayDuplicateFree | proxy/services.go:114-126 | if no report repeats a name, all lists stay duplicate-free over every run |
| WatcherProtocol.AtomicRegistryIsSafe | proxy/services.go:77-80 | with handle installation and check-and-announce atomic, and distinct names, no listed server is ever outside the pools between calls |
| WatcherProtocol.LateStarterStrays | proxy/services.go:46-47 | a run in which a server cleaned up before its watcher started is listed again |
| WatcherProtocol.LateAnnouncementStrays | proxy/services.go:77-80 | a run in which a server cleaned up between check and announcement is listed again |
| WatcherProtocol.DuplicateReportStrays | proxy/servers.go:83-86 | a run in which a server that reported a name twice stays listed after its clean-up |
| RegistryRuns.FinishedCallReplaces | proxy/servers.go:90-123 | over every run, a finished call leaves in its pool the still wanted servers in their old order and then new ones, each given configuration exactly once, touches no other pool and cleans up the other servers, whatever the watchers did meanwhile |
| RegistryRuns.StillWantedExactly | proxy/servers.go:104-107 | the still wanted servers are those whose configuration was given |
| RegistryRuns.StillWantedInOrder | proxy/servers.go:104-107 | they stay in the order of the old pool |
| RegistryRuns.PoolsStayDistinct | proxy/servers.go:90-123 | over every run, no two servers of a pool have the same configuration |
| RegistryRuns.PooledServersStayWatched | proxy/services.go:43-96 | over every run, the watcher of a pooled server is not cancelled, has ended if and only if it could not create its client, and can otherwise still announce its services |
| RegistryRuns.ListsFollowReports | proxy/services.go:98-127 | over every run, a server that was not cleaned up is listed under each name exactly as often as the name occurs in the last report it announced |
| RegistryRuns.AtomicCheckAnnounces | proxy/services.go:77-80 | with check and announcement atomic, the check of a watcher that was not cancelled announces its report, and that of a cancelled one changes no list |
| StrayServers.ListedLaterExactly | proxy/services.go:43-96 | a server is listed now or in some continuation if and only if it is listed or its watcher can still announce |
| StrayServers.RunKeepsPlaces | proxy/servers.go:90-123 | over all interleavings every server has at most one place in the pools, and a cleaned-up server has none |
| StrayServers.StraysExactly | proxy/dashboard.go:74-77 | with no call running, a listed server is outside all pools if and only if it was cleaned up |
| StrayServers.CanStrayExactly | proxy/servers.go:76-88 | a cleaned-up server strays now or later if and only if it is listed or its watcher can still announce |
| StrayServers.CleanupDecidesExactly | proxy/servers.go:76-88 | after a clean-up its server strays in some continuation if and only if one of the three circumstances held |
| RoundRobin.CounterIsModular | proxy/services.go:14-17 | after k selections the counter is its start plus k modulo 2^32 |
| RoundRobin.WrapsCountsZeros | proxy/services.go:14-17 | the wraps of a window are the zeros of the counter after its first value |
| RoundRobin.FindServers | proxy/proxy.go:106-118 | consecutive selections follow the counter, and in a duplicate-free list each server is chosen as often as its position is picked |
| RoundRobin.DifferenceExact | proxy/proxy.go:115-116 | the exact difference between the pick counts of two positions over any window |
| RoundRobin.Fairness | proxy/proxy.go:115-116 | pick counts of any two positions differ by at most 1 plus the wraps in the window, and by at most 1 if the list length divides 2^32 |
| RoundRobin.FairExactlyForDivisors | proxy/proxy.go:115-116 | the bound of 1 holds on all windows if and only if the list length divides 2^32 |
| LockOrder.OperationsOrdered | proxy/servers.go:79-99 | every sequence of operations acquires locks in the order server, services, resolver, makes each access under the lock that guards it, and releases them all |
| LockOrder.StepKeepsInv | proxy/proxy.go:30-36 | every lock step keeps holders, pending writers and queued readers consistent |
| LockOrder.WaitsForHigher | proxy/services.go:101-121 | in a stuck state each waiting goroutine would depend on one waiting for a higher lock |
| LockOrder.EveryScheduleCompletes | proxy/dashboard.go:39-60 | no interleaving of any number of goroutines gets stuck: schedules are bounded and can always be continued until every operation is done and every lock released |
| LockOrder.AccessesExactly | proxy/servers.go:79-123 | what each operation reads and writes |
| LockOrder.AccessesAreGuarded | proxy/proxy.go:30-36 | over every schedule, pools, services and index are accessed under the server, services and resolver lock, and written only under a write lock |
| LockOrder.NoDataRace | proxy/proxy.go:30-36 | over every schedule, no two goroutines access the same data at the same time if one of them writes |
| LockOrder.WriterKeepsReadersOut | proxy/proxy.go:107 | a waiting writer keeps new readers out |
| LockOrder.QueuedReadersGetIn | proxy/proxy.go:107 | readers that queued up behind a writer get in when it leaves |
| Dashboard.SortedKeys | proxy/dashboard.go:109-118 | the keys in strictly ascending order, each once |
| Dashboard.LeqExactly | proxy/dashboard.go:114-116 | a prefix comes first, otherwise the first character that differs decides |
| Dashboard.ServerInfos | proxy/dashboard.go:42-55 | one distinct entry per pooled server with its configuration and provider, and the server list holds each entry once |
| Dashboard.ShowService | proxy/dashboard.go:64-86 | shows each listed server or the placeholder, and adds the service to a server once per occurrence |
| Dashboard.DashboardContext | proxy/dashboard.go:38-94 | all views come from the same lists, services ordered by name, and the services of each server too |
| Dashboard.MentionedAsOftenAsListed | proxy/dashboard.go:72-83 | a service appears in a server's list exactly as often as the server in the service's list |
| Dashboard.MentionsInOrder | proxy/dashboard.go:64-86 | the services of a server appear in the order of their names |
| Dashboard.PlaceholderShownExactly | proxy/dashboard.go:74-78 | the placeholder appears if and only if some service lists a server that is in no pool |
| GrpcWeb.ResponseWriter.CopyHeaders | grpcweb/translate.go:99-120 | every key but Trailer becomes a header with its value at that time, the content type translated |
| GrpcWeb.TranslatesContentType | grpcweb/translate.go:107-113 | the content type application/grpc, with or without a message format after a plus sign, becomes the base type with the same format; any other value is unchanged |
| GrpcWeb.CommitCopiesValues | grpcweb/translate.go:99-120 | of every key but Trailer each value is copied, unchanged unless it is a gRPC content type |
| GrpcWeb.ResponseWriter.Write | grpcweb/translate.go:80-85 | the first write copies the headers and sends them; data is appended to the body |
| GrpcWeb.ResponseWriter.WriteHeader | grpcweb/translate.go:88-91 | copies the headers every time, and sends them at the first final status |
| GrpcWeb.ResponseWriter.Flush | grpcweb/translate.go:93-97 | sends the headers copied so far if nothing was sent yet and the inner writer can be flushed |
| GrpcWeb.ResponseWriter.FindTrailers | grpcweb/translate.go:124-139 | the trailers are exactly the headers not sent, under their lower-case keys |
| GrpcWeb.ResponseWriter.Finish | grpcweb/translate.go:123-151 | appends the byte 0x80, the length in four bytes, most significant first, and the serialised trailers, or nothing if there are none, and flushes |
| GrpcWeb.PrefixNeverTrimmed | grpcweb/translate.go:132-137 | trimming the trailer prefix never changes a key |
| GrpcWeb.HeadersAndTrailersSplit | grpcweb/translate.go:99-151 | for any run, keys set before the last commit are copied with their values then, keys first set later are trailers with their final values, and none is both |
| GrpcWeb.HeadersAndTrailersExactly | grpcweb/translate.go:80-151 | for any number of commits, a key is among the trailers if and only if it was first set after the last commit, and among the headers sent if and only if it was set when they were sent |
| GrpcWeb.LastCommitCopies | grpcweb/translate.go:99-120 | the headers copied are those of the last commit with their values then, and are sent if nothing was sent before |
| GrpcWeb.FinalStatusSends | grpcweb/translate.go:88-91 | the headers are sent at the first status that is not informational |
| GrpcWeb.AddsAppend | proxy/proxy.go:149-153 | added values follow those already there, each key on its own |
| GrpcWeb.SetReplaces | proxy/proxy.go:173-177 | setting a key replaces its values and concerns no other key |
| GrpcWeb.LowersLetters | grpcweb/translate.go:102 | lower-casing concerns the 26 letters, wherever they stand, and nothing else |
| GrpcWeb.HeaderLostExactly | grpcweb/translate.go:88-91 | a key is in neither if and only if it was first set after the headers were sent and before the last commit |
| GrpcWeb.SecondCommitLosesTrailers | grpcweb/translate.go:88-91 | a key set between two WriteHeader calls is such a lost key |
| GrpcWeb.BodyIsWhatWasWritten | grpcweb/translate.go:80-85 | the body is the handler's data in order |
| GrpcWeb.LengthRoundTrip | grpcweb/translate.go:144-146 | the four length bytes give the length modulo 2^32 |
| GrpcWeb.ParseRecoversFrames | grpcweb/translate.go:144-148 | reading by length prefix recovers every sequence of frames shorter than 2^32 bytes |
| GrpcWeb.ResponseRecovered | grpcweb/translate.go:141-149 | a client recovers all messages and the trailer block if and only if the block is shorter than 2^32 bytes |

## Left out

- ReflectionServer.ReflectionHandler.FileDescWithDependencies: encoding cannot fail here, although the code marks a path as sent before it encodes the file.
- ReflectionClient.ReflectionClient.GetStream: one atomic step, as is StreamDisconnected; StreamLifecycle divides it into its assignments and its return, with the callback and the check for an existing stream still atomic.
- ReflectionClient.ReflectionClient.AllFilesForSymbol: decoding cannot fail, caching an answer is atomic with respect to the disconnect callback, and linking only checks that dependencies are present.
- StreamReceiver.BufferedReceiver.OnItem: buffering an error, closing the channel and calling back are one step.
- Proxy.Proxy.ReplaceServers: sequential, under its lock; its interleaving with watchers is the subject of WatcherProtocol, whose steps use the same list functions.
- Proxy.Proxy.FindServer: selections are ordered by their atomic counter increments, and the list is unchanged within a window.
- Dashboard.DashboardContext: the flag that reflection is disabled, and the order of the server list, which is that of a map iteration.
- GrpcWeb.HeaderLostExactly: the base64 and gzip writers buffer data, so under them the headers may be sent later than at the first write.
- GrpcWeb.ResponseWriter.Finish: the serialisation of a header block is an arbitrary function.
- WatcherProtocol.StrayServersAreExcused: timer durations; a wait may end at any step.
- ReflectionServer.ReflectionHandler.ServerReflectionInfo: files are registered between messages, not while one is answered, and errors other than "not found" do not occur.
- Clear in the resolver, which resets one of its three maps and is never called.
- Nested protobuf declarations and removal of stale descriptors: the index does not handle them.
- getServiceInfo collecting the files of all services, dialling, TLS, HTTP transports and request forwarding: network input and output.
- The base64 and gzip writers, the v1alpha conversion, the Docker and static providers, configuration and restarts.
