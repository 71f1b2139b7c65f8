# A verified model of webrtc-dht

The repository is a Kademlia-style distributed hash table with a blob channel and a signalling protocol on top of it.
This project models its logic in Dafny and proves what that logic promises.

- `Options.dfy`, `Bits.dfy`, `Keys.dfy`: optional values; 160-bit keys as big-endian numbers, the XOR metric, the bucket
  index.
- `Tables.dfy`, `Closest.dfy`: buckets, the two locked sections of `Add`, what `FindClosest` may return.
- `Adds.dfy`, `AddHistory.dfy`, `Overlap.dfy`, `Copies.dfy`: any number of overlapping Adds as a state machine; recency
  and eviction; how overlapping Adds of one ID store it twice, and how many of them it takes to fill a bucket with it.
- `Sections.dfy`: each locked section told by the places of IDs in the bucket; which event touched an ID last; whom a
  sequence of Adds pings.
- `RoutingTable.dfy`, `Node.dfy`: the routing table and the node as objects updated in place, with their loops.
- `Search.dfy`, `SearchRuns.dfy`, `Kept.dfy`, `Convergence.dfy`: iterative search as rounds; what every search keeps
  whatever the network answers; whom a round picks and keeps, counted; convergence to the nearest node on a network of complete tables.
- `World.dfy`: many nodes with tables and storages; the network hypothesis as an invariant, where values come from, and
  store-then-find.
- `Blob.dfy`, `Flow.dfy`: frames and their reassembly; backpressure and the low-buffer signal.
- `Doorbell.dfy`: offers, doorbells and answers over the table, and the poll loop with its goroutines.

The constants are the source's (K = 20, Alpha = 3, StoreK = 3, 20-byte keys, 256 KiB chunks, 8 MiB threshold).

How the outside world enters:

- A ping's outcome is an input of `Add` (`alive`, `pong`); a missing ping function counts as a failed ping, as in the code.
- A search is given its answers by a `Network` value: any answer to any query of any round. Completion order and the
  order the unstable sort leaves equal distances in are free.
- The goroutines of a round read `visited` while the spawning loop still writes it. A read of an ID that this round has
  yet to mark may go either way; the booleans `late` of a round record how it went.
- `IsNearest` names the node g closest to a target, the searcher not counted. The network hypothesis is `Healthy`: tables
  list only live nodes, and a bucket is empty only if no live node belongs in it. The steps of the code keep it, provided
  contacts are live nodes (`LiveHistory`). Where values come from is proved without that.
- One kind of search needs more: where the searcher is itself nearer to the target than all other live nodes (it is not
  `Outdone`), a queried node's table must not have the searcher's bucket filled with K = 20 copies of the searcher
  (`NotFlooded`). `HasRoom` says that one or the other holds, and it is the exact condition under which an answer brings
  the search forward. Uncrowded tables stay so while fewer than K Adds of one ID wait for their pings in one table at
  once (`IsOrderly`); with K of them a bucket can be filled with one ID. Store-then-find needs no such limit.
- While a search or a handler runs, the table serves other requests: any number of locked sections of other Adds come
  between its own, and during its pings. What other requests do to the storage before a handler gets to it is its input
  `meanwhile`.
- The doorbell's store returns any past write of a key. That is what `ReturnedValuesComeFromStores` proves of the table.
- No two hash preimages used by the peers collide (`GoodCodec`); the hash is not looked into.

## Model

| member | source | states |
|---|---|---|
| Keys.DistanceIsMetric | dht/key.go:35-39 | the distance is symmetric, zero exactly on equal keys, and obeys the triangle inequality |
| Keys.DistanceInjective | dht/key.go:35-39 | no two keys are equally far from a target |
| Keys.ValueOfXor | dht/key.go:35-39 | the distance is the big-endian number spelled by the bytewise exclusive or |
| Keys.DistanceOrder | dht/key.go:35-39 | comparing distances is comparing XORed bytes lexicographically |
| Keys.DistanceBound | dht/key.go:35-39 | distances are below 2^160 and have at most 160 bits |
| Keys.GapBetween | dht/key.go:35-39 | whatever lies between two keys in distance to a target shares the bits those two share |
| Keys.GapUltrametric | dht/key.go:35-39 | of three keys, no pair differs in a higher bit than both other pairs |
| Keys.SameBucketGap | dht/routing_table.go:26-32 | two keys of one bucket agree on the bit that put them there and all above it |
| Keys.BucketIndexIsSharedPrefix | dht/routing_table.go:26-32 | the index is i exactly when 2^i <= distance < 2^(i+1), exactly when the keys share 159 - i leading bits and no more |
| RoutingTables.RoutingTable.constructor | dht/routing_table.go:18-20 | a new table has the owner's ID and 160 empty buckets |
| RoutingTables.RoutingTable.BeginAdd | dht/routing_table.go:34-58 | the first locked section: refresh, append, or release the lock with the head of the full bucket as victim; capacity and placement kept |
| RoutingTables.RoutingTable.FinishAdd | dht/routing_table.go:60-80 | the second locked section on the bucket as it is by then: the victim, if still there, is moved or replaced |
| RoutingTables.RoutingTable.Add | dht/routing_table.go:34-81 | an undisturbed Add is both sections in a row; no bucket gets shorter |
| RoutingTables.RoutingTable.FindClosest | dht/routing_table.go:88-107 | the result is the front of some ascending permutation of all entries |
| Sections.BeginLaw | dht/routing_table.go:34-58 | the owner is ignored; a stored ID moves from its first place to the tail with its new contact data; a bucket with room gets the contact at its tail; a full one stays and its head is pinged; nothing else changes |
| Sections.FinishLaw | dht/routing_table.go:60-80 | a victim that is still there leaves its first place, and the tail gets it back if it answered, or the candidate if not; a victim that is gone changes nothing |
| Sections.LastTouchIs | dht/routing_table.go:43-80 | the last touch of an ID is the last event that stored it, refreshed it, or saw it answer its ping |
| Sections.AnsweredPingRefreshes | dht/routing_table.go:60-69 | in every interleaving an entry that answers its ping stands at the tail, last touched by that event |
| Sections.PingsTakeTurns | dht/routing_table.go:57-69 | while all answer, Adds to a full bucket ping its K entries in turn, each once before any is pinged again |
| Adds.StepKeepsInv | dht/routing_table.go:34-81 | one locked section keeps capacity, placement and the owner's absence, and shortens no bucket |
| Adds.RunKeepsInv | dht/routing_table.go:34-81 | so does any interleaving of any number of Adds with any ping results; non-empty buckets stay non-empty |
| Adds.StepKeepsUnique | dht/routing_table.go:43-78 | a step without an overlapping Add of the same ID keeps IDs unique and pending candidates absent |
| Adds.ExclusiveRunIsUnique | dht/routing_table.go:43-78 | if no two Adds of one ID are in flight together, no interleaving stores an ID twice |
| Adds.UniqueTable | dht/routing_table.go:43-78 | unique buckets make IDs unique in the whole table |
| Adds.RunIsUniqueIff | dht/routing_table.go:34-81 | a run, with whatever overlaps, keeps IDs unique throughout exactly when no second section finds its ping failed, its victim still there and its candidate added meanwhile |
| Copies.StepKeepsCopyInv | dht/routing_table.go:34-81 | with fewer than K Adds of an ID waiting at once, its copies and its waiting Adds together stay below K |
| Copies.RunIsNotFlooded | dht/routing_table.go:34-81 | so no run of overlapping Adds within that limit fills a bucket with one ID |
| Copies.LimitIsSharp | dht/routing_table.go:34-81 | from every table with a full bucket, K waiting Adds of one absent ID can fill the bucket with it |
| Copies.FloodedAnswer | dht/routing_table.go:88-107 | a node with such a bucket names nobody else for any target that belongs in it |
| Adds.FinishKeepsUniqueIff | dht/routing_table.go:60-80 | the second section breaks uniqueness exactly when its ping failed, its victim is still there, and its candidate was added meanwhile |
| Overlap.OverlapDuplicates | dht/routing_table.go:34-81 | from every table with a full bucket, two overlapping Adds of one absent ID can both append it |
| Overlap.FullTableExists | dht/routing_table.go:34-81 | a concrete table and node with which that happens |
| AddHistory.BucketsAreOrderedByTouch | dht/routing_table.go:43-80 | in every interleaving each bucket is ordered by the step that last touched the entry |
| AddHistory.StampsAreTouches | dht/routing_table.go:43-80 | in every interleaving that step stored exactly this entry in this bucket, and for the last entry of an ID it is the last step that touched the ID |
| AddHistory.StampIsLastTouch | dht/routing_table.go:43-80 | so without overlapping Adds of one ID it is, for every entry, the last step that stored or refreshed its ID |
| AddHistory.EvictionIsFair | dht/routing_table.go:57-80 | an ID leaves a bucket only where an Add finishes that itself saw it at the head of the full bucket, for an absent candidate, and whose ping failed |
| AddHistory.SerialAddIsARun | dht/routing_table.go:34-81 | one Add at a time is an interleaving of the state machine |
| AddHistory.SerialAddKeepsInv | dht/routing_table.go:34-81 | one Add at a time keeps capacity, placement and unique IDs |
| AddHistory.SerialAddMembership | dht/routing_table.go:43-80 | exactly which IDs remain: a full bucket keeps its set when its head answers and trades the head when it does not |
| Closest.FindClosestIsBest | dht/routing_table.go:88-107 | min(count, total) entries, ascending, counted with multiplicity, and no omitted entry is nearer than a returned one |
| Closest.FindClosestIsCanonical | dht/routing_table.go:88-107 | with unique IDs scan order and unstable sort do not show, and omitted entries are strictly farther |
| Closest.FindClosestOne | dht/logic.go:96-99 | asked for one node, the answer carries the ID asked for exactly when the table lists it |
| Closest.BucketRadius | dht/routing_table.go:26-32 | the target's own bucket is the ball of radius 2^i around it, all other entries lie outside |
| Closest.BucketLocality | dht/routing_table.go:88-107 | if the target's bucket can fill the answer, the whole answer comes from it |
| Nodes.Node.ObservePeer | dht/node.go:51-60 | a request with a sender makes one Add for it, with any locked sections of other Adds during its ping, and one without leaves the table alone |
| Nodes.Node.OnStore | dht/node.go:62-66 | after the sender was observed exactly the one key is bound to the value, in the storage as other requests have left it by then |
| Nodes.Node.OnFindNode | dht/node.go:68-71 | after the sender was observed and others were served, the K closest entries of the table as it is then |
| Nodes.Node.OnFindValue | dht/node.go:73-83 | after the sender was observed and others were served, the stored value if there is one, otherwise the K closest entries, an empty list standing for not found |
| Nodes.ObservedAlone | dht/node.go:51-60 | a request that nothing interrupts leaves the table as one undisturbed Add does |
| Nodes.Node.BlobPeer | dht/logic.go:96-101 | a peer is chosen exactly when the table lists the blob's node, and it is that node |
| Nodes.PickUnvisited | dht/logic.go:133-144 | the first Alpha entries whose IDs are not visited |
| Nodes.QueryAll | dht/logic.go:146-194 | whatever order the answers are taken in, the nodes kept are those of all answers, as a multiset, no node kept is the searcher or was visited, the search's own Adds are of every node named and of no other, among any Adds of others, and a value found is one that was answered |
| Kept.PickedInOrder | dht/logic.go:133-144 | a round queries the first unvisited entries in the order of the list, leaving none out, as many as the limit allows |
| Kept.GatheredCount | dht/logic.go:175-190 | of all answers of a round a node is kept as often as it was named, never if it is the searcher or was visited before, and at most as often if it is queried in this round |
| Kept.VisitedDoNotMultiply | dht/logic.go:184-203 | once an ID is visited, the list never again has more entries with it |
| Kept.SeedIsAnswer | dht/logic.go:110-124 | the first list is the whole answer of the searcher's own table and covers every entry of it |
| Kept.TableStaysCovered | dht/logic.go:110-203 | every entry of the searcher's own table stays covered at every round head |
| Nodes.IterativeSearch | dht/logic.go:104-210 | the search always returns, fails for want of peers exactly on an empty table, is cancelled exactly when the context has ended at the head of its last round, and otherwise returns what a run of rounds on the network's answers ends with; a run of Adds leads to the searcher's table, among them the search's own, of exactly the nodes those answers named |
| Nodes.Node.AddContact | dht/routing_table.go:34-81 | one Add of a contact, with any locked sections of other Adds before its second one |
| Nodes.TaughtKeeps | dht/logic.go:179-184 | what a search and others meanwhile do to the searcher's table breaks no invariant and shortens no bucket |
| Nodes.TaughtAloneKeepsUnique | dht/logic.go:179-184 | if no other Add comes in between, a search stores no ID twice |
| Nodes.TaughtAreLive | dht/logic.go:175-184 | on a healthy network a search Adds only live nodes, never the searcher |
| Nodes.OutcomeIsNearest | dht/logic.go:104-210 | on a healthy network the list the search returns has the nearest node first, also when it is cancelled after 160 rounds |
| Nodes.StoreValue | dht/logic.go:30-48 | one STORE of the value goes to each of the first min(3, length) nodes of the lookup's final list, also when it was cancelled; no listed node left out is nearer to the key than one stored at |
| Nodes.FindValue | dht/logic.go:71-77 | local storage first, leaving the table alone, otherwise the outcome of the search; a value returned was answered, and not found means that no query of any round was answered with a value |
| Nodes.FindValueReturnsStored | dht/logic.go:71-77 | so the FindValue method's own result is the value, for every network that answers truthfully and does not cancel |
| SearchRuns.BestKnown | dht/logic.go:110-203 | at every round head the list is sorted, at most K long, without the searcher, and covers every ID ever seeded or named: it holds the ID, or is full of IDs no farther |
| SearchRuns.HeadIsNearestLearned | dht/logic.go:196-203 | the head is a nearest node among all ever learned |
| SearchRuns.FullStaysFull | dht/logic.go:196-203 | merging, sorting and cutting a full list leaves a full list whose last entry is no farther |
| SearchRuns.RoundVisitsMore | dht/logic.go:133-155 | each round visits a new ID |
| SearchRuns.RoundsAreBounded | dht/logic.go:126-155 | rounds are bounded by the IDs visited, those by the IDs learned, those by 2^160 |
| SearchRuns.NeverQueriedAgain | dht/logic.go:133-155 | no ID is queried in two different rounds |
| SearchRuns.StopsWhenAllVisited | dht/logic.go:133-144 | the loop ends exactly when every entry of the list has been queried |
| Convergence.StepKeepsComplete | dht/routing_table.go:34-81 | a step of Add with a live contact keeps a complete table complete |
| Convergence.AnswerImproves | dht/node.go:68-83 | the answer of a node other than g, whose table has room, names, besides the searcher, someone sharing more bits with g than that node does |
| Convergence.AnswerImprovesIff | dht/node.go:68-83 | it does so exactly when its table has room |
| Convergence.NoRoomNoAnswer | dht/node.go:68-83 | flooded with a searcher nearer to the target than all others, a table names the searcher and nobody else, wherever the target lies |
| Convergence.CrowdedSearchFails | dht/logic.go:128-204 | a search in which no queried table has room never lists anyone its own table did not list |
| Convergence.RoundConverges | dht/logic.go:128-204 | each round brings the head strictly nearer to g in shared bits, until it is g, and then it stays |
| Convergence.SearchConverges | dht/logic.go:128-204 | after n rounds the head is g or shares at least n bits more with g than at first |
| Convergence.SearchFindsNearest | dht/logic.go:104-210 | within as many rounds as the first head and g differ in bits, at most 160, the head is g; it stays g; a search that stops has g first and has asked it |
| World.StepKeepsHealthy | dht/node.go:51-83 | the network hypothesis is an invariant of every table and storage step of every node, however Adds overlap |
| World.StepKeepsUncrowded | dht/node.go:51-60 | so is the bound on copies of one ID, Adds of one ID overlapping within the limit |
| World.CalmNodeIsHealthy | dht/routing_table.go:34-81 | complete tables satisfy that hypothesis to begin with, and that bound if their IDs are unique |
| World.SeedsExist | dht/logic.go:110-124 | on a network of two or more nodes a search always has someone to ask |
| World.SearchEndsAtNearest | dht/logic.go:104-210 | a search that ends, its answers given by the network as it was when they were made, ends with the nearest node first; however Adds overlap, unless the searcher is nearest of all |
| World.StoreThenFind | dht/logic.go:30-77 | however Adds overlap: once A's stores are delivered, FindValue at any node returns the value, from storage or from the search, which cannot end with not found |
| World.StorageIsLastWrite | dht/node.go:62-66 | in every history a node holds for a key what was put there last, unless it was deleted since |
| World.StoringIsOpen | dht/node.go:62-83 | every live node takes what was asked to be stored, and is then asked for it with success until it is deleted |
| World.ValuesComeFromStores | dht/node.go:62-83 | in every history, whatever the Adds do, any stored value was the argument of an earlier StoreValue for its key |
| World.ReturnedValuesComeFromStores | dht/logic.go:175-194 | in every history any value a search returns was the argument of an earlier StoreValue for its key |
| World.SearchAsksNearest | dht/logic.go:126-209 | a search that ends with not found has asked the nearest node, which did not hold the value then |
| Blob.SendBlobChunked | transport/webrtc/webrtc.go:76-97 | the frames go out in order, all of them or those before the first refused one |
| Blob.FrameShape | transport/webrtc/webrtc.go:81-94 | ceil(length / chunk) frames, each with the request's identifier, only the last one flagged |
| Blob.PeerConn.OnBlobMsg | transport/webrtc/webrtc.go:404-434 | a short frame or one for an unknown ID changes nothing; another extends its own request only; no request is opened or closed |
| Blob.UnflaggedGather | transport/webrtc/webrtc.go:421-427 | frames whose flag is not 1 gather their payloads in order and complete nothing |
| Blob.FlaggedCompletes | transport/webrtc/webrtc.go:421-427 | a flagged frame completes all that was gathered and its own payload, if that is anything, and starts over |
| Blob.ChannelKeepsFirst | transport/webrtc/webrtc.go:428-433 | the waiting channel keeps the first whole blob; later ones are dropped |
| Blob.RequestsAreIndependent | transport/webrtc/webrtc.go:404-434 | what a request ends up with depends on its own frames alone |
| Blob.FramesReassemble | transport/webrtc/webrtc.go:76-97 | receiving a blob's frames in order completes it at the last frame and at no other |
| Blob.BlobsReassemble | transport/webrtc/webrtc.go:404-434 | under any interleaving of any number of blobs and foreign frames each non-empty blob is delivered exactly once, as its own bytes; an empty one never |
| Blob.PeerConn.FetchBlob | transport/webrtc/webrtc.go:525-551 | fed with its own blob's frames among any others it returns that blob, and nothing for an empty one; its request is gone afterwards and the others are as their frames left them |
| Flow.BackpressureBound | transport/webrtc/webrtc.go:77-95 | m concurrent senders never buffer more than the threshold and one frame each |
| Flow.BoundIsReached | transport/webrtc/webrtc.go:77-95 | that bound is reached, for every number of senders |
| Flow.CheckClearsIff | transport/webrtc/webrtc.go:78-80 | a sender may send after a check exactly when the check found the buffer at or below the threshold |
| Flow.ClearedIff | transport/webrtc/webrtc.go:77-95 | in every run a sender may send exactly when its last move was such a check |
| Flow.BufferedIsConserved | transport/webrtc/webrtc.go:77-95 | in every run what is buffered is what was sent and has not drained |
| Flow.FramesFit | transport/webrtc/webrtc.go:81-90 | the frames sent obey the size that bound assumes |
| Flow.OneSenderBound | transport/webrtc/webrtc.go:77-95 | one sender sends only at or below the threshold and overfills the buffer by one frame at most |
| Flow.SenderBooks | transport/webrtc/webrtc.go:167-172 | a callback is due for each crossing not yet handled, the slot is taken exactly when a callback ran after the last wakeup, and the buffered amount is conserved |
| Flow.NoLostWakeup | transport/webrtc/webrtc.go:167-172 | a blocked sender with no signal and no callback under way implies a buffer above the threshold |
| Flow.DrainingReleases | transport/webrtc/webrtc.go:77-80 | under every schedule: once drained to the threshold the buffer stays down until the sender may send, which takes at most the callbacks due and two more steps, and one of them can always be taken |
| Doorbell.PreimagesDiffer | transport/webrtc/signaling.go:314-326 | offer, answer and doorbell preimages of different kinds or different peers differ |
| Doorbell.PollerStaysExclusive | transport/webrtc/signaling.go:349-412 | each step keeps processing equal to the set of claimed callers, each claimed once |
| Doorbell.ClaimsAreExclusive | transport/webrtc/signaling.go:349-412 | in every interleaving handler runs for one caller never overlap |
| Doorbell.AllReleased | transport/webrtc/signaling.go:376-412 | no path forgets to release: with the loop idle and no goroutine left nothing is claimed |
| Doorbell.OfferCanBeAnswered | transport/webrtc/signaling.go:349-437 | from every state in which B's loop is idle and has no claim on A, a run leads from A's offer and ring over B's reading, handler and storing to the answer under the key A reads, with the bell cleared and A released |
| Doorbell.OtherPathsRelease | transport/webrtc/signaling.go:376-412 | skipping, giving up and a failed handler write nothing, release the caller they had claimed, and touch no other poller |
| Doorbell.AnswersFollowOffers | transport/webrtc/signaling.go:417-451 | of any answer a caller reads: this caller stored an offer for this callee, later the handler of one of that callee's goroutines, run on this offer, answered this, and later still the same goroutine stored it |
| Doorbell.RecordsAreHistory | transport/webrtc/signaling.go:344-451 | every recorded offer and run was made by a step of the history |

## Left out

- Sockets, TLS, STUN, ICE, SDP, data-channel set-up, websockets, HTTP: RPCs are answers given from outside, the data channel is ordered and reliable.
- JSON, hexadecimal key text, SHA-1, SHA-256 and randomness: request IDs are distinct and used hash preimages do not collide.
- Timers, RPC timeouts and the age limit of offers: they are free choices.
- Memory and disk storage: a map from keys to values; blob files are not modelled, of `FetchBlob` the choice of the peer and the wait for the frames are.
- `Bootstrap`, `StoreBlob`, the central, direct and hybrid signalers, `rpcPending`: they add only easy members.
- Uniqueness of IDs in a search's result, and exactly the K closest nodes: the code promises neither, since new nodes are not compared with the list or with one another.
- World.StoreThenFind: says nothing when the storing node is itself the closest one, because the code does not store at the caller.
- World.StepKeepsHealthy: assumes that contacts are live; `Nodes.TaughtAreLive` shows that searches bring in live contacts only, and senders of requests are live.
- World.SearchEndsAtNearest: for a searcher nearer to the target than all others it assumes that fewer than K Adds of one ID wait at once in one table; `Copies.LimitIsSharp` shows what K of them can do and `Convergence.CrowdedSearchFails` what becomes of the search.
- Nodes.IterativeSearch: of the requests the searcher serves meanwhile only what they do to the routing table is part of it, because the search reads its own storage before it begins and not again.
- Nodes.StoreValue: the STOREs are listed in the order of their targets, because they run side by side and none depends on another; their delivery is a step of `World`.
- Doorbell.ClaimsAreExclusive: is about values of the `processing` map between atomic steps, not about a map updated in place, because the loop and its goroutines interleave.
- Flow.NoLostWakeup: is for one sender; several senders share the one signal slot, and the code does not promise each of them a wakeup.
- Go's detection of concurrent map access, which could stop the program when `visited` is read and written at once.
