# Distributed in-memory counter: a verified model of one node

This project models the node logic of a small peer-to-peer service, written in
Go. Every node keeps a replicated counter and a view of the cluster:
- alive peers and dead peers;
- missed operations per peer;
- operation ids it has already applied;
- a pool of connections.

It models three things:

1. **Membership.** The bootstrap registers the node transitively with every
   peer it learns of. The heartbeat failure detector probes peers with
   bounded retries and moves them between the alive and dead lists. Healing a
   peer runs the registered recovery actions.
2. **Replication.** An increment is queued locally and broadcast to every
   alive peer. A failed delivery is buffered in the missed-op queue and
   resent when the peer heals. A node joining the cluster takes the maximum
   of its counter and its peers' counters.
3. **Port arithmetic.** The HTTP port is derived from the gRPC port.

## How the code becomes Dafny

**The node record.** `Models.Server` is a class whose fields the handlers
update in place.
- The unbuffered increment channel becomes an explicit FIFO of op ids already
  handed to the consumer and not yet applied.
- Each locked region is one atomic step.

**The failure detector.** Its package-level state is the class
`Heartbeat.Detector`: the per-peer table and the ordered list of recovery
actions.

**Remote calls.** The outcome of every remote call is an input of the method
that makes it:
- in the node's handlers, the broadcast, the resend and the heartbeat, a dial
  attempt yields `Option<Conn>` and an RPC yields a `bool` or an `Option` of
  its reply; these inputs are indexed by the position of the call in the loop
  that makes it;
- in the bootstrap, `dialOk(a)` says whether dialing address `a` succeeds and
  `register(a)` is its Register reply, both indexed by address;
  `counterReply(a)(k)` is indexed by address and then by the position of the
  returned peer. Indexing by address is sound because the visited set makes
  every address dialed at most once per StartClient.

**Specifications.** Most loops are methods proved equal to a recursive
specification function of their inputs, and lemmas state what those
functions mean. The loops of the heartbeat round and of the bootstrap walk
are proved against properties instead: what each probes or visits, and
what stays invariant. The lemmas say, among other things:
- queues grow by exactly one op per failed peer;
- the resend keeps exactly the ops that did not get through;
- the sync takes a maximum;
- the probe list includes every peer held dead;
- Atoi inverts the decimal formatting.

Module per source file:

| module | file | what it holds |
|---|---|---|
| `Arrays` | `arrays.dfy` | lib/arrays |
| `Models` | `server.dfy` | models/server.go, plus the ledger of counter, seen ops and channel |
| `CounterSync` | `sync.dfy` | counter/sync |
| `Increment` | `increment.dfy` | counter/increment |
| `Resend` | `resend.dfy` | counter/resend |
| `Heartbeat` | `heartbeat.dfy` | discovery/heartbeat, and the in-place part of discovery/reconnect |
| `Client` | `client.dfy` | discovery/client |
| `Web` | `web.dfy` | ComputeHTTPPort, the channel consumer and the `/increment` handler of web/web.go |
| `Wrappers` | `wrappers.dfy` | `Option` and `Result` |

## Notes on the code

- **Counter sync during bootstrap.** The bootstrap calls GetCounter on the
  client of the address it has just registered with, once for each returned
  peer that is not yet alive (discovery/client/client.go:46-49). It does not
  call the returned peer itself.
  - `Client.JoinedCounter` therefore reads the replies of the registered
    address.
- **Ports.** An unparsable gRPC port stops the process (web/web.go:70-73).
  - `Web.ComputeHTTPPort` returns a `Failure` for it.

The following are properties of the code, not general invariants:
- **Register can duplicate a peer across lists.** Register consults only the
  alive list (models/server.go:63-65). A dead peer that registers again is
  then in both lists.
- **Healing can duplicate a peer in the alive list.** Healing appends to the
  alive list without a duplicate check
  (discovery/heartbeat/heartbeat.go:115).
- **Disjointness is preserved, not global.** Disjointness of the two lists is
  therefore proved as a property each heartbeat transition preserves.

## Model

| member | source | states |
|---|---|---|
| Arrays.Contains | lib/arrays/arrays.go:3-10 | the result is true exactly when the item occurs in the slice |
| Arrays.AppendUnique | lib/arrays/arrays.go:11-23 | the result is the reference de-duplicating append `AppendedUnique`: the input is an unchanged prefix and the members are those of the slice and the items |
| Arrays.AppendedUniqueIsFresh | lib/arrays/arrays.go:16-21 | what is appended is exactly the items absent from the slice and from earlier items, in first-occurrence order |
| Arrays.AppendedUniquePresent | lib/arrays/arrays.go:16-21 | items already present append nothing |
| Arrays.AppendedUniqueIdempotent | lib/arrays/arrays.go:16-21 | appending the same items a second time changes nothing |
| Arrays.AppendedUniqueNoDup | lib/arrays/arrays.go:12-21 | a duplicate-free slice stays duplicate-free |
| Arrays.AppendedUniqueConcat | lib/arrays/arrays.go:11-23 | appending `xs ++ ys` is appending `xs` and then `ys`, which is how the bootstrap's two appends compose |
| Arrays.AppendedUniqueOne | lib/arrays/arrays.go:11-23 | appending one item is "append unless present" |
| Arrays.Remove | lib/arrays/arrays.go:25-33 | the result is the reference filter `Without`: no occurrence of the target remains and every other element is kept in order |
| Arrays.Without | lib/arrays/arrays.go:25-33 | the filter is no longer than its input and holds exactly the elements other than the target |
| Arrays.WithoutCounts | lib/arrays/arrays.go:27-31 | every element other than the target keeps its multiplicity, and the target's becomes zero |
| Arrays.WithoutAbsent | lib/arrays/arrays.go:27-31 | removing an absent target returns the input unchanged |
| Arrays.WithoutIdempotent | lib/arrays/arrays.go:27-31 | removing twice is removing once |
| Arrays.WithoutNoDup | lib/arrays/arrays.go:25-33 | removal keeps a duplicate-free slice duplicate-free |
| Arrays.WithoutConcat | lib/arrays/arrays.go:25-33 | removal distributes over concatenation |
| Arrays.NoDupConcat | discovery/client/client.go:19-26 | two duplicate-free lists with nothing in common concatenate without duplicates, which is how the walks of different addresses compose under one visited set |
| Models.Server.constructor | models/server.go:110-117 | a new node knows only itself: alive list `[id]`, no dead peers, counter 0, nothing seen, queued or pooled |
| Models.Server.Register | models/server.go:56-69 | the requester is appended iff absent from the alive list (dead list not consulted); the reply is alive then dead peers after the update |
| Models.WithPeer | models/server.go:63-65 | the alive list after Register keeps the old list as a prefix, contains the requester and nothing else new |
| Models.RegisterIdempotent | models/server.go:63-65 | registering twice equals registering once, and equals the de-duplicating append of the requester |
| Models.Server.GetPeers | models/server.go:72-76 | the reply is alive then dead peers; nothing changes |
| Models.Server.Heartbeat | models/server.go:79-82 | always answers alive; nothing changes |
| Models.Server.GetCounter | models/server.go:104-108 | the reply is the counter; nothing changes |
| Models.Server.PropagateIncrement | models/server.go:84-102 | always succeeds; a seen op id leaves the channel unchanged, an unseen one is queued exactly once; on the ledger it is `Receive` |
| Models.Server.GetOrCreateConnection | models/server.go:28-53 | a pooled connection is returned with no dial and no change; otherwise 1 to 5 dials are made, the first success is pooled under the peer, and after five failures None is returned with the pool unchanged |
| Models.DialWithRetry | models/server.go:38-52 | at most five attempts, stopping at the first success; every earlier attempt failed; the sleeps are 1, 2, ... seconds, one per failure |
| Models.SettleApplies | web/web.go:51-56 | once the consumer has caught up, the channel is empty, the counter has risen by the number of queued ops, and all of them are seen |
| Models.CounterMonotone | models/server.go:92-96 | the handler never changes the counter, and the consumer never lowers it |
| Models.RepeatedDeliveryCountsOnce | models/server.go:92-96 | delivering one op id n >= 1 times in sequence, with the consumer applied each time, raises the counter by exactly one if the id is new and by zero otherwise |
| Models.SeenDeliveryIsNoop | models/server.go:92-94 | delivering an already seen op id any number of times changes nothing |
| Models.UnsettledDeliveryCountsTwice | models/server.go:92-96 | the handler checks only applied ids: two deliveries of an unseen op id before the consumer runs queue it twice, and settling raises the counter by two for it |
| CounterSync.SyncCounterFromPeer | counter/sync/sync.go:11-30 | only the counter changes, and it becomes `Synced` of the old value and the reply |
| CounterSync.Synced | counter/sync/sync.go:17-29 | on a reply, the result is the larger of local and remote; on an error, it is the local value; it never decreases |
| CounterSync.SyncIdempotent | counter/sync/sync.go:26-29 | syncing twice with the same reply is syncing once |
| CounterSync.JoinAtFour | counter/sync/sync_test.go:84 | a fresh node syncing from a peer at 4 reads 4 |
| Increment.QueueMissedOp | counter/increment/increment.go:34-41 | the op id goes to the end of the peer's queue (created if absent), and every other entry is kept |
| Increment.DeliverTo | counter/increment/increment.go:19-30 | one call over the pooled or freshly dialed connection; the op is queued for the peer exactly when there is no connection or the call fails |
| Increment.PropagateIncrement | counter/increment/increment.go:11-32 | over a snapshot of the alive list, the node itself skipped: position i is delivered iff it is another node, has a connection and its call succeeds; the missed-op map is `QueueFailures` of the outcomes; only the queues and the pool change |
| Increment.QueueFailuresAt | counter/increment/increment.go:25-29 | each peer's queue after the broadcast is its old queue followed by one op id per failed position of that peer |
| Increment.QueueFailuresKeys | counter/increment/increment.go:37-40 | a peer has a queue afterwards iff it had one or one of its positions failed |
| Increment.QueueFailuresPrefix | counter/increment/increment.go:14-31 | outcomes of later positions do not affect the queues built so far |
| Increment.NeverQueuesSelf | counter/increment/increment.go:15-17 | the node's own id is never counted as a failure |
| Increment.DeliveredNotCounted | counter/increment/increment.go:25-29 | a peer all of whose positions were delivered gains nothing |
| Increment.FailedCountedOnce | counter/increment/increment.go:25-29 | in a duplicate-free snapshot each failed peer is counted exactly once |
| Increment.BroadcastQueues | counter/increment/increment.go:25-40 | per broadcast, each failed peer gets the op id appended exactly once at the end of its queue; delivered peers and the node itself keep their queues |
| Increment.DeliveriesAt | counter/increment/increment.go:15-29 | the delivery outcomes, position by position: not self, connected and the call succeeded |
| Increment.PoolAfterGrows | models/server.go:28-45 | the broadcast only adds connections: existing ones are kept as they were, and the new keys are exactly the peers dialed successfully |
| Resend.Execute | counter/resend/resend.go:15-44 | one call per op of the snapshotted queue; an empty queue means no call and no change; afterwards the queue is the snapshot without the ops that got through, and other peers' queues are untouched |
| Resend.SendSnapshot | counter/resend/resend.go:29-43 | op i gets through iff there is a connection and its send succeeds; each op that gets through is removed from the queue |
| Resend.ResentMembers | counter/resend/resend.go:29-43 | the ops removed are exactly those at positions whose send succeeded |
| Resend.ResentPrefix | counter/resend/resend.go:29-43 | later outcomes do not affect earlier removals |
| Resend.KeepMembers | counter/resend/resend.go:34-42 | an op remains queued iff it was queued and none of its sends succeeded |
| Resend.KeepCounts | counter/resend/resend.go:34-42 | the ops that remain keep their multiplicity; the removed ones have none |
| Resend.KeepStep | counter/resend/resend.go:41 | one more `Remove` equals keeping with one more op gone |
| Resend.KeepNothing | counter/resend/resend.go:16-18 | with nothing sent, the queue is the snapshot |
| Resend.KeepAllGone | counter/resend/resend.go:40-42 | when every op is gone, nothing is kept |
| Resend.AllResentEmpties | counter/resend/resend_test.go:74 | when every resend succeeds, the queue ends empty |
| Heartbeat.Detector.constructor | discovery/heartbeat/heartbeat.go:20-24 | the table and the recovery-action list start empty |
| Heartbeat.Detector.RegisterRecoveryAction | discovery/heartbeat/heartbeat.go:35-39 | actions are appended, so they run in registration order |
| Heartbeat.Detector.BuildProbeList | discovery/heartbeat/heartbeat.go:45-54 | the probe list is alive ++ dead ++ the peers held dead that neither list has, in table order |
| Heartbeat.DeadExtras | discovery/heartbeat/heartbeat.go:50-54 | the extra peers are in the table, held dead and not yet listed |
| Heartbeat.DeadAreProbed | discovery/heartbeat/heartbeat.go:45-54 | every peer the table holds dead is on the probe list |
| Heartbeat.Detector.EnsureState | discovery/heartbeat/heartbeat.go:61-64 | a probed peer without an entry gets failures 0 and dead false; an existing entry is kept |
| Heartbeat.ProbeWithRetry | discovery/heartbeat/heartbeat.go:87-100 | 1 to 5 attempts, stopping at the first success; success iff one of the five attempts succeeds; sleeps of 1, 2, 4, ... seconds after each failure |
| Heartbeat.Detector.CheckHeartbeat | discovery/heartbeat/heartbeat.go:72-103 | without a connection nothing changes for the round; otherwise the probe's success decides the transition of `HandleHeartbeatResult`; disjoint lists stay disjoint |
| Heartbeat.Detector.HandleHeartbeatResult | discovery/heartbeat/heartbeat.go:105-137 | success resets failures, and on a dead peer clears the flag, appends to alive, removes from dead and runs the recovery actions; failure adds one failure, and on an alive peer sets the flag, removes from alive, appends to dead and evicts the connection; cases that do not flip the flag leave lists, queues and pool unchanged; disjointness is preserved |
| Heartbeat.Detector.RunRecoveryActions | discovery/heartbeat/heartbeat.go:118-121 | the actions run in registration order; Reconnect changes nothing in place, Resend flushes the queue; the pool is unchanged |
| Heartbeat.RecoveredOnlyDrops | discovery/heartbeat/heartbeat.go:118-121 | recovery never adds an op to the healed peer's queue |
| Heartbeat.StandardRecoveryFlushes | discovery/client/client.go:69-71 | with the bootstrap's Reconnect-then-Resend order and every resend succeeding, a heal leaves the queue empty |
| Heartbeat.Detector.Round | discovery/heartbeat/heartbeat.go:44-66 | every peer of the probe list except the node itself is probed once, in order, and gets a table entry; disjoint lists stay disjoint |
| Heartbeat.CloseConnection | discovery/heartbeat/heartbeat.go:139-146 | the peer's pooled connection is evicted and nothing else changes |
| Client.SyncFromResponse | discovery/client/client.go:45-50 | only the counter changes; it is merged with one reply per returned peer not already alive |
| Client.JoinedCounterIsMax | discovery/client/client.go:45-50 | the merged counter is at least the local value and every reply for a new peer, and it equals one of them |
| Client.JoinWith | discovery/client/client.go:45-56 | after a successful registration the alive list is the de-duplicating append of the address and then the reply; the old list is a prefix and no duplicate is introduced |
| Client.LearnedChain | discovery/client/client.go:52-61 | two successive growths of the alive list compose: what each added was learned from its address set, so the total was learned from their union |
| Client.JoinedGrows | discovery/client/client.go:52-56 | a joined address stays joined as the alive list grows |
| Client.ConnectAndRegister | discovery/client/client.go:22-62 | self, empty and visited addresses change nothing and are never dialed; a failed dial or Register only marks the address visited; `walked` lists the addresses dialed, each once, never self or empty, and they are exactly the newly visited ones; after success the address and every returned peer are alive, for every address walked; every peer returned to a newly visited address, other than self and empty, ends up visited; the alive list grows by exactly the old peers plus the newly visited addresses whose registration succeeded and their replies; old list a prefix, no duplicates introduced, counter never lower |
| Client.StartClient | discovery/client/client.go:18-73 | the pool is reset; every initial address other than self and empty is dialed; across the whole run `walked` has no duplicate, so each address is processed at most once, and self and empty are never dialed; every walked address is joined; the walked set is closed under successful replies, so every peer any walked address returned, other than self and empty, is walked too; every new alive peer is a walked address whose registration succeeded or a peer one of them returned; then Reconnect and Resend are registered in that order |
| Client.WalkReturned | discovery/client/client.go:58-61 | each returned peer is walked in turn with the shared visited set: every one other than self and empty ends up visited, and so does every peer returned to an address visited on the way; every new alive peer is a newly visited address whose registration succeeded or a peer one of them returned; the addresses dialed are exactly the newly visited ones, each once; the alive list only grows and every newly visited address is joined |
| Web.ComputeHTTPPort | web/web.go:68-75 | the result is an error exactly when the port after the optional colon does not parse; otherwise it is a colon followed by a numeral that parses back to the port plus 1000, wrapped to 64 bits |
| Web.HTTPPortRoundTrip | web/web.go:68-75 | the result is ":" and the decimal form of port + 1000, with or without the colon, and it parses back to that value |
| Web.DefaultPort | counter/increment/increment_test.go:45 | port 8080 gives ":9080" |
| Web.ColonOptional | web/web.go:69 | a leading colon does not change the result |
| Web.NonNumericRejected | web/web.go:70-73 | input that is not a numeral after the colon is an error |
| Web.AtoiItoa | web/web.go:70-74 | parsing inverts decimal formatting on the 64-bit range |
| Web.AtoiAcceptsNumerals | web/web.go:70 | parsing succeeds only on an optional sign followed by digits, and on such a numeral its only error is "value out of range" |
| Web.DigitsRoundTrip | web/web.go:74 | reading back a number's digits gives the number |
| Web.Wrap64 | web/web.go:74 | the addition wraps to the 64-bit range, congruent modulo 2^64, and is exact inside it |
| Web.ApplyIncrement | web/web.go:52-55 | the oldest queued op is marked seen and the counter rises by exactly one |
| Web.DrainIncrements | web/web.go:51-56 | the consumer applies every queued op in order: the counter rises by the queue length and all queued ids are seen |
| Web.HandleIncrement | web/web.go:28-40 | the local op is queued for the consumer first, then broadcast: position i is delivered iff it is another node, has a connection and its call succeeds; the missed-op map and the pool are those of Increment.PropagateIncrement |

## Left out

- gRPC transport: dialing, RPC stubs, message encoding and closing a connection. Each call is an outcome input, and an open connection is an opaque handle.
- Timeouts, sleeps and the 5-second heartbeat period are timing only. Backoff sleeps are returned as sequences of seconds.
- Goroutines, mutexes and the blocking of the unbuffered channel are concurrency. Each locked region is one atomic step, and the channel is a FIFO.
- Races: the model does not represent these races of the code:
  - `/count` reading the counter without the lock;
  - the monitoring loop reading the alive list and the table without locks;
  - closeConnection taking the detector's mutex, not the node's.
- The race between the handler's check of seen ops and the consumer's unlocked write (models/server.go:92-96, web/web.go:52-55) is represented, because the handler consults only the applied ids. `Models.UnsettledDeliveryCountsTwice` shows its effect: two deliveries of one unseen op id before the consumer runs count it twice.
- The aliasing of `append(s.Peers, s.DeadPeers...)` in the Register and GetPeers replies: the reply is a fresh sequence.
- The HTTP server, the `/peers` and `/count` handlers, JSON and uuid generation are read-only I/O. Op ids are parameters.
- The `Partitioned` field is never read or written by the code, so the record leaves it out.
- Nil maps: NewServer leaves the connection pool nil (models/server.go:110-117), and the model reads every nil map as empty. StartClient replaces it with an empty map (discovery/client/client.go:20). A GetOrCreateConnection made before that would panic in Go when it writes to the nil map (models/server.go:42). The model does not represent that panic: the write succeeds.
- main.go is not part of this model. It parses flags and builds the record without NewServer.
- Logging everywhere.
- Reconnect's Heartbeat and Register calls have no effect on the node's state. Reconnect is modelled as GetOrCreateConnection alone.
- The counter's int64 overflow: the counter is an unbounded integer.
- A call through a missing connection: when GetOrCreateConnection returns nil, the broadcast still builds a client and calls through the nil connection (counter/increment/increment.go:20-25). In Go that dereferences a nil `*grpc.ClientConn` and panics, which aborts the rest of the broadcast, and nothing is queued for that peer. The model instead treats the call as failed and queues the op, which is the model's choice, not the code's. Resend's send loop over a missing connection is treated the same way, every send failing.
- Heartbeat.Detector.Round: the infinite loop of MonitorHeartbeats is one call of Round. The iteration order of the table is the parameter `order`.
- Heartbeat.Detector.Round: the final table values and lists are not stated. The contract states only what the round probes, the table's new keys and disjointness. Each probe's effect is given by CheckHeartbeat.
- Heartbeat.Detector.CheckHeartbeat: the pool after a successful dial on a heal, or on a no-change probe, is not stated.
- Client.ConnectAndRegister, Client.WalkReturned and Client.StartClient: the order of the final alive list and the exact final counter are not stated, because they depend on the order of the depth-first walk. The contracts state which peers the list holds, from both sides: every joined address and its reply are in it, and nothing else new is. They also state the prefix, no-duplicate and counter lower-bound properties.
- Client.ConnectAndRegister: termination rests on a finite address universe closed under registration replies. The ghost parameter `universe` stands for it.
- Client.ConnectAndRegister: closing the dialed connection at the end of the walk is left out.
- Web.ComputeHTTPPort: the fatal exit on an unparsable port is a `Failure` result. The resulting port is not range-checked, as in the code.
