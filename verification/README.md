# Presence and offline delivery of a P2P chat relay, in Dafny

The relay keeps three in-memory maps, all inside `createApp`:

- `socketsByUser` maps a user to the set of live sockets identified as that user.
- `userBySocket` maps each socket back to its user.
- `offlineQueue` maps a user to a backlog of direct messages addressed to it while it had no live socket.

Six socket handlers update these maps:

- `presence:iam` identifies a socket.
- `presence:leave` releases a socket.
- `disconnect` runs when the transport drops a socket.
- `dm:send` acknowledges the sender, then either delivers or queues the message.
- `presence:who` answers with the online users.
- A deferred timer body flushes a backlog one second after an identify.

The model is one object with these maps as fields, plus three more:

- the transport's per-user rooms `user/<uid>`;
- the flushes scheduled but not yet fired;
- the log of every outbound event.

Each handler is a method. Its contract gives the new value of every field as a function of the old state. The properties the relay promises are proved about those functions.

Modules:

- `Wrappers`: `Option`.
- `Protocol`:
  - the message record `DmPayload`;
  - the inbound `dm:send` request;
  - a queued message;
  - the outbound events;
  - the JavaScript defaulting of identities and message fields.
- `OfflineQueue`:
  - the constants `OFFLINE_QUEUE_MAX` (200) and `OFFLINE_QUEUE_TTL_MS` (15 minutes);
  - lazy expiry (`KeepFresh`, `Prune`);
  - the capped append with front eviction (`CapAppend`, `Enqueue`);
  - the lemmas about repeated appends.
- `Registry`:
  - socket groups and bindings as maps;
  - adding, removing and dropping a member;
  - the two-map consistency relation, with the lemmas saying which handler steps keep it and which break it.
- `Gateway`: the class `Relay`, with the six handlers as methods.
  - The timer is explicit. `Identify` appends a `PendingFlush` holding the backlog as it stood after pruning. `FireFlush` takes the oldest pending flush, re-checks the room and delivers in order.
  - Every timer has the same 1000 ms delay, so timers fire in the order they were scheduled.
- `Scenarios`: short runs of a fresh relay, each with its outcome stated in full:
  - multi-device presence;
  - re-identify;
  - an unidentified send;
  - immediate delivery;
  - queue then flush;
  - the reconnect race;
  - expiry;
  - the two ways the maps stop agreeing.

Rooms. socket.io drops a disconnecting socket from every room before the `disconnect` handler runs. The model therefore applies `DropEverywhere` to the rooms on disconnect. A join is `AddMember` and `socket.leave` is `RemoveMember`.

The two registry maps are meant to mirror each other: a socket is in a user's set exactly when it is bound to that user. The code keeps them consistent only under two conditions:

- a `presence:leave` names the socket's own user, or no user;
- a socket is never re-identified as a different user.

The model follows the code. `Relay.Coherent()` is the consistency relation, together with "rooms mirror the presence sets". Each handler preserves it only under the matching precondition. Two lemmas prove it breaks otherwise:

- `MismatchedLeaveBreaksConsistency` shows that a leave naming another user unbinds the socket but leaves it in its user's set.
- `RebindBreaksConsistency` shows that a rebind leaves the socket in the old user's set.

Two scenarios show the consequence: `MismatchedLeave` and `RebindOtherUser`. After the disconnect, a user is still listed online with no reachable socket, and `user:offline` never fires for that user. Neither break is corrected in the model, since the code gives no sign of which behaviour was intended instead. The code also emits `user:online` again when a user's only socket identifies a second time. `ReidentifySameSocket` records this.

## Model

| member | source | states |
|---|---|---|
| Protocol.UserIdOf | src/app.ts:65-66 | an absent or empty identity reads as "no identity"; otherwise the identity is the supplied string |
| Protocol.Canonical | src/app.ts:133-140 | the canonical record keeps sender, recipient and clientId; text defaults to ""; a missing or zero timestamp becomes `now`, any other is kept; empty sender metadata becomes null |
| OfflineQueue.KeepFresh | src/app.ts:55 | the kept entries are exactly the entries younger than the time to live, and there are never more of them |
| OfflineQueue.KeepFreshAppend | src/app.ts:55 | expiry filtering distributes over concatenation, so relative order is preserved |
| OfflineQueue.KeepFreshIdentity | src/app.ts:55-57 | a backlog survives pruning unchanged exactly when none of its entries has expired |
| OfflineQueue.KeepFreshLater | src/app.ts:51-58 | pruning at t1 and then at a later t2 equals pruning at t2: expired entries never come back |
| OfflineQueue.TimeToLive | src/app.ts:13 | a message is still kept 14 minutes after queueing and gone after 16 |
| OfflineQueue.Prune | src/app.ts:51-58 | a user with no backlog is untouched; other users are untouched; the key stays exactly when some entry is unexpired, and then holds exactly those entries; no empty or over-long backlog is ever stored |
| OfflineQueue.PruneNothingExpired | src/app.ts:51-58 | pruning a non-empty backlog with nothing expired leaves the queues as they were |
| OfflineQueue.CapAppend | src/app.ts:154-160 | after a push the backlog length is one more, or the cap when full; the new message is last; the rest are the newest older entries in their original order |
| OfflineQueue.CapAppendBelowCap | src/app.ts:157-159 | below the cap nothing is evicted and the message is simply appended |
| OfflineQueue.Enqueue | src/app.ts:154-160 | only the recipient's backlog changes, by one capped append, and the key set gains the recipient; the store stays within the cap |
| OfflineQueue.CapAppendIsNewest | src/app.ts:154-160 | one capped push keeps the newest `OFFLINE_QUEUE_MAX` entries of backlog plus message |
| OfflineQueue.EnqueueAllKeepsNewest | src/app.ts:154-160 | any run of queued sends leaves the newest `OFFLINE_QUEUE_MAX` messages of backlog plus arrivals, in arrival order |
| OfflineQueue.OverflowEvictsOldest | src/app.ts:12 | 201 sends to an offline user leave messages 2 to 201, in order |
| Registry.AddMember | src/app.ts:69-70 | the user gets a group containing the socket, no other key is added, and no group becomes empty |
| Registry.AddMemberRelation | src/app.ts:69-70 | adding changes the user-socket relation by exactly the pair (user, socket) |
| Registry.AddMemberIdempotent | src/app.ts:68-70 | identifying the same socket as the same user twice adds no second membership |
| Registry.FirstMember | src/app.ts:46-49 | a user without a group gets the group of just this socket |
| Registry.OnlineEdge | src/app.ts:73-75 | the group has size 1 after the add (the `user:online` condition) exactly when the user had no group or only this socket |
| Registry.RemoveMember | src/app.ts:117-124 | the key is deleted exactly when the socket was the group's last member; no group becomes empty |
| Registry.RemoveMemberRelation | src/app.ts:117-124 | removing takes away exactly the pair (user, socket) from the relation |
| Registry.OfflineEdge | src/app.ts:121-124 | the user loses its group (the `user:offline` condition) exactly when the released socket was its only one |
| Registry.DropEverywhere | src/app.ts:172-174 | after a disconnect no room contains the socket, no room is empty, and no room is created |
| Registry.DropEverywhereRelation | src/app.ts:172-174 | dropping removes exactly the pairs mentioning the socket |
| Registry.DropLastMember | src/app.ts:172-174 | a room whose only member disconnects is gone |
| Registry.OnlineIffBound | src/app.ts:20-22 | under consistency a user has a group exactly when some socket is bound to it |
| Registry.BindKeepsConsistent | src/app.ts:68-70 | binding an unbound socket, or rebinding it to its own user, keeps the two maps consistent |
| Registry.UnbindKeepsConsistent | src/app.ts:114-124 | unbinding a socket from its own user keeps the two maps consistent |
| Registry.UnboundLeaveChangesNothing | src/app.ts:114-124 | a leave for a socket with no binding changes neither map |
| Registry.MismatchedLeaveBreaksConsistency | src/app.ts:109-119 | a leave naming a user other than the socket's binding always breaks consistency |
| Registry.RebindBreaksConsistency | src/app.ts:68-70 | re-identifying a bound socket as another user always breaks consistency |
| Registry.DropMatchesUnbind | src/app.ts:172-186 | under consistency, the transport's drop-everywhere equals removing the socket from its bound user's group |
| Gateway.Deliveries | src/app.ts:89-92 | a flush emits exactly one `dm:receive` per captured message |
| Gateway.DeliveriesInOrder | src/app.ts:89-92 | the flush emits one `dm:receive` per captured message, and the k-th carries the k-th message |
| Gateway.LeaveTarget | src/app.ts:109-111 | the leave has no target (the early return) exactly when the payload names no user and the socket has no non-empty binding; a target is always the payload's user or the socket's binding, and the payload's user wins when given |
| Gateway.Relay.constructor | src/app.ts:20-27 | the relay starts with empty maps, no pending flush and no events, valid and coherent |
| Gateway.Relay.ReachableIffOnline | src/app.ts:87-88 | while coherent, a user's room has a member exactly when the user is online |
| Gateway.Relay.EnsureUserSet | src/app.ts:46-49 | the user gets an empty set only if it had none, the existing set is returned, and nothing else changes |
| Gateway.Relay.PruneQueue | src/app.ts:51-58 | the queue store becomes `Prune` of the old one at `now`; nothing else changes |
| Gateway.Relay.Identify | src/app.ts:64-107 | an empty identity changes nothing; otherwise the state becomes bind, add, join, prune and schedule-if-non-empty, and the events are `user:online` when the group has size 1, then the snapshot of online users to this socket; coherence is kept unless the socket was bound to another user |
| Gateway.Relay.Bind | src/app.ts:68-75 | the binding is set, the socket is added to its user's set and room, and `user:online` is emitted exactly when the set has one member |
| Gateway.Relay.ScheduleFlush | src/app.ts:78-86 | the backlog is pruned, and a flush capturing the pruned backlog is scheduled exactly when one remains |
| Gateway.Relay.Leave | src/app.ts:108-126 | with no target nothing changes; otherwise the binding is deleted, the socket leaves the target's set and room, and `user:offline` is emitted exactly when the set emptied; coherence is kept when the payload names no one or the socket's own user |
| Gateway.Relay.ReleaseSocket | src/app.ts:117-124 | the socket leaves the user's set, and the set is deleted with one `user:offline` exactly when it empties |
| Gateway.Relay.Disconnect | src/app.ts:172-186 | the binding is gone and every room drops the socket; an unbound socket changes no set and emits nothing; a bound one leaves its user's set, with `user:offline` exactly when that empties; coherence is kept |
| Gateway.Relay.Send | src/app.ts:129-163 | an unbound sender changes nothing; otherwise an ack with the canonical clientId and ts is emitted, then either immediate delivery to a non-empty room with the queues unchanged, or a capped enqueue stamped `now` |
| Gateway.Relay.Who | src/app.ts:166-170 | one snapshot of the online users goes to the asking socket, and no state changes |
| Gateway.Relay.FireFlush | src/app.ts:86-100 | the oldest flush fires: with a member in the room every captured message is delivered in order and the backlog deleted; otherwise nothing is emitted and the backlog stays; one flush emits at most `OFFLINE_QUEUE_MAX` events |
| Scenarios.OnTwoDevices | src/app.ts:64-75 | a user identified on two sockets is announced once, and each socket gets its own snapshot |
| Scenarios.MultiDevice | src/app.ts:172-186 | dropping one of two devices emits nothing and keeps the user online; dropping the other emits exactly one `user:offline` |
| Scenarios.ReidentifySameSocket | src/app.ts:68-75 | re-identifying a socket keeps one membership but emits `user:online` a second time |
| Scenarios.UnidentifiedSendDropped | src/app.ts:130-131 | a send from an unidentified socket emits nothing and queues nothing |
| Scenarios.TwoOnline | src/app.ts:64-107 | two users identified on distinct sockets: the first is reachable, the second's socket is bound, nothing queued |
| Scenarios.ImmediateDelivery | src/app.ts:143-151 | a send to an online user emits the ack and then the delivery, and queues nothing |
| Scenarios.OneQueued | src/app.ts:152-160 | a send to a user never seen online queues exactly that message and schedules nothing |
| Scenarios.QueuedThenFlushed | src/app.ts:78-93 | three queued messages are delivered in send order by the flush after an identify within the time to live, and the backlog is deleted |
| Scenarios.ReconnectRace | src/app.ts:86-99 | a recipient who disconnects before its flush fires gets nothing, and the message stays queued |
| Scenarios.ExpiredBacklogDropped | src/app.ts:51-58 | a backlog older than the time to live is deleted at identify and no flush is scheduled |
| Scenarios.MismatchedLeave | src/app.ts:109-120 | after a leave naming another user and a disconnect, the user is still listed online with a stale socket, is unreachable, and never got `user:offline` |
| Scenarios.Rebound | src/app.ts:68-75 | a socket identified as two users stays in both sets, is bound to the second, and both users are announced |
| Scenarios.RebindOtherUser | src/app.ts:172-183 | after the rebound socket disconnects, only the second user goes offline; the first stays listed online, unreachable |

## Left out

- REST, CORS, body parsing, authentication, the MongoDB users service and the Feathers channel wiring. These are framework and library plumbing, and none of them touches the presence or queue maps.
- Console logging. It is debugging output only.
- The clock and the timer.
  - `Date.now()` is a `now` parameter.
  - The two clock reads in `dm:send` (the default timestamp and `queuedAt`) are the same `now`.
  - `setTimeout` is the explicit `PendingFlush` record plus `FireFlush`, and its `due` field is informational.
  - Flushes fire oldest first, which equal delays guarantee.
- JavaScript array aliasing. The timer closes over the backlog array, and a later `dm:send` to the same user pushes into and splices that same array. The model captures the backlog as a value, so messages queued between the identify and the flush are not delivered by that flush. They are still removed, because the flush deletes the whole key.
- Gateway.Relay.Identify: the snapshot is the set of online users. The source sends a `Map` key array, whose order is insertion order, and the model does not capture that order.
- Protocol.UserIdOf: only an absent or empty identity is modelled as falsy. The `String()` coercion of a non-string value, and falsy values such as `0` or `false` sent as an identity, are left out because the payload is typed as an optional string.
- Gateway.Relay.Send: the request is typed after the message record, so three inputs the handler can receive are not modelled. A missing or null payload from a bound sender throws before the ack is sent, and nothing catches it; the model always acks a bound sender. A non-string `text` is coerced with `String()`. A fractional or non-finite `ts` is possible because the timestamp is a JavaScript number, while the model's is an integer.
- Protocol.Canonical:
  - `String(msg.to)` coercion of a non-string recipient is not modelled.
  - Falsy timestamps other than absent and `0` (NaN) are not modelled.
  - `fromUser` is an optional string rather than an arbitrary value.
- The multi-connection delivery fan-out of the transport. A `dm:receive` to a room is one event naming the room, not one event per member socket.
