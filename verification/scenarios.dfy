/**
 * Runs of the relay from a fresh start: the multi-device edge events,
 * immediate delivery, the queued-then-flushed and reconnect-race cases,
 * expiry at identify, and the places where the registry maps stop agreeing.
 */
module Scenarios {
  import opened Wrappers
  import opened Protocol
  import opened Registry
  import opened OfflineQueue
  import opened Gateway

  /**
   * A user identifies on two devices: `user:online` is emitted for the first
   * socket only, and each socket gets its own snapshot.
   */
  method OnTwoDevices(u: UserId, s1: SocketId, s2: SocketId) returns (r: Relay)
    requires u != "" && s1 != s2
    ensures fresh(r) && r.Valid()
    ensures r.socketsByUser == map[u := {s1, s2}]
    ensures s1 in r.userBySocket && s2 in r.userBySocket && r.userBySocket[s1] == u && r.userBySocket[s2] == u
    ensures r.events == [UserOnline(u), Snapshot(s1, {u}), Snapshot(s2, {u})]
  {
    r := new Relay();
    FirstMember(r.socketsByUser, u, s1);
    r.Identify(s1, Some(u), 0);
    assert r.socketsByUser == map[u := {s1}];
    r.Identify(s2, Some(u), 0);
    assert r.socketsByUser[u] == {s1, s2} && |r.socketsByUser[u]| == 2;
    assert r.socketsByUser.Keys == {u};
  }

  /**
   * A user on two devices: dropping one emits nothing and the user stays
   * online; dropping the other emits exactly one `user:offline`.
   */
  method MultiDevice(u: UserId, s1: SocketId, s2: SocketId)
    returns (r: Relay, firstDrop: seq<Event>, secondDrop: seq<Event>, onlineBetween: bool)
    requires u != "" && s1 != s2
    ensures onlineBetween && firstDrop == []
    ensures secondDrop == [UserOffline(u)] && r.socketsByUser == map[]
  {
    r := OnTwoDevices(u, s1, s2);
    var n := |r.events|;
    r.Disconnect(s1);
    assert !({s1, s2} <= {s1}) && {s1, s2} - {s1} == {s2};
    firstDrop := r.events[n..];
    onlineBetween := u in r.socketsByUser;
    assert r.userBySocket[s2] == u && r.socketsByUser == map[u := {s2}];
    n := |r.events|;
    r.Disconnect(s2);
    secondDrop := r.events[n..];
  }

  /** Identifying one socket twice as the same user: one membership, but `user:online` is emitted again. */
  method ReidentifySameSocket(u: UserId, s: SocketId) returns (r: Relay)
    requires u != ""
    ensures r.socketsByUser == map[u := {s}] && r.userBySocket == map[s := u]
    ensures r.events == [UserOnline(u), Snapshot(s, {u}), UserOnline(u), Snapshot(s, {u})]
  {
    r := new Relay();
    r.Identify(s, Some(u), 0);
    assert r.socketsByUser == map[u := {s}];
    assert r.socketsByUser.Keys == {u};
    r.Identify(s, Some(u), 0);
    assert r.socketsByUser == map[u := {s}];
  }

  /** A send from a socket that never identified is dropped: no ack, nothing queued. */
  method UnidentifiedSendDropped(s: SocketId, req: DmRequest, now: int) returns (r: Relay)
    ensures r.events == [] && r.offlineQueue == map[]
  {
    r := new Relay();
    r.Send(s, req, now);
  }

  /** Two users, each identified on a socket of its own, with nothing queued. */
  method TwoOnline(a: UserId, b: UserId, sa: SocketId, sb: SocketId) returns (r: Relay)
    requires a != "" && b != "" && sa != sb
    ensures fresh(r) && r.Valid()
    ensures r.Reachable(a) && sb in r.userBySocket && r.userBySocket[sb] == b && r.offlineQueue == map[]
  {
    r := new Relay();
    r.Identify(sa, Some(a), 0);
    assert r.offlineQueue == map[] && r.Reachable(a);
    r.Identify(sb, Some(b), 0);
  }

  /** An online recipient gets the message at once, after the sender's ack; nothing is queued. */
  method ImmediateDelivery(a: UserId, b: UserId, sa: SocketId, sb: SocketId, req: DmRequest, now: int)
    returns (r: Relay, sent: seq<Event>)
    requires a != "" && b != "" && sa != sb && req.to == a
    ensures var p := Canonical(b, req, now);
      sent == [Ack(sb, req.clientId, p.ts), Receive(a, p, None)]
    ensures r.offlineQueue == map[]
  {
    r := TwoOnline(a, b, sa, sb);
    ghost var p := Canonical(b, req, now);
    assert p.to == a && p.clientId == req.clientId;
    var before := r.events;
    r.Send(sb, req, now);
    assert r.events == before + [Ack(sb, req.clientId, p.ts), Receive(a, p, None)];
    sent := r.events[|before|..];
  }

  /**
   * Three messages to an offline user are queued in order; the user identifies
   * within the time to live, and the deferred flush delivers all three in that
   * order and deletes the backlog.
   */
  method QueuedThenFlushed(a: UserId, b: UserId, sa: SocketId, sb: SocketId,
                           m1: DmRequest, m2: DmRequest, m3: DmRequest, t0: int, t1: int)
    returns (r: Relay, flushed: seq<Event>)
    requires a != "" && b != "" && a != b
    requires m1.to == a && m2.to == a && m3.to == a
    requires t0 <= t1 < t0 + OFFLINE_QUEUE_TTL_MS
    ensures flushed == Deliveries(a, [Queued(Canonical(b, m1, t0), t0), Queued(Canonical(b, m2, t0), t0),
                                      Queued(Canonical(b, m3, t0), t0)])
    ensures a !in r.offlineQueue
  {
    r := new Relay();
    r.Identify(sb, Some(b), t0);
    assert r.userBySocket[sb] == b && !r.Reachable(a) && r.pending == [];
    ghost var q1, q2, q3 := Queued(Canonical(b, m1, t0), t0), Queued(Canonical(b, m2, t0), t0),
                            Queued(Canonical(b, m3, t0), t0);
    ghost var none := r.offlineQueue;
    r.Send(sb, m1, t0);
    r.Send(sb, m2, t0);
    r.Send(sb, m3, t0);
    assert r.offlineQueue == Enqueue(Enqueue(Enqueue(none, a, q1), a, q2), a, q3);
    QueuedInOrder(a, q1, q2, q3);
    ThreeFresh(Canonical(b, m1, t0), Canonical(b, m2, t0), Canonical(b, m3, t0), t0, t1);
    PruneNothingExpired(r.offlineQueue, a, t1);
    r.Identify(sa, Some(a), t1);
    assert r.pending == [PendingFlush(a, [q1, q2, q3], t1 + FLUSH_DELAY_MS)];
    assert r.Reachable(a);
    var n := |r.events|;
    r.FireFlush();
    flushed := r.events[n..];
  }

  /** Three sends to a user without a backlog leave the three messages queued in send order. */
  lemma QueuedInOrder(a: UserId, q1: Queued, q2: Queued, q3: Queued)
    ensures Enqueue(Enqueue(Enqueue(map[], a, q1), a, q2), a, q3) == map[a := [q1, q2, q3]]
  {
    var none: Queues := map[];
    CapAppendBelowCap([], q1);
    assert [] + [q1] == [q1];
    assert Enqueue(none, a, q1) == map[a := [q1]];
    CapAppendBelowCap([q1], q2);
    assert [q1] + [q2] == [q1, q2];
    assert Enqueue(map[a := [q1]], a, q2) == map[a := [q1, q2]];
    CapAppendBelowCap([q1, q2], q3);
    assert [q1, q2] + [q3] == [q1, q2, q3];
    assert Enqueue(map[a := [q1, q2]], a, q3) == map[a := [q1, q2, q3]];
  }

  /** One send to a user without a backlog queues that message alone. */
  lemma QueuedAlone(a: UserId, q1: Queued)
    ensures Enqueue(map[], a, q1) == map[a := [q1]]
  {
    CapAppendBelowCap([], q1);
    assert [] + [q1] == [q1];
  }

  /** Messages queued at t0 survive a prune at any t1 within the time to live. */
  lemma FreshWithinTtl(q: seq<Queued>, t0: int, t1: int)
    requires forall i :: 0 <= i < |q| ==> q[i].queuedAt == t0
    requires t0 <= t1 < t0 + OFFLINE_QUEUE_TTL_MS
    ensures KeepFresh(q, t1) == q
  {
    KeepFreshIdentity(q, t1);
  }

  /** Three messages queued together at t0 are all still there at t1. */
  lemma ThreeFresh(p1: DmPayload, p2: DmPayload, p3: DmPayload, t0: int, t1: int)
    requires t0 <= t1 < t0 + OFFLINE_QUEUE_TTL_MS
    ensures var q := [Queued(p1, t0), Queued(p2, t0), Queued(p3, t0)];
      KeepFresh(q, t1) == q
  {
    FreshWithinTtl([Queued(p1, t0), Queued(p2, t0), Queued(p3, t0)], t0, t1);
  }

  /**
   * A sender identifies and sends one message to a user who has never been
   * online: the message is queued for that user and nothing is scheduled.
   */
  method OneQueued(a: UserId, b: UserId, sb: SocketId, m1: DmRequest, t0: int) returns (r: Relay)
    requires a != "" && b != "" && a != b && m1.to == a
    ensures fresh(r) && r.Valid()
    ensures r.offlineQueue == map[a := [Queued(Canonical(b, m1, t0), t0)]]
    ensures r.pending == [] && a !in r.rooms && a !in r.socketsByUser
  {
    r := new Relay();
    r.Identify(sb, Some(b), t0);
    assert r.userBySocket[sb] == b && !r.Reachable(a) && r.pending == [];
    ghost var q1 := Queued(Canonical(b, m1, t0), t0);
    ghost var none := r.offlineQueue;
    r.Send(sb, m1, t0);
    assert r.offlineQueue == Enqueue(none, a, q1);
    QueuedAlone(a, q1);
  }

  /**
   * The recipient identifies, so a flush is scheduled, and disconnects before
   * it fires: the flush delivers nothing and the message stays queued.
   */
  method ReconnectRace(a: UserId, b: UserId, sa: SocketId, sb: SocketId, m1: DmRequest, t0: int, t1: int)
    returns (r: Relay, flushed: seq<Event>)
    requires a != "" && b != "" && a != b && m1.to == a
    requires t0 <= t1 < t0 + OFFLINE_QUEUE_TTL_MS
    ensures flushed == []
    ensures r.offlineQueue == map[a := [Queued(Canonical(b, m1, t0), t0)]]
  {
    r := OneQueued(a, b, sb, m1, t0);
    ghost var q1 := Queued(Canonical(b, m1, t0), t0);
    FreshWithinTtl([q1], t0, t1);
    assert a in r.offlineQueue && r.offlineQueue[a] == [q1];
    PruneNothingExpired(r.offlineQueue, a, t1);
    FirstMember(r.rooms, a, sa);
    r.Identify(sa, Some(a), t1);
    assert r.pending == [PendingFlush(a, [q1], t1 + FLUSH_DELAY_MS)];
    DropLastMember(r.rooms, a, sa);
    r.Disconnect(sa);
    assert !r.Reachable(a);
    var n := |r.events|;
    r.FireFlush();
    flushed := r.events[n..];
  }

  /** A message older than the time to live is pruned at identify: no flush is scheduled and the backlog is gone. */
  method ExpiredBacklogDropped(a: UserId, b: UserId, sa: SocketId, sb: SocketId, m1: DmRequest, t0: int)
    returns (r: Relay)
    requires a != "" && b != "" && a != b && m1.to == a
    ensures r.pending == [] && a !in r.offlineQueue
  {
    r := OneQueued(a, b, sb, m1, t0);
    assert KeepFresh(r.offlineQueue[a], t0 + 16 * 60000) == [];
    r.Identify(sa, Some(a), t0 + 16 * 60000);
  }

  /**
   * A leave naming another user deletes the socket's binding but leaves it in
   * its user's set; after the disconnect the user is still listed online while
   * its room is gone, and no `user:offline` was emitted.
   */
  method MismatchedLeave(u: UserId, v: UserId, s: SocketId) returns (r: Relay)
    requires u != "" && v != "" && u != v
    ensures u in r.socketsByUser && s in r.socketsByUser[u] && s !in r.userBySocket
    ensures !r.Reachable(u) && r.events == [UserOnline(u), Snapshot(s, {u})]
  {
    r := new Relay();
    FirstMember(r.socketsByUser, u, s);
    FirstMember(r.rooms, u, s);
    r.Identify(s, Some(u), 0);
    assert r.socketsByUser.Keys == {u};
    assert r.events == [UserOnline(u), Snapshot(s, {u})];
    r.Leave(s, Some(v));
    assert r.rooms[u] == {s} && s !in r.userBySocket;
    DropLastMember(r.rooms, u, s);
    r.Disconnect(s);
  }

  /**
   * One socket identified as `u` and then as `v`: it stays in `u`'s set and
   * joins `v`'s, only the second binding survives, and both users were announced.
   */
  method Rebound(u: UserId, v: UserId, s: SocketId) returns (r: Relay)
    requires u != "" && v != "" && u != v
    ensures fresh(r) && r.Valid()
    ensures r.socketsByUser == map[u := {s}, v := {s}] && r.rooms == r.socketsByUser
    ensures s in r.userBySocket && r.userBySocket[s] == v
    ensures r.events == [UserOnline(u), Snapshot(s, {u}), UserOnline(v), Snapshot(s, {u, v})]
  {
    r := new Relay();
    FirstMember(r.socketsByUser, u, s);
    FirstMember(r.rooms, u, s);
    r.Identify(s, Some(u), 0);
    assert r.socketsByUser.Keys == {u};
    assert r.socketsByUser == map[u := {s}] && r.rooms == r.socketsByUser;
    FirstMember(r.socketsByUser, v, s);
    r.Identify(s, Some(v), 0);
    assert r.socketsByUser.Keys == {u, v};
  }

  /**
   * Re-identifying a socket as another user keeps it in the first user's set;
   * the disconnect then cleans only the second user, and the first stays
   * listed online with a socket that no longer exists.
   */
  method RebindOtherUser(u: UserId, v: UserId, s: SocketId) returns (r: Relay)
    requires u != "" && v != "" && u != v
    ensures r.socketsByUser == map[u := {s}] && s !in r.userBySocket && !r.Reachable(u)
    ensures r.events == [UserOnline(u), Snapshot(s, {u}), UserOnline(v), Snapshot(s, {u, v}), UserOffline(v)]
  {
    r := Rebound(u, v, s);
    DropLastMember(r.rooms, u, s);
    r.Disconnect(s);
    assert r.socketsByUser == map[u := {s}];
  }
}
