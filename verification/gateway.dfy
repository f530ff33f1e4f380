/**
 * The delivery coordinator: the socket handlers of the relay as methods of one
 * object that owns the registry maps, the offline queues, the transport's
 * per-user rooms, the pending deferred flushes and the log of outbound events.
 */
module Gateway {
  import opened Wrappers
  import opened Protocol
  import opened Registry
  import opened OfflineQueue

  /** Settling delay between a successful identify and its backlog flush. */
  const FLUSH_DELAY_MS: int := 1000

  /** A deferred flush: the backlog as it stood when the flush was scheduled. */
  datatype PendingFlush = PendingFlush(uid: UserId, backlog: seq<Queued>, due: int)

  /** The `dm:receive` events that deliver `backlog` to room user/<uid>, one per message, in order. */
  function Deliveries(uid: UserId, backlog: seq<Queued>): (r: seq<Event>)
    ensures |r| == |backlog|
    decreases |backlog|
  {
    if backlog == [] then []
    else
      var last := backlog[|backlog| - 1];
      Deliveries(uid, backlog[..|backlog| - 1]) + [Receive(uid, last.payload, Some(last.queuedAt))]
  }

  /** The k-th delivery carries the k-th queued message. */
  lemma {:induction false} DeliveriesInOrder(uid: UserId, backlog: seq<Queued>, k: nat)
    requires k < |backlog|
    ensures Deliveries(uid, backlog)[k] == Receive(uid, backlog[k].payload, Some(backlog[k].queuedAt))
    decreases |backlog|
  {
    var front := backlog[..|backlog| - 1];
    if k < |front| {
      DeliveriesInOrder(uid, front, k);
    }
  }

  /** `socket.leave` / `socket.join` target for a user: the leave payload's uid, else the socket's binding. */
  function LeaveTarget(b: Bindings, sock: SocketId, userId: Option<string>): (uid: UserId)
    ensures uid == "" <==> UserIdOf(userId) == "" && (sock !in b || b[sock] == "")
    ensures uid != "" ==> uid == UserIdOf(userId) || (sock in b && uid == b[sock])
    ensures UserIdOf(userId) != "" ==> uid == UserIdOf(userId)
  {
    var fromPayload := UserIdOf(userId);
    if fromPayload != "" then fromPayload
    else if sock in b then b[sock]
    else ""
  }

  class Relay {
    var socketsByUser: Groups
    var userBySocket: Bindings
    var offlineQueue: Queues
    /** Members of each transport room user/<uid>. */
    var rooms: Groups
    /** Scheduled flushes, oldest first; equal delays make them fire in this order. */
    var pending: seq<PendingFlush>
    /** Every outbound event emitted so far. */
    var events: seq<Event>

    ghost predicate Valid()
      reads this
    {
      && NoEmptyGroups(socketsByUser)
      && NoEmptyGroups(rooms)
      && QueuesValid(offlineQueue)
      && (forall s :: s in userBySocket ==> userBySocket[s] != "")
      && (forall i :: 0 <= i < |pending| ==> 0 < |pending[i].backlog| <= OFFLINE_QUEUE_MAX)
    }

    /** The two registry maps agree, and the rooms mirror the presence sets. */
    ghost predicate Coherent()
      reads this
    {
      Consistent(socketsByUser, userBySocket) && rooms == socketsByUser
    }

    /** `rooms.get('user/' + uid)` exists and has a member. */
    predicate Reachable(uid: UserId)
      reads this
    {
      uid in rooms && |rooms[uid]| > 0
    }

    constructor ()
      ensures Valid() && Coherent()
      ensures socketsByUser == map[] && userBySocket == map[] && offlineQueue == map[]
      ensures rooms == map[] && pending == [] && events == []
    {
      socketsByUser, userBySocket, offlineQueue := map[], map[], map[];
      rooms, pending, events := map[], [], [];
    }

    /** Under coherence a user is reachable through its room exactly when it is online. */
    lemma ReachableIffOnline(uid: UserId)
      requires Valid() && Coherent()
      ensures Reachable(uid) <==> uid in socketsByUser
    {
    }

    /** `ensureUserSet`: make sure `uid` has a (possibly empty) socket set and return it. */
    method EnsureUserSet(uid: UserId) returns (members: set<SocketId>)
      modifies this
      ensures socketsByUser == if uid in old(socketsByUser) then old(socketsByUser) else old(socketsByUser)[uid := {}]
      ensures members == socketsByUser[uid]
      ensures userBySocket == old(userBySocket) && offlineQueue == old(offlineQueue)
      ensures rooms == old(rooms) && pending == old(pending) && events == old(events)
    {
      if uid !in socketsByUser {
        socketsByUser := socketsByUser[uid := {}];
      }
      members := socketsByUser[uid];
    }

    /** `pruneQueue`, with the clock read passed in as `now`. */
    method PruneQueue(uid: UserId, now: int)
      modifies this
      ensures offlineQueue == Prune(old(offlineQueue), uid, now)
      ensures socketsByUser == old(socketsByUser) && userBySocket == old(userBySocket)
      ensures rooms == old(rooms) && pending == old(pending) && events == old(events)
    {
      if uid !in offlineQueue {
        return;
      }
      var q := offlineQueue[uid];
      var valid := KeepFresh(q, now);
      if |valid| > 0 {
        offlineQueue := offlineQueue[uid := valid];
      } else {
        offlineQueue := offlineQueue - {uid};
      }
    }

    /**
     * `presence:iam`. An empty or absent identity is ignored. Otherwise bind the
     * socket, join the user's room, announce the user if this is its only
     * socket, prune its backlog and schedule a flush when something is left,
     * and send the presence snapshot to this socket.
     */
    method Identify(sock: SocketId, userId: Option<string>, now: int)
      requires Valid()
      modifies this
      ensures Valid()
      ensures UserIdOf(userId) == "" ==> unchanged(this)
      ensures UserIdOf(userId) != "" ==>
        var uid := UserIdOf(userId);
        && userBySocket == old(userBySocket)[sock := uid]
        && socketsByUser == AddMember(old(socketsByUser), uid, sock)
        && rooms == AddMember(old(rooms), uid, sock)
        && offlineQueue == Prune(old(offlineQueue), uid, now)
        && pending == old(pending) +
             (if uid in offlineQueue then [PendingFlush(uid, offlineQueue[uid], now + FLUSH_DELAY_MS)] else [])
        && events == old(events) +
             (if |socketsByUser[uid]| == 1 then [UserOnline(uid)] else []) +
             [Snapshot(sock, socketsByUser.Keys)]
      ensures old(Coherent()) && (sock in old(userBySocket) ==> old(userBySocket)[sock] == UserIdOf(userId))
              ==> Coherent()
    {
      var uid := UserIdOf(userId);
      if uid == "" {
        return;
      }
      ghost var g0, b0 := socketsByUser, userBySocket;
      Bind(sock, uid);
      ScheduleFlush(uid, now);
      events := events + [Snapshot(sock, socketsByUser.Keys)];
      assert forall s :: s in userBySocket ==> userBySocket[s] != "";
      if old(Coherent()) && (sock in b0 ==> b0[sock] == uid) {
        BindKeepsConsistent(g0, b0, uid, sock);
      }
    }

    /** The registry half of `presence:iam` for a non-empty identity: bind, add, join, announce. */
    method Bind(sock: SocketId, uid: UserId)
      modifies this
      ensures userBySocket == old(userBySocket)[sock := uid]
      ensures socketsByUser == AddMember(old(socketsByUser), uid, sock)
      ensures rooms == AddMember(old(rooms), uid, sock)
      ensures events == old(events) + (if |socketsByUser[uid]| == 1 then [UserOnline(uid)] else [])
      ensures offlineQueue == old(offlineQueue) && pending == old(pending)
    {
      ghost var g0 := socketsByUser;
      userBySocket := userBySocket[sock := uid];
      var members := EnsureUserSet(uid);
      members := members + {sock};
      socketsByUser := socketsByUser[uid := members];
      assert socketsByUser == AddMember(g0, uid, sock) by {
        assert members == (if uid in g0 then g0[uid] else {}) + {sock};
      }
      rooms := AddMember(rooms, uid, sock);
      if |members| == 1 {
        events := events + [UserOnline(uid)];
      }
    }

    /** The queue half of `presence:iam`: prune the backlog, and schedule its flush when it is not empty. */
    method ScheduleFlush(uid: UserId, now: int)
      requires QueuesValid(offlineQueue)
      requires forall i :: 0 <= i < |pending| ==> 0 < |pending[i].backlog| <= OFFLINE_QUEUE_MAX
      modifies this
      ensures offlineQueue == Prune(old(offlineQueue), uid, now)
      ensures pending == old(pending) +
        (if uid in offlineQueue then [PendingFlush(uid, offlineQueue[uid], now + FLUSH_DELAY_MS)] else [])
      ensures QueuesValid(offlineQueue)
      ensures forall i :: 0 <= i < |pending| ==> 0 < |pending[i].backlog| <= OFFLINE_QUEUE_MAX
      ensures socketsByUser == old(socketsByUser) && userBySocket == old(userBySocket)
      ensures rooms == old(rooms) && events == old(events)
    {
      PruneQueue(uid, now);
      if uid in offlineQueue && |offlineQueue[uid]| > 0 {
        pending := pending + [PendingFlush(uid, offlineQueue[uid], now + FLUSH_DELAY_MS)];
      }
    }

    /**
     * `presence:leave`. The user is the payload's, else the socket's binding;
     * with neither nothing happens. Otherwise the binding is deleted and, if the
     * user has a set, the socket leaves it and the room; the set is deleted and
     * `user:offline` emitted when it empties.
     */
    method Leave(sock: SocketId, userId: Option<string>)
      requires Valid()
      modifies this
      ensures Valid()
      ensures LeaveTarget(old(userBySocket), sock, userId) == "" ==> unchanged(this)
      ensures LeaveTarget(old(userBySocket), sock, userId) != "" ==>
        var uid := LeaveTarget(old(userBySocket), sock, userId);
        && userBySocket == old(userBySocket) - {sock}
        && socketsByUser == RemoveMember(old(socketsByUser), uid, sock)
        && rooms == (if uid in old(socketsByUser) then RemoveMember(old(rooms), uid, sock) else old(rooms))
        && events == old(events) +
             (if uid in old(socketsByUser) && uid !in socketsByUser then [UserOffline(uid)] else [])
        && offlineQueue == old(offlineQueue) && pending == old(pending)
      ensures old(Coherent()) &&
              (UserIdOf(userId) == "" || sock !in old(userBySocket) || old(userBySocket)[sock] == UserIdOf(userId))
              ==> Coherent()
    {
      var uid := LeaveTarget(userBySocket, sock, userId);
      if uid == "" {
        return;
      }
      ghost var g0, b0 := socketsByUser, userBySocket;
      userBySocket := userBySocket - {sock};
      if uid in socketsByUser {
        rooms := RemoveMember(rooms, uid, sock);
      }
      ReleaseSocket(uid, sock);
      if old(Coherent()) && (UserIdOf(userId) == "" || sock !in b0 || b0[sock] == UserIdOf(userId)) {
        if sock in b0 {
          UnbindKeepsConsistent(g0, b0, sock);
        } else {
          UnboundLeaveChangesNothing(g0, b0, uid, sock);
        }
      }
    }

    /**
     * Shared by leave and disconnect: take `sock` out of `uid`'s set, and when
     * the set empties delete it and emit `user:offline`.
     */
    method ReleaseSocket(uid: UserId, sock: SocketId)
      modifies this
      ensures socketsByUser == RemoveMember(old(socketsByUser), uid, sock)
      ensures events == old(events) +
        (if uid in old(socketsByUser) && uid !in socketsByUser then [UserOffline(uid)] else [])
      ensures userBySocket == old(userBySocket) && offlineQueue == old(offlineQueue)
      ensures rooms == old(rooms) && pending == old(pending)
    {
      if uid in socketsByUser {
        var members := socketsByUser[uid] - {sock};
        socketsByUser := socketsByUser[uid := members];
        if |members| == 0 {
          socketsByUser := socketsByUser - {uid};
          events := events + [UserOffline(uid)];
        }
      }
    }

    /**
     * `disconnect`. The transport has already dropped the socket from every
     * room. The binding is deleted; a bound socket leaves its user's set, which
     * is deleted with a `user:offline` when it empties.
     */
    method Disconnect(sock: SocketId)
      requires Valid()
      modifies this
      ensures Valid()
      ensures userBySocket == old(userBySocket) - {sock}
      ensures rooms == DropEverywhere(old(rooms), sock)
      ensures sock !in old(userBySocket) ==> socketsByUser == old(socketsByUser) && events == old(events)
      ensures sock in old(userBySocket) ==>
        var uid := old(userBySocket)[sock];
        && socketsByUser == RemoveMember(old(socketsByUser), uid, sock)
        && events == old(events) +
             (if uid in old(socketsByUser) && uid !in socketsByUser then [UserOffline(uid)] else [])
      ensures offlineQueue == old(offlineQueue) && pending == old(pending)
      ensures old(Coherent()) ==> Coherent()
    {
      ghost var g0, b0 := socketsByUser, userBySocket;
      rooms := DropEverywhere(rooms, sock);
      var uid := if sock in userBySocket then userBySocket[sock] else "";
      userBySocket := userBySocket - {sock};
      if uid != "" {
        ReleaseSocket(uid, sock);
      }
      if old(Coherent()) {
        DropMatchesUnbind(g0, b0, sock);
        if sock in b0 {
          UnbindKeepsConsistent(g0, b0, sock);
        }
      }
    }

    /**
     * `dm:send`. A socket without a binding is ignored. Otherwise the sender is
     * acknowledged, then the message goes to the recipient's room when it has a
     * member, and into the recipient's backlog (stamped `now`, capped) when not.
     */
    method Send(sock: SocketId, req: DmRequest, now: int)
      requires Valid()
      modifies this
      ensures Valid()
      ensures sock !in old(userBySocket) ==> unchanged(this)
      ensures sock in old(userBySocket) ==>
        var p := Canonical(old(userBySocket)[sock], req, now);
        && events == old(events) + [Ack(sock, req.clientId, p.ts)] +
             (if Reachable(p.to) then [Receive(p.to, p, None)] else [])
        && offlineQueue == (if Reachable(p.to) then old(offlineQueue)
                            else Enqueue(old(offlineQueue), p.to, Queued(p, now)))
      ensures socketsByUser == old(socketsByUser) && userBySocket == old(userBySocket)
      ensures rooms == old(rooms) && pending == old(pending)
    {
      var from := if sock in userBySocket then userBySocket[sock] else "";
      if from == "" {
        return;
      }
      var payload := Canonical(from, req, now);
      var online := Reachable(payload.to);
      events := events + [Ack(sock, payload.clientId, payload.ts)];
      if online {
        events := events + [Receive(payload.to, payload, None)];
      } else {
        var queued := if payload.to in offlineQueue then offlineQueue[payload.to] else [];
        queued := queued + [Queued(payload, now)];
        if |queued| > OFFLINE_QUEUE_MAX {
          queued := queued[|queued| - OFFLINE_QUEUE_MAX..];
        }
        offlineQueue := offlineQueue[payload.to := queued];
      }
    }

    /** `presence:who`: the online users, to the asking socket only; nothing else changes. */
    method Who(sock: SocketId)
      modifies this
      ensures events == old(events) + [Snapshot(sock, socketsByUser.Keys)]
      ensures socketsByUser == old(socketsByUser) && userBySocket == old(userBySocket)
      ensures offlineQueue == old(offlineQueue) && rooms == old(rooms) && pending == old(pending)
    {
      events := events + [Snapshot(sock, socketsByUser.Keys)];
    }

    /**
     * The oldest scheduled flush fires. If the user's room still has a member,
     * every captured message is delivered in order and the user's backlog is
     * deleted; otherwise nothing is delivered and the backlog stays.
     */
    method FireFlush()
      requires Valid() && pending != []
      modifies this
      ensures Valid()
      ensures pending == old(pending)[1..]
      ensures |old(events)| <= |events| <= |old(events)| + OFFLINE_QUEUE_MAX
      ensures var f := old(pending)[0];
        if Reachable(f.uid) then
          events == old(events) + Deliveries(f.uid, f.backlog) && offlineQueue == old(offlineQueue) - {f.uid}
        else
          events == old(events) && offlineQueue == old(offlineQueue)
      ensures socketsByUser == old(socketsByUser) && userBySocket == old(userBySocket) && rooms == old(rooms)
      ensures old(Coherent()) ==> Coherent()
    {
      var f := pending[0];
      pending := pending[1..];
      if f.uid in rooms && |rooms[f.uid]| > 0 {
        var i := 0;
        while i < |f.backlog|
          invariant 0 <= i <= |f.backlog|
          invariant events == old(events) + Deliveries(f.uid, f.backlog[..i])
          invariant socketsByUser == old(socketsByUser) && userBySocket == old(userBySocket)
          invariant rooms == old(rooms) && offlineQueue == old(offlineQueue) && pending == old(pending)[1..]
        {
          var m := f.backlog[i];
          events := events + [Receive(f.uid, m.payload, Some(m.queuedAt))];
          assert f.backlog[..i + 1][..i] == f.backlog[..i];
          i := i + 1;
        }
        assert f.backlog[..i] == f.backlog;
        offlineQueue := offlineQueue - {f.uid};
      }
    }
  }
}
