/**
 * The wire vocabulary of the relay: the direct-message record, what a client
 * sends with `dm:send`, a queued message, and the outbound events the relay
 * emits through the transport.
 */
module Protocol {
  import opened Wrappers

  /** A user identity, supplied by the client and never validated. */
  type UserId = string
  /** The opaque identifier of one live transport connection. */
  type SocketId = string

  /** The canonical direct message (`DmPayload`). `fromUser` is opaque sender metadata. */
  datatype DmPayload = DmPayload(
    from: UserId,
    to: UserId,
    text: string,
    ts: int,
    clientId: Option<string>,
    fromUser: Option<string>)

  /** The payload of an inbound `dm:send`: everything but the recipient may be absent. */
  datatype DmRequest = DmRequest(
    to: UserId,
    text: Option<string>,
    ts: Option<int>,
    clientId: Option<string>,
    fromUser: Option<string>)

  /** A message held in a recipient's backlog, stamped with its enqueue time. */
  datatype Queued = Queued(payload: DmPayload, queuedAt: int)

  /** Outbound events; the constructor fixes the audience. */
  datatype Event =
    | UserOnline(userId: UserId)                       // `user:online`, to every connection
    | UserOffline(userId: UserId)                      // `user:offline`, to every connection
    | Snapshot(socket: SocketId, online: set<UserId>)  // `presence:snapshot`, to one connection
    | Ack(socket: SocketId, clientId: Option<string>, ts: int)  // `dm:ack`, to the sender
    | Receive(room: UserId, payload: DmPayload, queuedAt: Option<int>)  // `dm:receive`, to room user/<room>

  /**
   * `String(payload?.userId || '')`: an absent or empty identity becomes the
   * empty string, which every handler treats as "no identity".
   */
  function UserIdOf(field: Option<string>): (uid: UserId)
    ensures uid == "" <==> field == None || field == Some("")
    ensures uid != "" ==> field == Some(uid)
  {
    match field
    case None => ""
    case Some(s) => s
  }

  /**
   * The canonical record `dm:send` builds from the sender's binding and the
   * request: the text defaults to "", a missing or zero timestamp (both falsy
   * in JavaScript) defaults to `now`, and falsy sender metadata becomes null.
   */
  function Canonical(from: UserId, req: DmRequest, now: int): (p: DmPayload)
    ensures p.from == from && p.to == req.to && p.clientId == req.clientId
    ensures p.text == "" <==> req.text == None || req.text == Some("")
    ensures p.text != "" ==> req.text == Some(p.text)
    ensures req.ts == None || req.ts == Some(0) ==> p.ts == now
    ensures req.ts != None && req.ts != Some(0) ==> req.ts == Some(p.ts)
    ensures p.fromUser == None <==> req.fromUser == None || req.fromUser == Some("")
    ensures p.fromUser != None ==> p.fromUser == req.fromUser
  {
    DmPayload(
      from,
      req.to,
      match req.text { case None => "" case Some(t) => t },
      match req.ts { case None => now case Some(t) => if t == 0 then now else t },
      req.clientId,
      match req.fromUser { case None => None case Some(u) => if u == "" then None else Some(u) })
  }
}
