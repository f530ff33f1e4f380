/**
 * The offline queue store: per-recipient backlogs with a hard length cap
 * (front eviction) and lazy expiry after a fixed time to live.
 */
module OfflineQueue {
  import opened Protocol

  /** Maximum number of queued messages per user. */
  const OFFLINE_QUEUE_MAX: nat := 200
  /** A queued message expires this many milliseconds after it was queued (15 minutes). */
  const OFFLINE_QUEUE_TTL_MS: int := 15 * 60000

  /** userId -> backlog, oldest first. */
  type Queues = map<UserId, seq<Queued>>

  /** Every stored backlog is non-empty and within the cap. */
  ghost predicate QueuesValid(qs: Queues)
  {
    forall u :: u in qs ==> 0 < |qs[u]| <= OFFLINE_QUEUE_MAX
  }

  predicate IsFresh(m: Queued, now: int)
  {
    now - m.queuedAt < OFFLINE_QUEUE_TTL_MS
  }

  /** The entries of `q` that have not expired at `now`, in their original order. */
  function KeepFresh(q: seq<Queued>, now: int): (r: seq<Queued>)
    ensures |r| <= |q|
    ensures forall m :: m in r <==> m in q && IsFresh(m, now)
  {
    if q == [] then []
    else (if IsFresh(q[0], now) then [q[0]] else []) + KeepFresh(q[1..], now)
  }

  /** Filtering distributes over concatenation: relative order is kept. */
  lemma {:induction false} KeepFreshAppend(a: seq<Queued>, b: seq<Queued>, now: int)
    ensures KeepFresh(a + b, now) == KeepFresh(a, now) + KeepFresh(b, now)
  {
    if a == [] {
      assert a + b == b;
    } else {
      assert (a + b)[0] == a[0];
      assert (a + b)[1..] == a[1..] + b;
      KeepFreshAppend(a[1..], b, now);
    }
  }

  /** A backlog comes back unchanged exactly when none of its entries has expired. */
  lemma {:induction false} KeepFreshIdentity(q: seq<Queued>, now: int)
    ensures KeepFresh(q, now) == q <==> forall i :: 0 <= i < |q| ==> IsFresh(q[i], now)
  {
    if q != [] {
      KeepFreshIdentity(q[1..], now);
      if !IsFresh(q[0], now) {
        assert |KeepFresh(q, now)| <= |q[1..]| < |q|;
      } else {
        assert KeepFresh(q, now) == [q[0]] + KeepFresh(q[1..], now);
        assert forall i :: 1 <= i < |q| ==> q[i] == q[1..][i - 1];
      }
    }
  }

  /** Pruning later never brings an entry back: pruning at t1 then at t2 >= t1 equals pruning at t2. */
  lemma {:induction false} KeepFreshLater(q: seq<Queued>, t1: int, t2: int)
    requires t1 <= t2
    ensures KeepFresh(KeepFresh(q, t1), t2) == KeepFresh(q, t2)
  {
    if q != [] {
      var head := if IsFresh(q[0], t1) then [q[0]] else [];
      KeepFreshAppend(head, KeepFresh(q[1..], t1), t2);
      KeepFreshLater(q[1..], t1, t2);
      if IsFresh(q[0], t1) {
        assert KeepFresh(head, t2) == (if IsFresh(q[0], t2) then [q[0]] else []) by {
          assert head[1..] == [];
        }
      }
    }
  }

  /** A message queued at t is still there 14 minutes later and gone 16 minutes later. */
  lemma TimeToLive(m: Queued, q: seq<Queued>)
    requires m in q
    ensures m in KeepFresh(q, m.queuedAt + 14 * 60000)
    ensures m !in KeepFresh(q, m.queuedAt + 16 * 60000)
  {
  }

  /**
   * `pruneQueue`: a user without a backlog is left alone; otherwise only the
   * unexpired entries stay, and the key is deleted when none remain.
   */
  function Prune(qs: Queues, uid: UserId, now: int): (r: Queues)
    ensures uid !in qs ==> r == qs
    ensures forall v :: v != uid ==> (v in r <==> v in qs) && (v in r ==> r[v] == qs[v])
    ensures uid in r <==> uid in qs && KeepFresh(qs[uid], now) != []
    ensures uid in r ==> r[uid] == KeepFresh(qs[uid], now)
    ensures QueuesValid(qs) ==> QueuesValid(r)
  {
    if uid !in qs then qs
    else
      var valid := KeepFresh(qs[uid], now);
      if |valid| > 0 then qs[uid := valid] else qs - {uid}
  }

  /** Pruning a backlog none of whose entries has expired changes nothing. */
  lemma PruneNothingExpired(qs: Queues, uid: UserId, now: int)
    requires uid in qs && KeepFresh(qs[uid], now) == qs[uid] && qs[uid] != []
    ensures Prune(qs, uid, now) == qs
  {
  }

  /**
   * Push `m` onto a backlog and, when the cap is exceeded, cut the oldest
   * entries from the front: the result is the newest `OFFLINE_QUEUE_MAX`
   * entries of `q + [m]`, ending with `m`.
   */
  function CapAppend(q: seq<Queued>, m: Queued): (r: seq<Queued>)
    ensures |r| == if |q| < OFFLINE_QUEUE_MAX then |q| + 1 else OFFLINE_QUEUE_MAX
    ensures r[|r| - 1] == m
    ensures forall i :: 0 <= i < |r| - 1 ==> r[i] == q[|q| + 1 - |r| + i]
  {
    var pushed := q + [m];
    if |pushed| > OFFLINE_QUEUE_MAX then pushed[|pushed| - OFFLINE_QUEUE_MAX..] else pushed
  }

  /** Below the cap nothing is evicted: the message is simply appended. */
  lemma CapAppendBelowCap(q: seq<Queued>, m: Queued)
    requires |q| < OFFLINE_QUEUE_MAX
    ensures CapAppend(q, m) == q + [m]
  {
  }

  /** Queue `m` for `to`, creating the backlog on first use. */
  function Enqueue(qs: Queues, to: UserId, m: Queued): (r: Queues)
    ensures r.Keys == qs.Keys + {to}
    ensures forall v :: v in qs && v != to ==> r[v] == qs[v]
    ensures r[to] == CapAppend(if to in qs then qs[to] else [], m)
    ensures QueuesValid(qs) ==> QueuesValid(r)
  {
    qs[to := CapAppend(if to in qs then qs[to] else [], m)]
  }

  /** The newest `n` entries of `s` (all of `s` when it is no longer). */
  function Newest(s: seq<Queued>, n: nat): (r: seq<Queued>)
    ensures |r| == if |s| <= n then |s| else n
  {
    if |s| <= n then s else s[|s| - n..]
  }

  lemma NewestOfNewest(s: seq<Queued>, t: seq<Queued>, n: nat)
    ensures Newest(Newest(s, n) + t, n) == Newest(s + t, n)
  {
    var a := Newest(s, n);
    var x := s + t;
    assert a + t == x[|s| - |a|..];
  }

  /** One capped push keeps the newest `OFFLINE_QUEUE_MAX` entries. */
  lemma CapAppendIsNewest(q: seq<Queued>, m: Queued)
    ensures CapAppend(q, m) == Newest(q + [m], OFFLINE_QUEUE_MAX)
  {
  }

  lemma SplitFirst(q: seq<Queued>, ms: seq<Queued>)
    requires ms != []
    ensures (q + [ms[0]]) + ms[1..] == q + ms
  {
  }

  /** Queue the messages of `ms` one after another, as consecutive `dm:send`s to an offline user do. */
  function EnqueueAll(q: seq<Queued>, ms: seq<Queued>): seq<Queued>
    decreases |ms|
  {
    if ms == [] then q else EnqueueAll(CapAppend(q, ms[0]), ms[1..])
  }

  /** However many messages arrive, the backlog is the newest `OFFLINE_QUEUE_MAX` of them, in arrival order. */
  lemma {:induction false} EnqueueAllKeepsNewest(q: seq<Queued>, ms: seq<Queued>)
    requires |q| <= OFFLINE_QUEUE_MAX
    ensures EnqueueAll(q, ms) == Newest(q + ms, OFFLINE_QUEUE_MAX)
    decreases |ms|
  {
    if ms == [] {
      assert q + ms == q;
    } else {
      var x := q + [ms[0]];
      var c := CapAppend(q, ms[0]);
      EnqueueAllKeepsNewest(c, ms[1..]);
      CapAppendIsNewest(q, ms[0]);
      NewestOfNewest(x, ms[1..], OFFLINE_QUEUE_MAX);
      SplitFirst(q, ms);
    }
  }

  /** Queueing 201 messages for an offline user keeps the 2nd to the 201st, in order. */
  lemma OverflowEvictsOldest(ms: seq<Queued>)
    requires |ms| == OFFLINE_QUEUE_MAX + 1
    ensures EnqueueAll([], ms) == ms[1..]
  {
    var empty: seq<Queued> := [];
    assert EnqueueAll(empty, ms) == Newest(ms, OFFLINE_QUEUE_MAX) by {
      EnqueueAllKeepsNewest(empty, ms);
      assert empty + ms == ms;
    }
    assert Newest(ms, OFFLINE_QUEUE_MAX) == ms[1..];
  }
}
