/**
 * The connection registry: `socketsByUser` (userId -> set of socketIds) and its
 * reverse `userBySocket` (socketId -> userId). A map from names to socket sets
 * is a `Groups`; the transport's per-user rooms are one too.
 */
module Registry {
  import opened Protocol

  type Groups = map<UserId, set<SocketId>>
  type Bindings = map<SocketId, UserId>

  /** A group is stored only while it has a member. */
  ghost predicate NoEmptyGroups(g: Groups)
  {
    forall u :: u in g ==> g[u] != {}
  }

  /** The two maps describe the same relation between sockets and users. */
  ghost predicate Consistent(g: Groups, b: Bindings)
  {
    && (forall s :: s in b ==> b[s] in g && s in g[b[s]])
    && (forall u, s :: u in g && s in g[u] ==> s in b && b[s] == u)
  }

  /** `ensureUserSet(u)` followed by `add(s)`: `u` gets a group, and `s` is in it. */
  function AddMember(g: Groups, u: UserId, s: SocketId): (r: Groups)
    ensures r.Keys == g.Keys + {u} && s in r[u]
    ensures NoEmptyGroups(g) ==> NoEmptyGroups(r)
  {
    g[u := (if u in g then g[u] else {}) + {s}]
  }

  /** Adding changes the membership relation by exactly the pair (u, s). */
  lemma AddMemberRelation(g: Groups, u: UserId, s: SocketId)
    ensures var r := AddMember(g, u, s);
      forall v, t :: v in r && t in r[v] <==> (v in g && t in g[v]) || (v == u && t == s)
  {
  }

  /**
   * Remove `s` from `u`'s group, deleting the group when it empties: the
   * relation loses exactly (u, s), and the key disappears exactly when `s`
   * was the group's last member.
   */
  function RemoveMember(g: Groups, u: UserId, s: SocketId): (r: Groups)
    ensures r.Keys == if u in g && g[u] <= {s} then g.Keys - {u} else g.Keys
    ensures NoEmptyGroups(g) ==> NoEmptyGroups(r)
  {
    if u !in g then g
    else
      var rest := g[u] - {s};
      if rest == {} then g - {u} else g[u := rest]
  }

  /** Removing changes the membership relation by exactly the pair (u, s). */
  lemma RemoveMemberRelation(g: Groups, u: UserId, s: SocketId)
    ensures var r := RemoveMember(g, u, s);
      forall v, t :: v in r && t in r[v] <==> v in g && t in g[v] && !(v == u && t == s)
  {
    if u in g && g[u] - {s} == {} {
      assert forall t :: t in g[u] ==> t !in g[u] - {s};
    }
  }

  /** The transport dropping a closed socket from every room it was in. */
  function DropEverywhere(g: Groups, s: SocketId): (r: Groups)
    ensures r.Keys <= g.Keys
    ensures forall v :: v in r ==> s !in r[v]
    ensures NoEmptyGroups(r)
  {
    map v | v in g && g[v] - {s} != {} :: g[v] - {s}
  }

  /** Dropping `s` everywhere removes exactly the pairs that mention `s`. */
  lemma DropEverywhereRelation(g: Groups, s: SocketId)
    ensures var r := DropEverywhere(g, s);
      forall v, t :: v in r && t in r[v] <==> v in g && t in g[v] && t != s
  {
    assert forall v, t :: v in g && t in g[v] && t != s ==> t in g[v] - {s};
  }

  /** The first socket of a user makes a group of one. */
  lemma FirstMember(g: Groups, u: UserId, s: SocketId)
    requires u !in g
    ensures AddMember(g, u, s)[u] == {s}
  {
  }

  /** Dropping a user's only socket everywhere deletes the user's group. */
  lemma DropLastMember(g: Groups, u: UserId, s: SocketId)
    requires u in g && g[u] == {s}
    ensures u !in DropEverywhere(g, s)
  {
    assert g[u] - {s} == {};
  }

  /** Identifying the same socket as the same user twice adds no second membership. */
  lemma AddMemberIdempotent(g: Groups, u: UserId, s: SocketId)
    ensures AddMember(AddMember(g, u, s), u, s) == AddMember(g, u, s)
  {
  }

  /** A set of one element that holds `s` is `{s}`. */
  lemma SingletonOf(r: set<SocketId>, s: SocketId)
    requires s in r && |r| == 1
    ensures r == {s}
  {
    assert |r - {s}| == 0;
  }

  /** `user:online` fires (group size 1 after the add) exactly when `u` had no other socket. */
  lemma OnlineEdge(g: Groups, u: UserId, s: SocketId)
    requires NoEmptyGroups(g)
    ensures |AddMember(g, u, s)[u]| == 1 <==> u !in g || g[u] == {s}
  {
    var r := AddMember(g, u, s)[u];
    if |r| == 1 {
      SingletonOf(r, s);
    }
  }

  /** A user stays online after losing `s` exactly when another socket remains. */
  lemma OfflineEdge(g: Groups, u: UserId, s: SocketId)
    requires u in g
    ensures u !in RemoveMember(g, u, s) <==> forall t :: t in g[u] ==> t == s
  {
    if u in RemoveMember(g, u, s) {
      var t :| t in RemoveMember(g, u, s)[u];
      assert t in g[u] && t != s;
    }
  }

  /** Under consistency a user has a group exactly when some socket is bound to it. */
  lemma OnlineIffBound(g: Groups, b: Bindings, u: UserId)
    requires Consistent(g, b) && NoEmptyGroups(g)
    ensures u in g <==> exists s :: s in b && b[s] == u
  {
    if u in g {
      var s :| s in g[u];
      assert s in b && b[s] == u;
    }
  }

  /** Binding an unbound socket, or re-binding it to the same user, keeps the maps consistent. */
  lemma BindKeepsConsistent(g: Groups, b: Bindings, u: UserId, s: SocketId)
    requires Consistent(g, b)
    requires s in b ==> b[s] == u
    ensures Consistent(AddMember(g, u, s), b[s := u])
  {
    var r, c := AddMember(g, u, s), b[s := u];
    forall t | t in c
      ensures c[t] in r && t in r[c[t]]
    {
      if t != s {
        assert c[t] == b[t] && t in g[b[t]];
      }
    }
    forall v, t | v in r && t in r[v]
      ensures t in c && c[t] == v
    {
      if !(v == u && t == s) {
        assert v in g && t in g[v];
      }
    }
  }

  /** Unbinding a bound socket from its own user keeps the maps consistent. */
  lemma UnbindKeepsConsistent(g: Groups, b: Bindings, s: SocketId)
    requires Consistent(g, b) && s in b
    ensures Consistent(RemoveMember(g, b[s], s), b - {s})
  {
    var r, c := RemoveMember(g, b[s], s), b - {s};
    forall t | t in c
      ensures c[t] in r && t in r[c[t]]
    {
      assert t in g[b[t]];
    }
  }

  /** A leave naming some user for a socket with no binding removes nothing. */
  lemma UnboundLeaveChangesNothing(g: Groups, b: Bindings, u: UserId, s: SocketId)
    requires Consistent(g, b) && NoEmptyGroups(g) && s !in b
    ensures RemoveMember(g, u, s) == g && b - {s} == b
  {
    if u in g {
      assert s !in g[u];
      assert g[u] - {s} == g[u];
    }
  }

  /** A leave naming a user other than the socket's binding leaves a stale member behind. */
  lemma MismatchedLeaveBreaksConsistency(g: Groups, b: Bindings, u: UserId, s: SocketId)
    requires Consistent(g, b) && s in b && b[s] != u
    ensures !Consistent(RemoveMember(g, u, s), b - {s})
  {
    var r := RemoveMember(g, u, s);
    assert b[s] in r && s in r[b[s]];
    assert s !in b - {s};
  }

  /** Re-identifying a bound socket as another user leaves it in the old user's group. */
  lemma RebindBreaksConsistency(g: Groups, b: Bindings, u: UserId, s: SocketId)
    requires Consistent(g, b) && s in b && b[s] != u
    ensures !Consistent(AddMember(g, u, s), b[s := u])
  {
    var r, c, prev := AddMember(g, u, s), b[s := u], b[s];
    assert prev in r && s in r[prev];
    assert c[s] != prev;
  }

  /** Under consistency, dropping a socket from every group is removing it from its bound user's group. */
  lemma DropMatchesUnbind(g: Groups, b: Bindings, s: SocketId)
    requires Consistent(g, b) && NoEmptyGroups(g)
    ensures DropEverywhere(g, s) == if s in b then RemoveMember(g, b[s], s) else g
  {
    var d := DropEverywhere(g, s);
    var r := if s in b then RemoveMember(g, b[s], s) else g;
    forall v | v in g
      ensures v in d <==> v in r
      ensures v in d ==> d[v] == r[v]
    {
      if s in b && v == b[s] {
      } else {
        assert s !in g[v];
        assert g[v] - {s} == g[v];
      }
    }
    assert d.Keys == r.Keys;
  }
}
