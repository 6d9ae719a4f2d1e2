/**
 * The presence registry: a map from each user to the set of its live
 * connections. A user is online exactly while it is a key of the map.
 */
module Presence {
  import opened Common

  type Clients = map<UserId, set<ConnId>>

  /** The registry invariant: every key maps to a non-empty set. */
  predicate NoEmptySets(clients: Clients)
  {
    forall u :: u in clients ==> clients[u] != {}
  }

  /** The connections registered for `u`, empty when `u` is not a key. */
  function Connections(clients: Clients, u: UserId): set<ConnId>
  {
    if u in clients then clients[u] else {}
  }

  /**
   * Every connection that carries a user tag is in that user's set.
   * `users` maps each live connection to the user it registered as.
   */
  predicate Tracked(clients: Clients, users: map<ConnId, UserId>)
  {
    forall c :: c in users ==> c in Connections(clients, users[c])
  }

  /**
   * The register branch: create the user's set if it is absent, then add
   * the connection to it.
   */
  function Register(clients: Clients, u: UserId, c: ConnId): (r: Clients)
    ensures u in r && c in r[u]
    ensures forall d :: d in Connections(r, u) <==> d == c || d in Connections(clients, u)
    ensures forall v :: v != u ==> (v in r <==> v in clients) && Connections(r, v) == Connections(clients, v)
    ensures NoEmptySets(clients) ==> NoEmptySets(r)
  {
    var existing := if u in clients then clients[u] else {};
    clients[u := existing + {c}]
  }

  /**
   * The close handler: remove the one connection from its user's set, and
   * drop the user's key when nothing is left. A user that is not a key is
   * left alone.
   */
  function Unregister(clients: Clients, u: UserId, c: ConnId): (r: Clients)
    ensures u !in clients ==> r == clients
    ensures Connections(r, u) == Connections(clients, u) - {c}
    ensures u in clients ==> (u in r <==> clients[u] - {c} != {})
    ensures forall v :: v != u ==> (v in r <==> v in clients) && Connections(r, v) == Connections(clients, v)
    ensures NoEmptySets(clients) ==> NoEmptySets(r)
  {
    if u in clients then
      var rest := clients[u] - {c};
      if |rest| == 0 then clients - {u} else clients[u := rest]
    else
      clients
  }

  /** The grace-period recheck: the user is declared offline only if it is not a key when the timer fires. */
  predicate GoneOffline(clients: Clients, u: UserId): (r: bool)
    ensures r ==> Connections(clients, u) == {}
    ensures NoEmptySets(clients) && Connections(clients, u) == {} ==> r
  {
    u !in clients
  }

  /** Adding a connection that is already registered changes nothing. */
  lemma RegisterIdempotent(clients: Clients, u: UserId, c: ConnId)
    ensures Register(Register(clients, u, c), u, c) == Register(clients, u, c)
  {
  }

  /** Registering a connection that is already in the user's set leaves the registry as it was. */
  lemma RegisterKnownConnection(clients: Clients, u: UserId, c: ConnId)
    requires u in clients && c in clients[u]
    ensures Register(clients, u, c) == clients
  {
    assert clients[u] + {c} == clients[u];
  }

  /** Closing one of several connections keeps the user online with the others. */
  lemma StaysOnlineWithAnotherConnection(clients: Clients, u: UserId, c: ConnId, other: ConnId)
    requires u in clients && other in clients[u] && other != c
    ensures u in Unregister(clients, u, c)
    ensures Unregister(clients, u, c)[u] == clients[u] - {c}
  {
  }

  /** Closing the only connection removes the user's key. */
  lemma LastConnectionRemovesUser(clients: Clients, u: UserId, c: ConnId)
    requires u in clients && clients[u] == {c}
    ensures u !in Unregister(clients, u, c)
    ensures Unregister(clients, u, c) == clients - {u}
  {
  }

  /** A reconnect between the close and the timer suppresses the offline notice. */
  lemma ReconnectSuppressesOffline(clients: Clients, u: UserId, closed: ConnId, reopened: ConnId)
    ensures !GoneOffline(Register(Unregister(clients, u, closed), u, reopened), u)
  {
  }

  /** Registering a connection keeps every tagged connection in its user's set. */
  lemma RegisterKeepsTracked(clients: Clients, users: map<ConnId, UserId>, u: UserId, c: ConnId)
    requires Tracked(clients, users)
    ensures Tracked(Register(clients, u, c), users[c := u])
  {
  }

  /**
   * Closing a tagged connection keeps every other tagged connection in its
   * user's set; in particular a user with another live connection stays a key.
   */
  lemma UnregisterKeepsTracked(clients: Clients, users: map<ConnId, UserId>, c: ConnId)
    requires Tracked(clients, users) && c in users
    ensures Tracked(Unregister(clients, users[c], c), users - {c})
  {
  }

  /**
   * A connection that registers again under another name is not removed from
   * its first user's set: closing it unregisters only the latest name.
   */
  lemma ReRegisterLeavesStaleEntry(clients: Clients, first: UserId, second: UserId, c: ConnId)
    requires first != second
    ensures var r := Unregister(Register(Register(clients, first, c), second, c), second, c);
            first in r && c in r[first]
  {
  }
}
