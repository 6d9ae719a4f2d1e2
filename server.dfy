/**
 * The server process: the WebSocket event handlers and the HTTP handlers
 * that broadcast, over one object holding all the state they share.
 */
module Server {
  import opened Common
  import Transport
  import Presence
  import Chat

  /** An inbound frame, already parsed: a registration or anything else, kept verbatim. */
  datatype Inbound = Register(user: UserId) | Other(raw: string)

  /** The frames the server sends out. */
  datatype Outbound =
    | UserStatus(user: UserId, online: bool)
    | PeerDisconnected(user: UserId)
    | Forwarded(raw: string)
    | NewMessage(msg: Chat.Message)
    | MessagesSeen(msgs: seq<Chat.Message>)
    | ChatCleared

  type Deliveries = seq<Transport.Delivery<Outbound>>

  class Hub {
    /** The transport's client set, in iteration order. */
    var sockets: seq<Transport.Socket>
    /** The user each live connection registered as (`ws.user`). */
    var users: map<ConnId, UserId>
    /** The presence registry (`clients`). */
    var clients: Presence.Clients
    /** The pending grace-period checks, in the order they will fire. */
    var timers: seq<UserId>
    /** The message store. */
    var store: Chat.Store

    ghost predicate Valid()
      reads this
    {
      && Transport.DistinctIds(sockets)
      && users.Keys <= Transport.Ids(sockets)
      && Presence.NoEmptySets(clients)
      && Presence.Tracked(clients, users)
      && Chat.WellFormed(store)
    }

    constructor (db: Chat.Store)
      requires Chat.WellFormed(db)
      ensures Valid()
      ensures sockets == [] && users == map[] && clients == map[] && timers == [] && store == db
    {
      sockets, users, clients, timers, store := [], map[], map[], [], db;
    }

    /** A new connection joins the client set. */
    method Connect(c: ConnId)
      requires Valid() && c !in Transport.Ids(sockets)
      modifies this
      ensures Valid()
      ensures sockets == Transport.Joined(old(sockets), c)
      ensures users == old(users) && clients == old(clients) && timers == old(timers) && store == old(store)
    {
      sockets := Transport.Joined(sockets, c);
    }

    /** The closing handshake of a connection has begun: it is no longer open. */
    method BeginClose(c: ConnId)
      requires Valid()
      modifies this
      ensures Valid()
      ensures sockets == Transport.Closing(old(sockets), c)
      ensures users == old(users) && clients == old(clients) && timers == old(timers) && store == old(store)
    {
      sockets := Transport.Closing(sockets, c);
    }

    /**
     * The message handler. A registration tags the connection, adds it to
     * the user's set and broadcasts the user online to every open
     * connection; any other frame goes verbatim to every open connection
     * but the sender.
     */
    method OnMessage(c: ConnId, frame: Inbound) returns (out: Deliveries)
      requires Valid() && c in Transport.Ids(sockets)
      modifies this
      ensures Valid()
      ensures sockets == old(sockets) && timers == old(timers) && store == old(store)
      ensures frame.Register? ==>
        && users == old(users)[c := frame.user]
        && clients == Presence.Register(old(clients), frame.user, c)
        && out == Transport.FanOut(sockets, None, UserStatus(frame.user, true))
      ensures frame.Other? ==>
        && users == old(users) && clients == old(clients)
        && out == Transport.FanOut(sockets, Some(c), Forwarded(frame.raw))
    {
      match frame
      case Register(u) =>
        Presence.RegisterKeepsTracked(clients, users, u, c);
        users := users[c := u];
        clients := Presence.Register(clients, u, c);
        out := Transport.Broadcast(sockets, UserStatus(u, true));
      case Other(raw) =>
        out := Transport.Relay(sockets, c, Forwarded(raw));
    }

    /**
     * The close handler. The connection leaves the client set; if it was
     * tagged with a non-empty user name, it leaves that user's set and a
     * grace-period check for the user is scheduled.
     */
    method OnClose(c: ConnId)
      requires Valid() && c in Transport.Ids(sockets)
      modifies this
      ensures Valid()
      ensures sockets == Transport.Without(old(sockets), c)
      ensures users == old(users) - {c} && store == old(store)
      ensures c in old(users) && old(users)[c] != "" ==>
        && clients == Presence.Unregister(old(clients), old(users)[c], c)
        && timers == old(timers) + [old(users)[c]]
      ensures !(c in old(users) && old(users)[c] != "") ==>
        clients == old(clients) && timers == old(timers)
    {
      if c in users && users[c] != "" {
        var u := users[c];
        Presence.UnregisterKeepsTracked(clients, users, c);
        clients := Presence.Unregister(clients, u, c);
        timers := timers + [u];
      }
      users := users - {c};
      sockets := Transport.Without(sockets, c);
    }

    /**
     * The oldest pending grace-period check fires. If its user is not in
     * the registry, the user is broadcast offline and disconnected; a user
     * with a live registered connection is never announced offline.
     */
    method FireGraceTimer() returns (out: Deliveries)
      requires Valid() && timers != []
      modifies this
      ensures Valid()
      ensures timers == old(timers)[1..]
      ensures sockets == old(sockets) && users == old(users) && clients == old(clients) && store == old(store)
      ensures var u := old(timers)[0];
        out == if !Presence.GoneOffline(clients, u) then []
               else Transport.FanOut(sockets, None, UserStatus(u, false))
                    + Transport.FanOut(sockets, None, PeerDisconnected(u))
      ensures (exists c :: c in users && users[c] == old(timers)[0]) ==> out == []
    {
      var u := timers[0];
      timers := timers[1..];
      if Presence.GoneOffline(clients, u) {
        var offline := Transport.Broadcast(sockets, UserStatus(u, false));
        var gone := Transport.Broadcast(sockets, PeerDisconnected(u));
        out := offline + gone;
      } else {
        out := [];
      }
    }

    /** Create a message under the fresh store key `key`, then broadcast it. */
    method PostMessage(req: Chat.Draft, key: Key, now: Time) returns (msg: Chat.Message, out: Deliveries)
      requires Valid() && key !in Chat.Ids(store.Get(Chat.WriterSide(req.sender)))
      modifies this
      ensures Valid()
      ensures (store, msg) == Chat.Create(old(store), req, key, now)
      ensures out == Transport.FanOut(sockets, None, NewMessage(msg))
      ensures sockets == old(sockets) && users == old(users) && clients == old(clients) && timers == old(timers)
    {
      var (db, m) := Chat.Create(store, req, key, now);
      store, msg := db, m;
      out := Transport.Broadcast(sockets, NewMessage(msg));
    }

    /**
     * Mark-as-seen; the updated messages are broadcast unless there were
     * none to update.
     */
    method MarkAsSeen(user: Option<UserId>, now: Time) returns (r: Chat.Reply<seq<Chat.Message>>, out: Deliveries)
      requires Valid()
      modifies this
      ensures Valid()
      ensures !Given(user) ==> r == Chat.BadRequest && store == old(store) && out == []
      ensures Given(user) ==>
        var side := Chat.ReaderSide(user.value);
        && store.Get(side) == Chat.MarkAllSeen(old(store).Get(side), now)
        && store.Get(Chat.Opposite(side)) == old(store).Get(Chat.Opposite(side))
        && r == Chat.Ok(Chat.SeenCopies(Chat.Unseen(old(store).Get(side)), now))
        && out == if r.value == [] then [] else Transport.FanOut(sockets, None, MessagesSeen(r.value))
      ensures sockets == old(sockets) && users == old(users) && clients == old(clients) && timers == old(timers)
    {
      var db, reply := Chat.MarkAsSeen(store, user, now);
      store, r := db, reply;
      if r.Ok? && r.value != [] {
        out := Transport.Broadcast(sockets, MessagesSeen(r.value));
      } else {
        out := [];
      }
    }

    /** Clear both partitions, then broadcast the clear. */
    method ClearMessages() returns (out: Deliveries)
      requires Valid()
      modifies this
      ensures Valid()
      ensures store == Chat.Clear()
      ensures out == Transport.FanOut(sockets, None, ChatCleared)
      ensures sockets == old(sockets) && users == old(users) && clients == old(clients) && timers == old(timers)
    {
      store := Chat.Clear();
      out := Transport.Broadcast(sockets, ChatCleared);
    }
  }
}
