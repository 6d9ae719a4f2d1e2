# Real-Time-Chatting server core, modelled in Dafny

This project models the state-holding core of the chat server in `server.js`. The core has three parts.

- **Presence registry.** `clients` maps each user name to the set of that user's live WebSocket connections. A `register` frame adds the connection to the set. A close removes it, and drops the user when the set is empty. Each close of a registered connection schedules a grace-period check. When the check fires, it announces the user offline only if the user is still absent from the registry.
- **Relay fan-out.** Every frame other than `register` is forwarded verbatim to every open connection except its sender. `broadcast` sends to every open connection, the sender included.
- **Chat service.** Messages live in two partitions of the store. `alpha_messages` holds what `alpha` sent; `beta_messages` holds what everybody else sent. The HTTP handlers create, list, count unread, mark as seen and clear messages. Create, mark-as-seen and clear also broadcast a notification.

Files:

- `common.dfy`: shared types (`UserId`, `ConnId`, `Key`, `Time`, `Option`) and `Given`, which is JavaScript truthiness of an optional string.
- `transport.dfy`: the client set as a sequence of sockets, each with an open flag. It holds the fan-out specification `FanOut` and the two loops `Broadcast` and `Relay`.
- `presence.dfy`: the registry as a `map<UserId, set<ConnId>>`, with its register and unregister functions and their lemmas.
- `chat.dfy`: the store as two sequences of messages in key order, and the handler bodies over it. The `forEach` loop of mark-as-seen is the method `CollectSeen`.
- `server.dfy`: the class `Hub`. It holds the shared state: the client set, each connection's `ws.user`, `clients`, the pending grace timers and the store. Its methods are the WebSocket event handlers and the HTTP handlers that broadcast.

Behaviour worth noting, modelled as `server.js` has it:

- Every registration broadcasts `online`, not only the first one for a user.
- There is no targeted delivery or status query. Every non-`register` frame is relayed to all other open connections.
- Unread count and mark-as-seen pick a partition by the viewer's name (`alpha` reads `beta_messages`; anyone else reads `alpha_messages`). They do not filter on the sender.
- List does not enrich replies.

Two behaviours of the source are modelled as written and stated in contracts:

- Closing checks `if (ws.user)`. A connection registered under the empty name `""` is therefore never removed from `clients` (`Server.Hub.OnClose`).
- A connection that registers a second time under another name stays in the first user's set after it closes (`Presence.ReRegisterLeavesStaleEntry`).

The registry invariant is `Presence.NoEmptySets` plus `Presence.Tracked`: every key has a non-empty set, and every live tagged connection is in its user's set. `Server.Hub.Valid` keeps both. As a result, a user with a live registered connection is never announced offline (`Server.Hub.FireGraceTimer`).

## Model

| member | source | states |
|---|---|---|
| `Transport.FanOut` | server.js:63-69 | every delivery carries the frame unchanged, goes to an open socket, and never goes to the excluded sender |
| `Transport.FanOutExactlyOnce` | server.js:63-69 | with distinct sockets, each open socket other than the excluded one receives the frame exactly once, and any other socket receives it zero times |
| `Transport.Broadcast` | server.js:29-33 | the `broadcast` loop delivers exactly `FanOut` with nobody excluded: every open socket, the sender included |
| `Transport.Relay` | server.js:63-69 | the relay loop delivers exactly `FanOut` excluding the sender: every open socket but the sender, never a closed one |
| `Transport.Joined` | server.js:35 | a new connection joins the client set open, at the end of the iteration order; every existing socket keeps its place and its open flag; ids stay distinct |
| `Transport.Closing` | server.js:66 | a socket whose close has begun keeps its place in the set but is no longer open; every other socket keeps its place and state |
| `Transport.Without` | server.js:72 | a closed socket leaves the client set; all other sockets remain, in their original order |
| `Presence.Register` | server.js:46-50 | afterwards the user is a key and the connection is in its set; the set gains exactly that connection; other users are unchanged; no key maps to an empty set |
| `Presence.Unregister` | server.js:77-86 | exactly the one connection leaves the user's set; the user is dropped iff nothing else is left; an unknown user leaves the map unchanged; other users are unchanged; no key maps to an empty set |
| `Presence.RegisterIdempotent` | server.js:46-50 | registering the same connection twice equals registering it once |
| `Presence.RegisterKnownConnection` | server.js:50 | registering a connection already in the user's set leaves the registry unchanged |
| `Presence.StaysOnlineWithAnotherConnection` | server.js:80-85 | closing one of several connections keeps the user, with the remaining connections |
| `Presence.LastConnectionRemovesUser` | server.js:83-85 | closing the only connection removes the user's key and nothing else |
| `Presence.GoneOffline` | server.js:91 | the recheck reports a user offline only when it has no registered connection, and, with the registry invariant, always when it has none |
| `Presence.ReconnectSuppressesOffline` | server.js:90-91 | a re-register between the close and the timer means the recheck finds the user present |
| `Presence.RegisterKeepsTracked` | server.js:43-50 | tagging a connection and registering it keeps every tagged connection in its user's set |
| `Presence.UnregisterKeepsTracked` | server.js:75-86 | closing a tagged connection keeps every other tagged connection in its user's set |
| `Presence.ReRegisterLeavesStaleEntry` | server.js:43-84 | a connection registered as one user and then another stays in the first user's set after it closes |
| `Chat.WriterSide` | server.js:140 | a message goes to `alpha_messages` exactly when its sender is `alpha` |
| `Chat.ReaderSide` | server.js:178 | a viewer reads the partition its default counterpart writes, and never the partition it writes itself |
| `Chat.OtherParty` | server.js:147 | the default recipient is `alpha` or `beta`, and never the sender |
| `Chat.Create` | server.js:136-158 | the message gets the fresh key. It goes to `alpha_messages` iff the sender is `alpha`, appended at the end, and the other partition is unchanged. The recipient defaults to the other party and `reply_to_id` to null. It is unseen with no seen stamp and created at `now`. The store invariant is kept |
| `Chat.SortByCreation` | server.js:126 | the result is ordered by `created_at` and is a permutation of the input |
| `Chat.ListAll` | server.js:108-128 | the list holds every message of both partitions exactly once, its length is the sum of the partition sizes, and it is ordered by `created_at` |
| `Chat.Unseen` | server.js:182 | the `is_seen == false` query holds exactly the unseen messages of the partition |
| `Chat.UnseenCountsKeys` | server.js:182-184 | with unique keys, the size of the query result equals the number of unseen keys |
| `Chat.UnreadCount` | server.js:171-185 | a missing or empty user is answered with 400. Otherwise the count is the number of unseen keys in `beta_messages` for `alpha`, and in `alpha_messages` for anyone else |
| `Chat.MarkAllSeen` | server.js:211-228 | every previously unseen message becomes exactly itself with `is_seen` true and `seen_at` the one stamp, all other fields kept; already-seen messages are unchanged; ids and order are kept; nothing is left unseen; the store invariant is kept |
| `Chat.SeenCopies` | server.js:219-224 | entry i of the payload is pending message i with every field kept, except `is_seen` set true and `seen_at` set to the one stamp; the keys are the same |
| `Chat.ApplyUpdates` | server.js:227-228 | the multi-path update keeps length, order and keys. A message whose key is named gets `is_seen` true and the named `seen_at`, with every other field kept. Every other message is unchanged |
| `Chat.CollectSeen` | server.js:215-225 | the loop's updates name exactly the pending keys, all with the same stamp, and the payload is each pending message with `is_seen` true and that stamp |
| `Chat.UpdatesHitUnseen` | server.js:227-228 | with unique keys, applying the collected updates marks exactly the unseen messages, which gives `MarkAllSeen` |
| `Chat.MarkAsSeen` | server.js:193-233 | a missing user is answered with 400 and the store is unchanged. Otherwise the other party's partition becomes `MarkAllSeen` with stamp `now`, and the viewer's own partition is unchanged. The reply lists exactly the previously unseen messages, updated. The store invariant is kept |
| `Chat.Clear` | server.js:241-245 | after a clear nothing is listed and the store invariant holds |
| `Chat.CreateThenList` | server.js:145-158 | a created message is listed exactly as returned, unseen and without a stamp, and the list grows by one |
| `Chat.CreateRaisesUnread` | server.js:140-151 | a new message raises by one the unread count of the viewer who reads the sender's partition |
| `Chat.MarkAsSeenIdempotent` | server.js:204-209 | after a mark-as-seen the query finds nothing, and a second mark changes nothing |
| `Chat.PayloadIsStored` | server.js:215-228 | every message in the mark-as-seen payload is in the updated partition as sent |
| `Chat.ChangedIsInPayload` | server.js:215-225 | every message the update changed appears in the payload |
| `Chat.AlphaToBetaExchange` | server.js:140-233 | `alpha` posts with no recipient. The message is addressed to `beta` and unseen, and `beta`'s unread count is 1. Marking returns that one message seen at the stamp, and the count drops to 0 |
| `Chat.ClearEmptiesEverything` | server.js:241-256 | after a clear the list is empty and every user's unread count is 0 |
| `Server.Hub.constructor` | server.js:24-27 | the server starts with no connections, an empty registry and no timers |
| `Server.Hub.Connect` | server.js:35 | a connection joins the client set; nothing else changes |
| `Server.Hub.BeginClose` | server.js:66 | a closing connection stops being open; nothing else changes |
| `Server.Hub.OnMessage` | server.js:38-70 | `register` tags the connection, registers it and broadcasts the user online to every open connection. Any other frame is relayed verbatim to every open connection but the sender, and the registry is unchanged |
| `Server.Hub.OnClose` | server.js:72-100 | the connection leaves the client set. If it carries a non-empty user name, it leaves that user's set and a grace check for the user is queued; otherwise the registry and timers are unchanged. The registry invariant is kept |
| `Server.Hub.FireGraceTimer` | server.js:90-98 | the oldest check fires. Offline and peer-disconnected are broadcast iff the user is absent from the registry, and never while a live connection is registered under that user |
| `Server.Hub.PostMessage` | server.js:136-163 | the store becomes `Chat.Create`'s, and the new message is broadcast to every open connection |
| `Server.Hub.MarkAsSeen` | server.js:193-233 | the store and reply are `Chat.MarkAsSeen`'s, and the seen messages are broadcast only when there were some |
| `Server.Hub.ClearMessages` | server.js:241-251 | both partitions are emptied and the clear is broadcast |

## Left out

- Express routing, body parsing, static files and the `/` route, and status codes other than the 400 branches. These are HTTP plumbing.
- Store failures and the 500 branches. Firebase errors come from code outside this model.
- The WebSocket server itself and the `error` handler's logging. "Open" is the socket's flag only.
- `JSON.parse` of frames. A frame that does not parse throws inside the handler; frames are modelled as already parsed.
- A `register` frame without `payload` throws when the handler reads `payload.user`; it is not modelled. Frames of any other type never read `payload` and are relayed.
- A `register` frame whose `payload` has no `user` registers under the name `undefined`. Like the name `""`, that connection is never removed on close, because `ws.user` is falsy. User names are modelled as strings, so this case is not modelled separately.
- Real timers and the 5000 ms delay. All checks share one delay, so they fire in the order they were scheduled; firing is an explicit event.
- Interleaving of asynchronous handlers. Each handler is one atomic step, although in the source the list's two reads, and mark-as-seen's query and update, are separate awaits.
- Firebase push-key generation. The key is a parameter assumed fresh in its partition.
- ISO-8601 strings and `new Date` parsing. Timestamps are integers ordered as time.
- The key order of Firebase snapshots. A partition is kept in key order, and both query results and the mark-as-seen payload follow it.
- Chat.CollectSeen: the two update paths per key (`is_seen` and `seen_at`) are modelled as one map entry per key holding the stamp.
- Chat.ListAll: `Array.prototype.sort` is stable. `SortByCreation` is stable by construction, but no lemma states the order of messages with equal `created_at`.
- Chat.Create: a missing `sender` is not modelled, because the store rejects undefined fields. Content is an opaque string.
- The listing and unread-count handlers are the functions `Chat.ListAll` and `Chat.UnreadCount` applied to `Hub.store`. They have no `Hub` method of their own, since they change nothing.
- db.js and firebase.js are not part of this model. They only configure drivers and credentials.
