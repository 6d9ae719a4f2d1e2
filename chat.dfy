/**
 * The chat service: the message handlers over a store of two partitions,
 * `alpha_messages` (what "alpha" sent) and `beta_messages` (what everybody
 * else sent). Each partition is a sequence of messages in key order; a
 * message's `id` is its key in the partition.
 */
module Chat {
  import opened Common

  /** A stored message body. */
  datatype Record = Record(
    sender: UserId,
    recipient: UserId,
    content: string,
    timeString: string,
    replyToId: Option<Key>,
    isSeen: bool,
    seenAt: Option<Time>,
    createdAt: Time)

  /** A record tagged with its key, as the handlers return it. */
  datatype Message = Message(id: Key, rec: Record)

  type Partition = seq<Message>

  datatype Side = Alpha | Beta

  /** The two partitions of the store. */
  datatype Store = Store(alpha: Partition, beta: Partition)
  {
    function Get(side: Side): Partition
    {
      match side
      case Alpha => alpha
      case Beta => beta
    }

    function Put(side: Side, p: Partition): (r: Store)
      ensures r.Get(side) == p && r.Get(Opposite(side)) == Get(Opposite(side))
    {
      match side
      case Alpha => this.(alpha := p)
      case Beta => this.(beta := p)
    }
  }

  function Opposite(side: Side): Side
  {
    match side
    case Alpha => Beta
    case Beta => Alpha
  }

  /** The partition a sender writes to: `alpha_messages` exactly for "alpha". */
  function WriterSide(sender: UserId): (side: Side)
    ensures side == Alpha <==> sender == "alpha"
  {
    if sender == "alpha" then Alpha else Beta
  }

  /**
   * The partition holding the messages a viewer receives: the one its
   * default counterpart writes, never the one it writes itself.
   */
  function ReaderSide(viewer: UserId): (side: Side)
    ensures side == WriterSide(OtherParty(viewer))
    ensures side != WriterSide(viewer)
  {
    if viewer == "alpha" then Beta else Alpha
  }

  /** The recipient assumed when a request names none: one of the two parties, never the sender. */
  function OtherParty(sender: UserId): (r: UserId)
    ensures r != sender
    ensures r == "alpha" || r == "beta"
  {
    if sender == "alpha" then "beta" else "alpha"
  }

  function Ids(p: Partition): set<Key>
  {
    set m | m in p :: m.id
  }

  predicate UniqueIds(p: Partition)
  {
    forall i, j :: 0 <= i < j < |p| ==> p[i].id != p[j].id
  }

  /** A message carries a seen stamp exactly when it is seen. */
  predicate SeenStamped(p: Partition)
  {
    forall m :: m in p ==> (m.rec.isSeen <==> m.rec.seenAt.Some?)
  }

  /** The store's invariant: keys are unique per partition and seen stamps agree with the seen flags. */
  predicate WellFormed(db: Store)
  {
    UniqueIds(db.alpha) && UniqueIds(db.beta) && SeenStamped(db.alpha) && SeenStamped(db.beta)
  }

  /** An HTTP reply: a value, or status 400 for a missing user parameter. */
  datatype Reply<T> = Ok(value: T) | BadRequest

  // ---------------------------------------------------------------- create

  /** The body of a create request; absent optional fields are `None`. */
  datatype Draft = Draft(
    sender: UserId,
    recipient: Option<UserId>,
    content: string,
    timeString: string,
    replyToId: Option<Key>)

  /**
   * Create: build the record, append it under the fresh `key` to the
   * sender's partition, and return it tagged with that key.
   */
  function Create(db: Store, req: Draft, key: Key, now: Time): (r: (Store, Message))
    requires key !in Ids(db.Get(WriterSide(req.sender)))
    ensures var (db', m) := r;
      && m.id == key
      && m.rec.sender == req.sender && m.rec.content == req.content && m.rec.timeString == req.timeString
      && m.rec.recipient == (if Given(req.recipient) then req.recipient.value
                             else if req.sender == "alpha" then "beta" else "alpha")
      && m.rec.replyToId == (if Given(req.replyToId) then req.replyToId else None)
      && !m.rec.isSeen && m.rec.seenAt == None && m.rec.createdAt == now
      && (req.sender == "alpha" ==> db'.alpha == db.alpha + [m] && db'.beta == db.beta)
      && (req.sender != "alpha" ==> db'.beta == db.beta + [m] && db'.alpha == db.alpha)
    ensures WellFormed(db) ==> WellFormed(r.0)
  {
    var side := WriterSide(req.sender);
    var rec := Record(
      req.sender,
      if Given(req.recipient) then req.recipient.value else OtherParty(req.sender),
      req.content,
      req.timeString,
      if Given(req.replyToId) then req.replyToId else None,
      false,
      None,
      now);
    var m := Message(key, rec);
    AppendFresh(db.Get(side), m);
    (db.Put(side, db.Get(side) + [m]), m)
  }

  lemma AppendFresh(p: Partition, m: Message)
    requires m.id !in Ids(p)
    ensures UniqueIds(p) ==> UniqueIds(p + [m])
  {
  }

  // ------------------------------------------------------------------ list

  predicate SortedByCreation(s: seq<Message>)
  {
    forall i, j :: 0 <= i < j < |s| ==> s[i].rec.createdAt <= s[j].rec.createdAt
  }

  /** Insert `m` before the first element created no earlier than it. */
  function InsertByCreation(m: Message, s: seq<Message>): (r: seq<Message>)
    requires SortedByCreation(s)
    ensures SortedByCreation(r)
    ensures multiset(r) == multiset(s) + multiset{m}
  {
    if s == [] || m.rec.createdAt <= s[0].rec.createdAt then
      SortedCons(m, s);
      [m] + s
    else
      var tail := InsertByCreation(m, s[1..]);
      assert s == [s[0]] + s[1..];
      FirstIsLeast(s[0], s[1..], m, tail);
      SortedCons(s[0], tail);
      [s[0]] + tail
  }

  /** A message no later than every element of a sorted sequence can go in front. */
  lemma SortedCons(x: Message, t: seq<Message>)
    requires SortedByCreation(t)
    requires forall k :: 0 <= k < |t| ==> x.rec.createdAt <= t[k].rec.createdAt
    ensures SortedByCreation([x] + t)
  {
  }

  /** The head of a sorted sequence is no later than anything in a permutation of its tail plus a later message. */
  lemma FirstIsLeast(first: Message, rest: seq<Message>, m: Message, tail: seq<Message>)
    requires SortedByCreation([first] + rest)
    requires first.rec.createdAt < m.rec.createdAt
    requires multiset(tail) == multiset(rest) + multiset{m}
    ensures forall k :: 0 <= k < |tail| ==> first.rec.createdAt <= tail[k].rec.createdAt
  {
    var s := [first] + rest;
    forall k | 0 <= k < |tail| ensures first.rec.createdAt <= tail[k].rec.createdAt {
      var x := tail[k];
      assert x in multiset(tail);
      if x != m {
        assert x in multiset(rest);
        var j :| 0 <= j < |rest| && rest[j] == x;
        assert s[0] == first && s[j + 1] == x;
      }
    }
  }

  /** A stable sort by `createdAt`. */
  function SortByCreation(s: seq<Message>): (r: seq<Message>)
    ensures SortedByCreation(r)
    ensures multiset(r) == multiset(s)
  {
    if s == [] then []
    else
      assert s == [s[0]] + s[1..];
      InsertByCreation(s[0], SortByCreation(s[1..]))
  }

  /**
   * List: every message of both partitions, each once, ordered by creation
   * time.
   */
  function ListAll(db: Store): (r: seq<Message>)
    ensures multiset(r) == multiset(db.alpha) + multiset(db.beta)
    ensures |r| == |db.alpha| + |db.beta|
    ensures SortedByCreation(r)
  {
    var all := db.alpha + db.beta;
    assert |multiset(SortByCreation(all))| == |multiset(all)|;
    SortByCreation(all)
  }

  // ---------------------------------------------------------- unread count

  /** The result of querying a partition for `is_seen == false`, in key order. */
  function Unseen(p: Partition): (r: Partition)
    ensures forall m :: m in r <==> m in p && !m.rec.isSeen
    ensures |r| <= |p|
  {
    if p == [] then []
    else (if p[0].rec.isSeen then [] else [p[0]]) + Unseen(p[1..])
  }

  /** A partition whose messages are all seen has no unseen result. */
  lemma {:induction false} AllSeenNoneUnseen(p: Partition)
    requires forall i :: 0 <= i < |p| ==> p[i].rec.isSeen
    ensures Unseen(p) == []
  {
    if p != [] {
      AllSeenNoneUnseen(p[1..]);
    }
  }

  /** The keys of the unseen messages of a partition. */
  function UnseenIds(p: Partition): set<Key>
  {
    set m | m in p && !m.rec.isSeen :: m.id
  }

  /** With unique keys, the query result has one entry per unseen key. */
  lemma {:induction false} UnseenCountsKeys(p: Partition)
    ensures UniqueIds(p) ==> |Unseen(p)| == |UnseenIds(p)|
  {
    if p != [] && UniqueIds(p) {
      var tail := p[1..];
      assert UniqueIds(tail) by {
        forall i, j | 0 <= i < j < |tail| ensures tail[i].id != tail[j].id {
          assert tail[i] == p[i + 1] && tail[j] == p[j + 1];
        }
      }
      UnseenCountsKeys(tail);
      assert p == [p[0]] + tail;
      assert p[0].id !in Ids(tail) by {
        forall i | 0 <= i < |tail| ensures tail[i].id != p[0].id {
          assert tail[i] == p[i + 1];
        }
      }
      if p[0].rec.isSeen {
        assert UnseenIds(p) == UnseenIds(tail);
      } else {
        assert UnseenIds(p) == UnseenIds(tail) + {p[0].id};
        assert p[0].id !in UnseenIds(tail);
      }
    }
  }

  /**
   * Unread count: 400 without a user; otherwise the number of unseen keys in
   * the partition of the other party.
   */
  function UnreadCount(db: Store, user: Option<UserId>): (r: Reply<nat>)
    ensures r.BadRequest? <==> !Given(user)
    ensures Given(user) && user.value == "alpha" && UniqueIds(db.beta) ==> r == Ok(|UnseenIds(db.beta)|)
    ensures Given(user) && user.value != "alpha" && UniqueIds(db.alpha) ==> r == Ok(|UnseenIds(db.alpha)|)
  {
    if !Given(user) then BadRequest
    else
      var p := db.Get(ReaderSide(user.value));
      UnseenCountsKeys(p);
      Ok(|Unseen(p)|)
  }

  // ---------------------------------------------------------- mark as seen

  function Seen(m: Message, stamp: Time): Message
  {
    m.(rec := m.rec.(isSeen := true, seenAt := Some(stamp)))
  }

  /** Two partitions with the same key at every position have the same keys. */
  lemma SameIds(p: Partition, r: Partition)
    requires |r| == |p| && forall i :: 0 <= i < |p| ==> r[i].id == p[i].id
    ensures Ids(r) == Ids(p)
  {
  }

  /** The broadcast payload: each message, all fields kept, with its seen fields set. */
  function SeenCopies(ms: seq<Message>, stamp: Time): (r: seq<Message>)
    ensures |r| == |ms| && Ids(r) == Ids(ms)
    ensures forall i :: 0 <= i < |ms| ==> r[i] == Seen(ms[i], stamp)
    ensures forall m :: m in r ==> m.rec.isSeen && m.rec.seenAt == Some(stamp)
  {
    var r := seq(|ms|, i requires 0 <= i < |ms| => Seen(ms[i], stamp));
    SameIds(ms, r);
    r
  }

  /** A multi-path update: each key named in `updates` gets `is_seen` and its `seen_at` stamp. */
  function ApplyUpdates(p: Partition, updates: map<Key, Time>): (r: Partition)
    ensures |r| == |p| && Ids(r) == Ids(p)
    ensures forall i :: 0 <= i < |p| && p[i].id !in updates ==> r[i] == p[i]
    ensures forall i :: 0 <= i < |p| && p[i].id in updates ==> r[i] == Seen(p[i], updates[p[i].id])
  {
    var r := seq(|p|, i requires 0 <= i < |p| => if p[i].id in updates then Seen(p[i], updates[p[i].id]) else p[i]);
    SameIds(p, r);
    r
  }

  /**
   * The partition after a mark-as-seen at time `stamp`: every unseen message
   * is seen with that stamp, every other message is as it was.
   */
  function MarkAllSeen(p: Partition, stamp: Time): (r: Partition)
    ensures |r| == |p| && Ids(r) == Ids(p)
    ensures forall i :: 0 <= i < |p| ==> r[i].id == p[i].id && r[i].rec.isSeen
    ensures forall i :: 0 <= i < |p| && p[i].rec.isSeen ==> r[i] == p[i]
    ensures forall i :: 0 <= i < |p| && !p[i].rec.isSeen ==> r[i] == Seen(p[i], stamp)
    ensures Unseen(r) == []
    ensures UniqueIds(p) ==> UniqueIds(r)
    ensures SeenStamped(p) ==> SeenStamped(r)
  {
    var r := seq(|p|, i requires 0 <= i < |p| => if p[i].rec.isSeen then p[i] else Seen(p[i], stamp));
    AllSeenNoneUnseen(r);
    SameIds(p, r);
    r
  }

  /** The loop of the handler: one update and one payload entry per pending message. */
  method CollectSeen(pending: Partition, stamp: Time) returns (updates: map<Key, Time>, payload: seq<Message>)
    ensures updates.Keys == Ids(pending)
    ensures forall k :: k in updates ==> updates[k] == stamp
    ensures payload == SeenCopies(pending, stamp)
  {
    updates, payload := map[], [];
    for i := 0 to |pending|
      invariant updates.Keys == Ids(pending[..i])
      invariant forall k :: k in updates ==> updates[k] == stamp
      invariant |payload| == i
      invariant forall j :: 0 <= j < i ==> payload[j] == Seen(pending[j], stamp)
    {
      assert pending[..i + 1] == pending[..i] + [pending[i]];
      updates := updates[pending[i].id := stamp];
      payload := payload + [Seen(pending[i], stamp)];
    }
    assert pending[..|pending|] == pending;
  }

  /** With unique keys, a key of an unseen message names exactly that message. */
  lemma UpdatesHitUnseen(p: Partition, stamp: Time, updates: map<Key, Time>)
    requires UniqueIds(p)
    requires updates.Keys == Ids(Unseen(p))
    requires forall k :: k in updates ==> updates[k] == stamp
    ensures ApplyUpdates(p, updates) == MarkAllSeen(p, stamp)
  {
  }

  /**
   * Mark-as-seen for a viewer: 400 without a user; otherwise every unseen
   * message of the other party's partition is marked seen with the stamp
   * `now`, and the reply lists exactly those messages, updated.
   */
  method MarkAsSeen(db: Store, user: Option<UserId>, now: Time) returns (db': Store, r: Reply<seq<Message>>)
    requires WellFormed(db)
    ensures !Given(user) ==> r == BadRequest && db' == db
    ensures Given(user) ==>
      var side := ReaderSide(user.value);
      && db'.Get(side) == MarkAllSeen(db.Get(side), now)
      && db'.Get(Opposite(side)) == db.Get(Opposite(side))
      && r == Ok(SeenCopies(Unseen(db.Get(side)), now))
    ensures WellFormed(db')
  {
    if !Given(user) {
      return db, BadRequest;
    }
    var side := ReaderSide(user.value);
    var part := db.Get(side);
    var pending := Unseen(part);
    if pending == [] {
      UpdatesHitUnseen(part, now, map[]);
      assert ApplyUpdates(part, map[]) == part;
      assert db.Put(side, part) == db;
      assert SeenCopies(pending, now) == [];
      return db, Ok([]);
    }
    var updates, payload := CollectSeen(pending, now);
    UpdatesHitUnseen(part, now, updates);
    db' := db.Put(side, ApplyUpdates(part, updates));
    r := Ok(payload);
  }

  // ----------------------------------------------------------------- clear

  /** Clear: both partitions are removed. */
  function Clear(): (r: Store)
    ensures ListAll(r) == [] && WellFormed(r)
  {
    Store([], [])
  }

  // ---------------------------------------------------------------- lemmas

  lemma {:induction false} UnseenAppend(p: Partition, m: Message)
    ensures Unseen(p + [m]) == Unseen(p) + (if m.rec.isSeen then [] else [m])
  {
    var last := if m.rec.isSeen then [] else [m];
    if p == [] {
      assert [m][1..] == [];
    } else {
      var q := p + [m];
      assert q[0] == p[0] && q[1..] == p[1..] + [m];
      var head := if p[0].rec.isSeen then [] else [p[0]];
      assert Unseen(q) == head + Unseen(q[1..]);
      assert Unseen(p) == head + Unseen(p[1..]);
      UnseenAppend(p[1..], m);
      assert Unseen(q) == head + (Unseen(p[1..]) + last);
    }
  }

  /** Round trip: a created message is listed, exactly as it was returned, still unseen. */
  lemma CreateThenList(db: Store, req: Draft, key: Key, now: Time)
    requires key !in Ids(db.Get(WriterSide(req.sender)))
    ensures var (db', m) := Create(db, req, key, now);
            m in ListAll(db') && !m.rec.isSeen && m.rec.seenAt == None
            && |ListAll(db')| == |ListAll(db)| + 1
  {
    var (db', m) := Create(db, req, key, now);
    assert m in multiset(ListAll(db'));
  }

  /** A new message adds one to the unread count of the viewer who reads the sender's partition. */
  lemma {:induction false} CreateRaisesUnread(db: Store, req: Draft, key: Key, now: Time, viewer: UserId)
    requires WellFormed(db)
    requires key !in Ids(db.Get(WriterSide(req.sender)))
    requires viewer != "" && ReaderSide(viewer) == WriterSide(req.sender)
    ensures UnreadCount(Create(db, req, key, now).0, Some(viewer)).Ok?
    ensures UnreadCount(Create(db, req, key, now).0, Some(viewer)).value
            == UnreadCount(db, Some(viewer)).value + 1
  {
    var (db', m) := Create(db, req, key, now);
    var side := WriterSide(req.sender);
    UnseenAppend(db.Get(side), m);
    assert db'.Get(side) == db.Get(side) + [m];
  }

  /** Idempotence: once marked, a second mark-as-seen finds nothing and changes nothing. */
  lemma MarkAsSeenIdempotent(p: Partition, first: Time, second: Time)
    ensures Unseen(MarkAllSeen(p, first)) == []
    ensures MarkAllSeen(MarkAllSeen(p, first), second) == MarkAllSeen(p, first)
  {
  }

  /** Every message in the mark-as-seen payload is stored, as sent, in the updated partition. */
  lemma PayloadIsStored(p: Partition, stamp: Time)
    ensures forall k :: 0 <= k < |Unseen(p)| ==> SeenCopies(Unseen(p), stamp)[k] in MarkAllSeen(p, stamp)
  {
  }

  /** Every message the update changed appears in the mark-as-seen payload. */
  lemma ChangedIsInPayload(p: Partition, stamp: Time)
    ensures forall i :: 0 <= i < |p| && MarkAllSeen(p, stamp)[i] != p[i] ==>
                        MarkAllSeen(p, stamp)[i] in SeenCopies(Unseen(p), stamp)
  {
    var u, r := Unseen(p), MarkAllSeen(p, stamp);
    forall i | 0 <= i < |p| && r[i] != p[i] ensures r[i] in SeenCopies(u, stamp) {
      assert p[i] in u;
      var k :| 0 <= k < |u| && u[k] == p[i];
      assert SeenCopies(u, stamp)[k] == r[i];
    }
  }

  /**
   * The alpha-to-beta exchange: "alpha" posts into a store with nothing
   * unread for "beta"; "beta" then has one unread message, marking it seen
   * returns that one message seen at the stamp, and nothing is unread after.
   */
  lemma AlphaToBetaExchange(db: Store, content: string, timeString: string, key: Key, now: Time, later: Time)
    requires WellFormed(db) && Unseen(db.alpha) == [] && key !in Ids(db.alpha)
    ensures var (db1, m) := Create(db, Draft("alpha", None, content, timeString, None), key, now);
            && m.rec.recipient == "beta" && !m.rec.isSeen
            && UnreadCount(db1, Some("beta")) == Ok(1)
            && SeenCopies(Unseen(db1.alpha), later) == [Seen(m, later)]
            && UnreadCount(db1.(alpha := MarkAllSeen(db1.alpha, later)), Some("beta")) == Ok(0)
  {
    var (db1, m) := Create(db, Draft("alpha", None, content, timeString, None), key, now);
    assert db1.alpha == db.alpha + [m];
    assert Unseen(db1.alpha) == [m] by {
      UnseenAppend(db.alpha, m);
    }
    assert SeenCopies([m], later) == [Seen(m, later)];
    assert UnreadCount(db1.(alpha := MarkAllSeen(db1.alpha, later)), Some("beta")) == Ok(0) by {
      assert Unseen(MarkAllSeen(db1.alpha, later)) == [];
    }
  }

  /** After a clear, nothing is listed and nothing is unread. */
  lemma ClearEmptiesEverything(user: UserId)
    requires user != ""
    ensures ListAll(Clear()) == []
    ensures UnreadCount(Clear(), Some(user)) == Ok(0)
  {
  }
}
