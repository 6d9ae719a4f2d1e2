/**
 * The transport's view of the server: the set of live WebSockets, each with
 * an open flag (readyState == OPEN), and the two fan-out loops over it.
 */
module Transport {
  import opened Common

  /** One entry of the server's client set. */
  datatype Socket = Socket(id: ConnId, open: bool)

  /** One frame handed to one socket. */
  datatype Delivery<P> = Delivery(to: ConnId, payload: P)

  function Ids(sockets: seq<Socket>): set<ConnId>
  {
    set s | s in sockets :: s.id
  }

  /** The client set is a set of distinct sockets. */
  predicate DistinctIds(sockets: seq<Socket>)
  {
    forall i, j :: 0 <= i < j < |sockets| ==> sockets[i].id != sockets[j].id
  }

  /**
   * The deliveries of `p` made by one pass over `sockets` in iteration order:
   * one to each open socket, skipping `except` when it is given.
   */
  function FanOut<P>(sockets: seq<Socket>, except: Option<ConnId>, p: P): (r: seq<Delivery<P>>)
    ensures |r| <= |sockets|
    ensures forall d :: d in r ==> d.payload == p && Socket(d.to, true) in sockets && except != Some(d.to)
  {
    if sockets == [] then []
    else
      var last := sockets[|sockets| - 1];
      FanOut(sockets[..|sockets| - 1], except, p)
        + (if last.open && except != Some(last.id) then [Delivery(last.id, p)] else [])
  }

  /**
   * Every open socket other than `except` receives `p` exactly once, and no
   * other socket receives anything.
   */
  lemma {:induction false} FanOutExactlyOnce<P>(sockets: seq<Socket>, except: Option<ConnId>, p: P, c: ConnId)
    requires DistinctIds(sockets)
    ensures multiset(FanOut(sockets, except, p))[Delivery(c, p)]
            == if Socket(c, true) in sockets && except != Some(c) then 1 else 0
  {
    if sockets != [] {
      var n := |sockets|;
      var init, last := sockets[..n - 1], sockets[n - 1];
      assert sockets == init + [last];
      assert DistinctIds(init);
      FanOutExactlyOnce(init, except, p, c);
      if c == last.id {
        forall i | 0 <= i < n - 1
          ensures init[i] != Socket(c, true)
        {
          assert sockets[i].id != sockets[n - 1].id;
        }
      }
    }
  }

  /** `broadcast`: send `p` to every open socket, the originator included. */
  method Broadcast<P>(sockets: seq<Socket>, p: P) returns (out: seq<Delivery<P>>)
    ensures out == FanOut(sockets, None, p)
  {
    out := [];
    for i := 0 to |sockets|
      invariant out == FanOut(sockets[..i], None, p)
    {
      assert sockets[..i + 1][..i] == sockets[..i];
      if sockets[i].open {
        out := out + [Delivery(sockets[i].id, p)];
      }
    }
    assert sockets[..|sockets|] == sockets;
  }

  /** The relay loop of the message handler: every open socket except the sender. */
  method Relay<P>(sockets: seq<Socket>, sender: ConnId, p: P) returns (out: seq<Delivery<P>>)
    ensures out == FanOut(sockets, Some(sender), p)
  {
    out := [];
    for i := 0 to |sockets|
      invariant out == FanOut(sockets[..i], Some(sender), p)
    {
      assert sockets[..i + 1][..i] == sockets[..i];
      if sockets[i].id != sender && sockets[i].open {
        out := out + [Delivery(sockets[i].id, p)];
      }
    }
    assert sockets[..|sockets|] == sockets;
  }

  /** A new connection joins the client set, open. */
  function Joined(sockets: seq<Socket>, c: ConnId): (r: seq<Socket>)
    requires c !in Ids(sockets)
    ensures Ids(r) == Ids(sockets) + {c}
    ensures Socket(c, true) in r
    ensures forall s :: s in r <==> s in sockets || s == Socket(c, true)
    ensures |r| == |sockets| + 1 && r[..|sockets|] == sockets
    ensures DistinctIds(sockets) ==> DistinctIds(r)
  {
    sockets + [Socket(c, true)]
  }

  /** A closing handshake started: the socket stays in the set but is no longer open. */
  function Closing(sockets: seq<Socket>, c: ConnId): (r: seq<Socket>)
    ensures |r| == |sockets|
    ensures forall i :: 0 <= i < |r| ==> r[i] == if sockets[i].id == c then sockets[i].(open := false) else sockets[i]
    ensures Ids(r) == Ids(sockets)
    ensures Socket(c, true) !in r
    ensures forall d :: d != c ==> (Socket(d, true) in r <==> Socket(d, true) in sockets)
    ensures DistinctIds(sockets) ==> DistinctIds(r)
  {
    if sockets == [] then []
    else
      var init, last := sockets[..|sockets| - 1], sockets[|sockets| - 1];
      var s := if last.id == c then last.(open := false) else last;
      assert sockets == init + [last];
      AppendOne(init, last);
      AppendOne(Closing(init, c), s);
      Closing(init, c) + [s]
  }

  /** A closed socket leaves the client set. */
  function Without(sockets: seq<Socket>, c: ConnId): (r: seq<Socket>)
    ensures Ids(r) == Ids(sockets) - {c}
    ensures forall s :: s in r <==> s in sockets && s.id != c
    ensures DistinctIds(sockets) ==> DistinctIds(r)
    ensures InOrder(r, sockets)
  {
    if sockets == [] then []
    else
      var init, last := sockets[..|sockets| - 1], sockets[|sockets| - 1];
      assert sockets == init + [last];
      AppendOne(init, last);
      var rest := Without(init, c);
      if last.id == c then
        rest
      else
        AppendOne(rest, last);
        rest + [last]
  }

  /** `sub` is `sockets` with some entries dropped and the rest in their original order. */
  ghost predicate InOrder(sub: seq<Socket>, sockets: seq<Socket>)
    decreases |sockets|
  {
    if sub == [] then true
    else if sockets == [] then false
    else if sub[|sub| - 1] == sockets[|sockets| - 1] then InOrder(sub[..|sub| - 1], sockets[..|sockets| - 1])
    else InOrder(sub, sockets[..|sockets| - 1])
  }

  /** Appending one socket adds its id, and keeps ids distinct when the id is new. */
  lemma AppendOne(sockets: seq<Socket>, s: Socket)
    ensures Ids(sockets + [s]) == Ids(sockets) + {s.id}
    ensures DistinctIds(sockets + [s]) <==> DistinctIds(sockets) && s.id !in Ids(sockets)
  {
    var r := sockets + [s];
    assert forall t :: t in r <==> t in sockets || t == s;
    assert forall i :: 0 <= i < |sockets| ==> r[i] == sockets[i];
    assert r[|sockets|] == s;
    if DistinctIds(r) {
      forall i | 0 <= i < |sockets|
        ensures sockets[i].id != s.id
      {
        assert r[i].id != r[|sockets|].id;
      }
    }
  }
}
