/**
  core_logic/managers.py: the log-dashboard manager (a list of sockets) and
  the chat manager keyed by socket (socket to username, in connection order).
  Every send here swallows its failure.
*/
module Managers {
  import opened Wrappers
  import opened Net
  import opened PyDict

  /** The recipient naming the whole group. */
  const Group := "GROUP"

  /** The id `disconnect` reports for a socket it does not know. */
  const UnknownClient := "Someone"

  /** What the chat manager sends, by its `type`. */
  datatype Notice =
    | UserListMsg(users: seq<string>)
    | ChatMsg(sender: string, recipient: string, message: string, timestamp: real)
    | SystemMsg(message: string, timestamp: real)

  /** `list.remove(x)`: drop the first occurrence of `x`; absent, nothing changes. */
  function RemoveFirst(s: seq<SocketId>, x: SocketId): seq<SocketId>
  {
    if s == [] then []
    else if s[0] == x then s[1..]
    else [s[0]] + RemoveFirst(s[1..], x)
  }

  /** Removal takes away exactly one occurrence, or nothing when there is none. */
  lemma {:induction false} RemoveFirstEffect(s: seq<SocketId>, x: SocketId)
    ensures x !in s ==> RemoveFirst(s, x) == s
    ensures x in s ==> |RemoveFirst(s, x)| == |s| - 1 && multiset(RemoveFirst(s, x)) == multiset(s) - multiset{x}
  {
    if s != [] {
      assert s == [s[0]] + s[1..];
      if s[0] != x {
        RemoveFirstEffect(s[1..], x);
      }
    }
  }

  /** Removal skips a prefix that does not hold `x`. */
  lemma {:induction false} RemoveFirstAfter(a: seq<SocketId>, b: seq<SocketId>, x: SocketId)
    requires x !in a
    ensures RemoveFirst(a + b, x) == a + RemoveFirst(b, x)
  {
    if a == [] {
      assert a + b == b;
    } else {
      assert (a + b)[0] == a[0] != x;
      assert (a + b)[1..] == a[1..] + b;
      RemoveFirstAfter(a[1..], b, x);
    }
  }

  /** The sockets of `s` whose sends succeed, in order. */
  function Live(s: seq<SocketId>, failing: set<SocketId>): seq<SocketId>
  {
    if s == [] then []
    else Live(s[..|s| - 1], failing) + (if s[|s| - 1] in failing then [] else [s[|s| - 1]])
  }

  /** The kept sockets are the ones of `s` outside `failing`, never more of them than `s` holds. */
  lemma {:induction false} LiveMembers(s: seq<SocketId>, failing: set<SocketId>)
    ensures |Live(s, failing)| <= |s|
    ensures forall w :: w in Live(s, failing) <==> w in s && w !in failing
  {
    if s != [] {
      var init := s[..|s| - 1];
      assert s == init + [s[|s| - 1]];
      LiveMembers(init, failing);
    }
  }

  /** The dashboards that got the log line are exactly the ones the broadcast keeps. */
  lemma {:induction false} LogReachesKept(s: seq<SocketId>, m: string, failing: set<SocketId>)
    ensures Targets(Deliver(s, m, failing)) == Live(s, failing)
  {
    if s != [] {
      var init := s[..|s| - 1];
      assert s == init + [s[|s| - 1]];
      LogReachesKept(init, m, failing);
      DeliverSnoc(init, s[|s| - 1], m, failing);
      var d := Deliver(init, m, failing);
      if s[|s| - 1] !in failing {
        assert Targets(d + [Outgoing(s[|s| - 1], m)]) == Targets(d) + [s[|s| - 1]];
      } else {
        assert d + [] == d;
      }
    }
  }

  /** One turn of `broadcast_log`'s loop, on what the list still holds. */
  lemma KeptStep(snapshot: seq<SocketId>, i: nat, failing: set<SocketId>)
    requires i < |snapshot|
    ensures snapshot[i] in failing ==>
      RemoveFirst(Live(snapshot[..i], failing) + snapshot[i..], snapshot[i]) == Live(snapshot[..i + 1], failing) + snapshot[i + 1..]
    ensures snapshot[i] !in failing ==>
      Live(snapshot[..i], failing) + snapshot[i..] == Live(snapshot[..i + 1], failing) + snapshot[i + 1..]
  {
    var x := snapshot[i];
    var kept := Live(snapshot[..i], failing);
    assert snapshot[..i + 1][..i] == snapshot[..i];
    assert Live(snapshot[..i + 1], failing) == kept + (if x in failing then [] else [x]);
    assert snapshot[i..] == [x] + snapshot[i + 1..];
    if x in failing {
      LiveMembers(snapshot[..i], failing);
      RemoveFirstAfter(kept, snapshot[i..], x);
      assert kept + [] == kept;
    } else {
      assert kept + snapshot[i..] == (kept + [x]) + snapshot[i + 1..];
    }
  }

  /** `LogManager`: the admin dashboards listening for log lines. */
  class LogManager {
    /** `active_connections`, in connection order; the same socket may appear twice. */
    var activeConnections: seq<SocketId>
    var outbox: seq<Outgoing<string>>

    constructor ()
      ensures activeConnections == [] && outbox == []
    {
      activeConnections, outbox := [], [];
    }

    /** `connect`: the socket is appended. */
    method Connect(ws: SocketId)
      modifies this`activeConnections
      ensures activeConnections == old(activeConnections) + [ws]
    {
      activeConnections := activeConnections + [ws];
    }

    /** `disconnect`: one occurrence of the socket leaves the list, if it is there. */
    method Disconnect(ws: SocketId)
      modifies this`activeConnections
      ensures activeConnections == RemoveFirst(old(activeConnections), ws)
    {
      activeConnections := RemoveFirst(activeConnections, ws);
    }

    /** One turn of `broadcast_log`: send the line, and disconnect the socket if the send fails. */
    method Notify(connection: SocketId, message: string, failing: set<SocketId>)
      modifies this
      ensures connection in failing ==>
        outbox == old(outbox) && activeConnections == RemoveFirst(old(activeConnections), connection)
      ensures connection !in failing ==>
        outbox == old(outbox) + [Outgoing(connection, message)] && activeConnections == old(activeConnections)
    {
      if connection in failing {
        Disconnect(connection);
      } else {
        outbox := outbox + [Outgoing(connection, message)];
      }
    }

    /**
      `broadcast_log`: the line goes to a snapshot of the list, and every
      socket whose send fails is disconnected, once per occurrence, so the
      list keeps exactly the sockets that received the line (`LogReachesKept`).
    */
    method BroadcastLog(message: string, failing: set<SocketId>)
      modifies this
      ensures outbox == old(outbox) + Deliver(old(activeConnections), message, failing)
      ensures activeConnections == Live(old(activeConnections), failing)
    {
      var snapshot := activeConnections;
      for i := 0 to |snapshot|
        invariant activeConnections == Live(snapshot[..i], failing) + snapshot[i..]
        invariant outbox == old(outbox) + Deliver(snapshot[..i], message, failing)
      {
        Notify(snapshot[i], message, failing);
        assert activeConnections == Live(snapshot[..i + 1], failing) + snapshot[i + 1..] by {
          KeptStep(snapshot, i, failing);
        }
        assert outbox == old(outbox) + Deliver(snapshot[..i + 1], message, failing) by {
          assert snapshot[..i + 1] == snapshot[..i] + [snapshot[i]];
          DeliverSnoc(snapshot[..i], snapshot[i], message, failing);
        }
      }
      assert snapshot[..|snapshot|] == snapshot;
    }
  }

  /** `get_websocket_by_username`'s answer: the first socket, in dict order, registered under `v`. */
  function KeyOf(d: seq<(SocketId, string)>, v: string): (r: Option<SocketId>)
    ensures r.None? <==> v !in Values(d)
    ensures r.Some? ==> (r.value, v) in d
  {
    if d == [] then None
    else if d[0].1 == v then Some(d[0].0)
    else
      assert Values(d) == [d[0].1] + Values(d[1..]);
      KeyOf(d[1..], v)
  }

  /** No entry before the one `KeyOf` finds carries that username. */
  lemma {:induction false} KeyOfFirst(d: seq<(SocketId, string)>, v: string, i: nat)
    requires i < |d| && d[i].1 == v
    ensures KeyOf(d, v).Some?
    ensures exists j :: 0 <= j <= i && d[j] == (KeyOf(d, v).value, v)
  {
    if d[0].1 != v {
      KeyOfFirst(d[1..], v, i - 1);
      var j :| 0 <= j <= i - 1 && d[1..][j] == (KeyOf(d[1..], v).value, v);
      assert d[j + 1] == d[1..][j];
    } else {
      assert d[0] == (KeyOf(d, v).value, v);
    }
  }

  function OptionSeq(o: Option<SocketId>): seq<SocketId>
  {
    if o.Some? then [o.value] else []
  }

  /** Who `broadcast_message` sends to: every socket for the group, else the recipient's and then the sender's. */
  function MessageTargets(d: seq<(SocketId, string)>, sender: string, recipient: string): seq<SocketId>
  {
    if recipient == Group then Keys(d) else OptionSeq(KeyOf(d, recipient)) + OptionSeq(KeyOf(d, sender))
  }

  /**
    A direct message reaches at most two sockets, each one registered to the
    recipient or the sender; when both are online it reaches the recipient's
    socket and then the sender's.
  */
  lemma DirectMessageTargets(d: seq<(SocketId, string)>, sender: string, recipient: string)
    requires recipient != Group
    ensures var t := MessageTargets(d, sender, recipient);
      && |t| <= 2
      && (forall w :: w in t ==> (w, recipient) in d || (w, sender) in d)
      && (recipient in Values(d) && sender in Values(d) ==>
            t == [KeyOf(d, recipient).value, KeyOf(d, sender).value])
  {
  }

  /**
    One username may sit behind two sockets: after two connections under the
    same name, the online-user list shows that name twice.
  */
  lemma SameNameTwice(d: seq<(SocketId, string)>, w1: SocketId, w2: SocketId, name: string)
    requires DistinctKeys(d) && w1 != w2
    ensures var users := Values(Put(Put(d, w1, name), w2, name));
      exists i, j :: 0 <= i < j < |users| && users[i] == name && users[j] == name
  {
    var d1 := Put(d, w1, name);
    var d2 := Put(d1, w2, name);
    PutDistinct(d, w1, name);
    PutGet(d, w1, name, w1);
    PutGet(d1, w2, name, w1);
    PutGet(d1, w2, name, w2);
    GetFinds(d2, w1);
    GetFinds(d2, w2);
    var a :| 0 <= a < |d2| && d2[a] == (w1, name);
    var b :| 0 <= b < |d2| && d2[b] == (w2, name);
    ValuesAt(d2, a);
    ValuesAt(d2, b);
    var users := Values(d2);
    if a < b {
      assert 0 <= a < b < |users| && users[a] == name && users[b] == name;
    } else {
      assert 0 <= b < a < |users| && users[b] == name && users[a] == name;
    }
  }

  /** `ConnectionManager` of managers.py: socket to username. */
  class ConnectionManager {
    /** `client_ids`, in connection order. */
    var clientIds: seq<(SocketId, string)>
    var outbox: seq<Outgoing<Notice>>

    ghost predicate Valid()
      reads this
    {
      DistinctKeys(clientIds)
    }

    constructor ()
      ensures Valid() && clientIds == [] && outbox == []
    {
      clientIds, outbox := [], [];
    }

    /** `get_online_users`: the usernames, in connection order (one per socket, so possibly repeated). */
    method GetOnlineUsers() returns (users: seq<string>)
      ensures |users| == |clientIds|
      ensures forall i :: 0 <= i < |clientIds| ==> users[i] == clientIds[i].1
    {
      users := Values(clientIds);
      forall i | 0 <= i < |clientIds| ensures users[i] == clientIds[i].1 {
        ValuesAt(clientIds, i);
      }
    }

    /** `broadcast_user_list`: every socket gets the list of usernames. */
    method BroadcastUserList(failing: set<SocketId>)
      modifies this`outbox
      ensures outbox == old(outbox) + Deliver(Keys(clientIds), UserListMsg(Values(clientIds)), failing)
    {
      Send(Keys(clientIds), UserListMsg(Values(clientIds)), failing);
    }

    /** `connect`: register the socket under the username, then send the new user list. */
    method Connect(ws: SocketId, clientId: string, failing: set<SocketId>)
      requires Valid()
      modifies this
      ensures Valid()
      ensures clientIds == Put(old(clientIds), ws, clientId)
      ensures outbox == old(outbox) + Deliver(Keys(clientIds), UserListMsg(Values(clientIds)), failing)
    {
      PutDistinct(clientIds, ws, clientId);
      clientIds := Put(clientIds, ws, clientId);
      BroadcastUserList(failing);
    }

    /** `disconnect`: forget the socket, send the new user list, and report whose it was ("Someone" if unknown). */
    method Disconnect(ws: SocketId, failing: set<SocketId>) returns (clientId: string)
      requires Valid()
      modifies this
      ensures Valid()
      ensures clientId == if Get(old(clientIds), ws).Some? then Get(old(clientIds), ws).value else UnknownClient
      ensures clientIds == Remove(old(clientIds), ws)
      ensures Get(clientIds, ws) == None
      ensures Get(old(clientIds), ws) == None ==> clientIds == old(clientIds)
      ensures outbox == old(outbox) + Deliver(Keys(clientIds), UserListMsg(Values(clientIds)), failing)
    {
      var found := Get(clientIds, ws);
      clientId := if found.Some? then found.value else UnknownClient;
      RemoveKeys(clientIds, ws);
      RemoveGet(clientIds, ws, ws);
      GetFinds(clientIds, ws);
      if found.None? {
        RemoveAbsent(clientIds, ws);
      }
      clientIds := Remove(clientIds, ws);
      BroadcastUserList(failing);
    }

    /** `send_personal_json`: one send to that socket, registered or not. */
    method SendPersonalJson(data: Notice, ws: SocketId, failing: set<SocketId>)
      modifies this`outbox
      ensures outbox == old(outbox) + Deliver([ws], data, failing)
    {
      Send([ws], data, failing);
    }

    /** `broadcast_message`: a chat message, stamped with the current time, to its targets. */
    method BroadcastMessage(sender: string, recipient: string, message: string, now: real, failing: set<SocketId>)
      modifies this`outbox
      ensures outbox == old(outbox)
        + Deliver(MessageTargets(clientIds, sender, recipient), ChatMsg(sender, recipient, message, now), failing)
    {
      var msg := ChatMsg(sender, recipient, message, now);
      if recipient == Group {
        Send(Keys(clientIds), msg, failing);
      } else {
        var recipientWs := GetWebsocketByUsername(recipient);
        var senderWs := GetWebsocketByUsername(sender);
        ghost var before := outbox;
        Send(OptionSeq(recipientWs), msg, failing);
        Send(OptionSeq(senderWs), msg, failing);
        assert outbox == before + Deliver(OptionSeq(recipientWs) + OptionSeq(senderWs), msg, failing) by {
          DeliverAppend(OptionSeq(recipientWs), OptionSeq(senderWs), msg, failing);
        }
      }
    }

    /** `broadcast_system_message`: a system line, stamped with the current time, to every socket. */
    method BroadcastSystemMessage(message: string, now: real, failing: set<SocketId>)
      modifies this`outbox
      ensures outbox == old(outbox) + Deliver(Keys(clientIds), SystemMsg(message, now), failing)
    {
      Send(Keys(clientIds), SystemMsg(message, now), failing);
    }

    /** `get_websocket_by_username`: scan in dict order and return the first socket registered under the name. */
    method GetWebsocketByUsername(username: string) returns (ws: Option<SocketId>)
      ensures ws == KeyOf(clientIds, username)
      ensures ws.None? <==> username !in Values(clientIds)
      ensures ws.Some? ==> (ws.value, username) in clientIds
    {
      var i := 0;
      while i < |clientIds|
        invariant 0 <= i <= |clientIds|
        invariant KeyOf(clientIds, username) == KeyOf(clientIds[i..], username)
      {
        assert clientIds[i..][1..] == clientIds[i + 1..];
        if clientIds[i].1 == username {
          return Some(clientIds[i].0);
        }
        i := i + 1;
      }
      return None;
    }

    /** One send per target, in order, each failure swallowed. */
    method Send(targets: seq<SocketId>, p: Notice, failing: set<SocketId>)
      modifies this`outbox
      ensures outbox == old(outbox) + Deliver(targets, p, failing)
    {
      for i := 0 to |targets|
        invariant outbox == old(outbox) + Deliver(targets[..i], p, failing)
      {
        DeliverSnoc(targets[..i], targets[i], p, failing);
        assert targets[..i + 1] == targets[..i] + [targets[i]];
        if targets[i] !in failing {
          outbox := outbox + [Outgoing(targets[i], p)];
        }
      }
      assert targets[..|targets|] == targets;
    }
  }
}
