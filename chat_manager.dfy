/**
  The session registry of the chat server (`ConnectionManager` in main.py):
  for each online username its socket and its leaky bucket, and the three
  ways of sending (to one user, to all but one, the presence list).
*/
module ChatManager {
  import opened Wrappers
  import opened Net
  import opened PyDict
  import opened RateLimiter
  import opened Tables

  /** What the server sends, by its `type`. */
  datatype Payload =
    | UserList(users: seq<string>)
    | History(messages: seq<MessageView>)
    | UserTyping(username: string, recipient: string)
    | UserStopTyping(username: string, recipient: string)
    | ReactionUpdate(messageId: int, emoji: string, reactor: string)
    | MessageEdited(messageId: int, newText: string, editor: string)
    | MessageDeleted(messageId: int)
    | SearchResults(results: seq<SearchHit>)
    | UserStatusChanged(username: string, status: string, statusMessage: string)
    | Warning(waitSeconds: int)
    | ChatMessage(id: nat, sender: string, message: string, timestamp: real, recipient: string,
                  replyTo: Option<int>, fileUrl: Option<string>, fileType: Option<string>)

  /** Every session's bucket: `LeakyBucket(capacity=5, leak_rate=1.0)`. */
  const SessionCapacity := 5
  const SessionLeakRate := 1.0

  /** The answer of `check_rate_limit`: allowed, or rejected with a wait in whole seconds. */
  datatype RateVerdict = Allowed | SlowDown(waitSeconds: int)

  /** Python's `int()` on a float: truncation toward zero. */
  function Trunc(x: real): (r: int)
    ensures 0.0 <= x ==> r as real <= x < r as real + 1.0
    ensures x < 0.0 ==> r as real - 1.0 < x <= r as real
  {
    if x >= 0.0 then x.Floor else -((-x).Floor)
  }

  /** The wait `check_rate_limit` reports: `int((level - capacity) / leak_rate) + 1`. */
  function WaitSeconds(level: real, capacity: int, leakRate: real): int
    requires leakRate != 0.0
  {
    Trunc((level - capacity as real) / leakRate) + 1
  }

  /**
    With leak rate 1.0, whenever a message of size 1 has just been rejected by
    a bucket that was within its capacity, the reported wait is one second.
  */
  lemma RejectedWaitIsOneSecond(level: real, capacity: int)
    requires capacity as real - 1.0 < level <= capacity as real
    ensures WaitSeconds(level, capacity, 1.0) == 1
  {
    assert (level - capacity as real) / 1.0 == level - capacity as real;
  }

  /** The sockets `broadcast(message, exclude)` sends to, in dict order. */
  function Receivers(conns: seq<(string, SocketId)>, exclude: Option<string>): seq<SocketId>
  {
    if conns == [] then []
    else (if Some(conns[0].0) == exclude then [] else [conns[0].1]) + Receivers(conns[1..], exclude)
  }

  /**
    `broadcast`: send to each user but `exclude`, in dict order.  A failed
    send raises out of the loop, so nothing after it is sent; the flag says
    whether the loop completed.
  */
  function BroadcastRun(conns: seq<(string, SocketId)>, p: Payload, exclude: Option<string>, failing: set<SocketId>)
    : (seq<Outgoing<Payload>>, bool)
  {
    if conns == [] then ([], true)
    else if Some(conns[0].0) == exclude then BroadcastRun(conns[1..], p, exclude, failing)
    else if conns[0].1 in failing then ([], false)
    else
      var rest := BroadcastRun(conns[1..], p, exclude, failing);
      ([Outgoing(conns[0].1, p)] + rest.0, rest.1)
  }

  /** `send_personal_message`: one send to the user's socket, none when the user is not online; a failure raises. */
  function PersonalRun(conns: seq<(string, SocketId)>, username: string, p: Payload, failing: set<SocketId>)
    : (seq<Outgoing<Payload>>, bool)
  {
    match Get(conns, username)
    case None => ([], true)
    case Some(ws) => if ws in failing then ([], false) else ([Outgoing(ws, p)], true)
  }

  /** The loop over a concatenation: the second part runs only when the first completed. */
  lemma {:induction false} BroadcastRunAppend(a: seq<(string, SocketId)>, b: seq<(string, SocketId)>,
                                              p: Payload, exclude: Option<string>, failing: set<SocketId>)
    ensures BroadcastRun(a + b, p, exclude, failing)
         == if BroadcastRun(a, p, exclude, failing).1
            then (BroadcastRun(a, p, exclude, failing).0 + BroadcastRun(b, p, exclude, failing).0,
                  BroadcastRun(b, p, exclude, failing).1)
            else BroadcastRun(a, p, exclude, failing)
  {
    if a == [] {
      assert a + b == b;
      assert [] + BroadcastRun(b, p, exclude, failing).0 == BroadcastRun(b, p, exclude, failing).0;
    } else {
      assert (a + b)[0] == a[0];
      assert (a + b)[1..] == a[1..] + b;
      BroadcastRunAppend(a[1..], b, p, exclude, failing);
      if Some(a[0].0) != exclude && a[0].1 !in failing {
        var o := [Outgoing(a[0].1, p)];
        var ra, rb := BroadcastRun(a[1..], p, exclude, failing), BroadcastRun(b, p, exclude, failing);
        assert BroadcastRun(a, p, exclude, failing) == (o + ra.0, ra.1);
        assert BroadcastRun(a + b, p, exclude, failing) == (o + BroadcastRun(a[1..] + b, p, exclude, failing).0,
                                                           BroadcastRun(a[1..] + b, p, exclude, failing).1);
        assert o + (ra.0 + rb.0) == (o + ra.0) + rb.0;
      }
    }
  }

  /** One more connection at the end of the loop. */
  lemma BroadcastRunSnoc(a: seq<(string, SocketId)>, x: (string, SocketId),
                         p: Payload, exclude: Option<string>, failing: set<SocketId>)
    ensures var r := BroadcastRun(a, p, exclude, failing);
      BroadcastRun(a + [x], p, exclude, failing)
      == if !r.1 || Some(x.0) == exclude then r
         else if x.1 in failing then (r.0, false)
         else (r.0 + [Outgoing(x.1, p)], true)
  {
    BroadcastRunAppend(a, [x], p, exclude, failing);
    assert [x][1..] == [];
    assert BroadcastRun([x][1..], p, exclude, failing) == ([], true);
    assert [Outgoing(x.1, p)] + [] == [Outgoing(x.1, p)];
    assert BroadcastRun([x], p, exclude, failing)
        == if Some(x.0) == exclude then ([], true)
           else if x.1 in failing then ([], false)
           else ([Outgoing(x.1, p)], true);
    var r := BroadcastRun(a, p, exclude, failing);
    assert r.0 + [] == r.0;
  }

  /**
    A broadcast completes exactly when none of its receivers fails, and every
    send it makes carries `p`.
  */
  lemma {:induction false} BroadcastRunCompletes(conns: seq<(string, SocketId)>, p: Payload,
                                                 exclude: Option<string>, failing: set<SocketId>)
    ensures BroadcastRun(conns, p, exclude, failing).1 <==> forall w :: w in Receivers(conns, exclude) ==> w !in failing
    ensures forall o :: o in BroadcastRun(conns, p, exclude, failing).0 ==> o.payload == p
  {
    if conns != [] {
      BroadcastRunCompletes(conns[1..], p, exclude, failing);
      var tail := Receivers(conns[1..], exclude);
      if Some(conns[0].0) != exclude {
        assert Receivers(conns, exclude) == [conns[0].1] + tail;
      } else {
        assert Receivers(conns, exclude) == tail;
      }
    }
  }

  /**
    A completed broadcast sends once to each receiver, in dict order; an
    aborted one sends to a proper prefix of the receivers, so no one past the
    failed socket hears from it.
  */
  lemma {:induction false} BroadcastRunReceivers(conns: seq<(string, SocketId)>, p: Payload,
                                                 exclude: Option<string>, failing: set<SocketId>)
    ensures BroadcastRun(conns, p, exclude, failing).1 ==>
      Targets(BroadcastRun(conns, p, exclude, failing).0) == Receivers(conns, exclude)
    ensures !BroadcastRun(conns, p, exclude, failing).1 ==>
      Targets(BroadcastRun(conns, p, exclude, failing).0) < Receivers(conns, exclude)
  {
    if conns != [] {
      BroadcastRunReceivers(conns[1..], p, exclude, failing);
      var rest := BroadcastRun(conns[1..], p, exclude, failing).0;
      var tail := Receivers(conns[1..], exclude);
      if Some(conns[0].0) != exclude {
        assert Receivers(conns, exclude) == [conns[0].1] + tail;
        if conns[0].1 !in failing {
          assert Targets([Outgoing(conns[0].1, p)] + rest) == [conns[0].1] + Targets(rest);
        }
      } else {
        assert Receivers(conns, exclude) == tail;
      }
    }
  }

  /** Without an exclusion every online user is a receiver. */
  lemma {:induction false} ReceiversAll(conns: seq<(string, SocketId)>)
    ensures Receivers(conns, None) == Values(conns)
  {
    if conns != [] {
      ReceiversAll(conns[1..]);
    }
  }

  /**
    Excluding a user sends to the sockets of the dict without that user's
    entry: the other N - 1 users when the user is online, all N otherwise.
  */
  lemma {:induction false} ReceiversExcluding(conns: seq<(string, SocketId)>, u: string)
    requires DistinctKeys(conns)
    ensures Receivers(conns, Some(u)) == Values(Remove(conns, u))
    ensures |Receivers(conns, Some(u))| == if u in Keys(conns) then |conns| - 1 else |conns|
  {
    if conns != [] {
      assert Keys(conns) == [conns[0].0] + Keys(conns[1..]);
      if conns[0].0 == u {
        ReceiversNone(conns[1..], u);
      } else {
        ReceiversExcluding(conns[1..], u);
        assert Values([conns[0]] + Remove(conns[1..], u)) == [conns[0].1] + Values(Remove(conns[1..], u));
      }
    }
  }

  lemma {:induction false} ReceiversNone(conns: seq<(string, SocketId)>, u: string)
    requires u !in Keys(conns)
    ensures Receivers(conns, Some(u)) == Values(conns)
  {
    if conns != [] {
      ReceiversNone(conns[1..], u);
    }
  }

  /** `ConnectionManager` of main.py. */
  class ConnectionManager {
    /** `active_connections`: username to socket, in connection order. */
    var activeConnections: seq<(string, SocketId)>
    /** `user_buckets`: username to its rate limiter (never iterated, so a plain map). */
    var userBuckets: map<string, LeakyBucket>
    /** Everything delivered so far. */
    var outbox: seq<Outgoing<Payload>>

    /** A dict has distinct keys; the online users are exactly those with a bucket, each a 5 / 1.0 bucket. */
    ghost predicate Valid()
      reads this`activeConnections, this`userBuckets
    {
      && DistinctKeys(activeConnections)
      && (forall u :: u in userBuckets <==> u in Keys(activeConnections))
      && (forall u :: u in userBuckets ==>
            userBuckets[u].capacity == SessionCapacity && userBuckets[u].leakRate == SessionLeakRate)
      && (forall u, v :: u in userBuckets && v in userBuckets && u != v ==> userBuckets[u] != userBuckets[v])
    }

    /** The state of a user's bucket, if the user has one. */
    function BucketOf(username: string): Option<BucketState>
      reads this`userBuckets, userBuckets.Values
    {
      if username in userBuckets then Some(userBuckets[username].State()) else None
    }

    /** The states of every bucket but one user's. */
    function OtherBuckets(username: string): map<string, BucketState>
      reads this`userBuckets, userBuckets.Values
      ensures forall u :: u in OtherBuckets(username) <==> u in userBuckets && u != username
    {
      map u | u in userBuckets && u != username :: userBuckets[u].State()
    }

    constructor ()
      ensures Valid()
      ensures activeConnections == [] && userBuckets == map[] && outbox == []
    {
      activeConnections, userBuckets, outbox := [], map[], [];
    }

    /**
      `connect`: map the username to the socket (overwriting an earlier
      entry), give it a fresh empty bucket, and send the new user list.
    */
    method Connect(username: string, ws: SocketId, now: real, failing: set<SocketId>)
      requires Valid()
      modifies this
      ensures Valid()
      ensures activeConnections == Put(old(activeConnections), username, ws)
      ensures userBuckets.Keys == old(userBuckets).Keys + {username}
      ensures fresh(userBuckets[username]) && userBuckets[username].State() == BucketState(0.0, now)
      ensures forall u :: u in old(userBuckets) && u != username ==> userBuckets[u] == old(userBuckets)[u]
      ensures forall b :: b in userBuckets.Values ==> b in old(userBuckets).Values || fresh(b)
      ensures outbox == old(outbox) + Deliver(Values(activeConnections), UserList(Keys(activeConnections)), failing)
    {
      PutDistinct(activeConnections, username, ws);
      PutKeys(activeConnections, username, ws);
      activeConnections := Put(activeConnections, username, ws);
      var bucket := new LeakyBucket(SessionCapacity, SessionLeakRate, now);
      userBuckets := userBuckets[username := bucket];
      BroadcastUserList(failing);
    }

    /** `disconnect`: drop the username from both dicts; nothing happens when it is absent. */
    method Disconnect(username: string)
      requires Valid()
      modifies this
      ensures Valid()
      ensures activeConnections == Remove(old(activeConnections), username)
      ensures userBuckets == old(userBuckets) - {username}
      ensures Get(activeConnections, username) == None
      ensures forall u :: u != username ==> Get(activeConnections, u) == Get(old(activeConnections), u)
      ensures outbox == old(outbox)
    {
      forall u ensures Get(Remove(activeConnections, username), u) == if u == username then None else Get(activeConnections, u) {
        RemoveGet(activeConnections, username, u);
      }
      RemoveKeys(activeConnections, username);
      forall u | u in Keys(activeConnections) && u != username ensures u in Keys(Remove(activeConnections, username)) {
        GetFinds(activeConnections, u);
        GetFinds(Remove(activeConnections, username), u);
      }
      activeConnections := Remove(activeConnections, username);
      userBuckets := userBuckets - {username};
    }

    /** `send_personal_message`: one send to the user's socket, or none when the user is offline. */
    method SendPersonalMessage(message: Payload, username: string, failing: set<SocketId>) returns (ok: bool)
      modifies this`outbox
      ensures (outbox, ok) == (old(outbox) + PersonalRun(activeConnections, username, message, failing).0,
                               PersonalRun(activeConnections, username, message, failing).1)
    {
      match Get(activeConnections, username)
      case None =>
        assert outbox + [] == outbox;
        ok := true;
      case Some(ws) =>
        if ws in failing {
          assert outbox + [] == outbox;
          return false;
        }
        outbox := outbox + [Outgoing(ws, message)];
        ok := true;
    }

    /**
      `broadcast(message, exclude)`: send to every online user but `exclude`,
      in dict order, until a send fails.
    */
    method Broadcast(message: Payload, exclude: Option<string>, failing: set<SocketId>) returns (ok: bool)
      modifies this`outbox
      ensures (outbox, ok) == (old(outbox) + BroadcastRun(activeConnections, message, exclude, failing).0,
                               BroadcastRun(activeConnections, message, exclude, failing).1)
    {
      var conns := activeConnections;
      ghost var sent := [];
      assert conns[..0] == [];
      for i := 0 to |conns|
        invariant outbox == old(outbox) + sent
        invariant BroadcastRun(conns[..i], message, exclude, failing) == (sent, true)
      {
        BroadcastRunSnoc(conns[..i], conns[i], message, exclude, failing);
        assert conns[..i + 1] == conns[..i] + [conns[i]];
        var (username, connection) := conns[i];
        if Some(username) != exclude {
          if connection in failing {
            BroadcastRunAppend(conns[..i + 1], conns[i + 1..], message, exclude, failing);
            assert conns[..i + 1] + conns[i + 1..] == conns;
            return false;
          }
          outbox := outbox + [Outgoing(connection, message)];
          sent := sent + [Outgoing(connection, message)];
        }
      }
      assert conns[..|conns|] == conns;
      ok := true;
    }

    /**
      `broadcast_user_list`: a snapshot of the usernames goes to every
      snapshot socket; failed sends are swallowed.
    */
    method BroadcastUserList(failing: set<SocketId>)
      modifies this`outbox
      ensures outbox == old(outbox) + Deliver(Values(activeConnections), UserList(Keys(activeConnections)), failing)
    {
      var users := Keys(activeConnections);
      var connections := Values(activeConnections);
      for i := 0 to |connections|
        invariant outbox == old(outbox) + Deliver(connections[..i], UserList(users), failing)
      {
        DeliverSnoc(connections[..i], connections[i], UserList(users), failing);
        assert connections[..i + 1] == connections[..i] + [connections[i]];
        if connections[i] !in failing {
          outbox := outbox + [Outgoing(connections[i], UserList(users))];
        }
      }
      assert connections[..|connections|] == connections;
    }

    /**
      `check_rate_limit`: a user without a bucket is allowed; otherwise the
      bucket decides, and a rejection carries the wait it reports.
    */
    method CheckRateLimit(username: string, now: real) returns (verdict: RateVerdict)
      requires Valid()
      modifies if username in userBuckets then {userBuckets[username]} else {}
      ensures username !in userBuckets ==> verdict == Allowed
      ensures username in userBuckets ==>
        (userBuckets[username].State(), verdict.Allowed?)
        == Admit(old(userBuckets[username].State()), SessionCapacity, SessionLeakRate, 1, now)
      ensures forall u :: u in userBuckets && u != username ==> userBuckets[u].State() == old(userBuckets[u].State())
      ensures verdict.SlowDown? ==>
        verdict.waitSeconds == WaitSeconds(userBuckets[username].currentLevel, SessionCapacity, SessionLeakRate)
      ensures verdict.SlowDown? && old(userBuckets[username].currentLevel) <= SessionCapacity as real
              && now >= old(userBuckets[username].lastLeakTime)
              ==> verdict.waitSeconds == 1
    {
      if username !in userBuckets {
        return Allowed;
      }
      var bucket := userBuckets[username];
      ghost var before := bucket.State();
      var added := bucket.AddMessage(1, now);
      if added {
        verdict := Allowed;
      } else {
        if before.level <= SessionCapacity as real && now >= before.lastLeak {
          DrainNeverRaises(before, SessionLeakRate, now);
          RejectedWaitIsOneSecond(bucket.currentLevel, SessionCapacity);
        }
        verdict := SlowDown(WaitSeconds(bucket.currentLevel, bucket.capacity, bucket.leakRate));
      }
    }
  }

  /** `OtherBuckets` is any map that agrees with every bucket but one user's. */
  lemma OtherBucketsAre(mgr: ConnectionManager, username: string, others: map<string, BucketState>)
    requires forall u :: u in others <==> u in mgr.userBuckets && u != username
    requires forall u :: u in others ==> mgr.userBuckets[u].State() == others[u]
    ensures mgr.OtherBuckets(username) == others
  {
  }
}
