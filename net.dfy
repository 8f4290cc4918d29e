/**
  Connections and sends.  A WebSocket is an opaque identifier, and sending on
  it appends one `Outgoing` record to an outbox: the outbox of a manager is the
  sequence of everything that reached a client, in the order it was sent.
  Which sends fail is not known to the model; it is an input (`failing`): the
  set of sockets whose `send_json` raises at that moment.
*/
module Net {

  type SocketId = nat

  datatype Outgoing<P> = Outgoing(to: SocketId, payload: P)

  /** The sockets a sequence of sends went to, in order. */
  function Targets<P>(sends: seq<Outgoing<P>>): (ts: seq<SocketId>)
  {
    seq(|sends|, i requires 0 <= i < |sends| => sends[i].to)
  }

  /**
    What reaches the clients when `p` is sent to each of `targets` in turn and
    a failed send is swallowed (the `try: ... except: pass` loops).
  */
  function Deliver<P>(targets: seq<SocketId>, p: P, failing: set<SocketId>): (r: seq<Outgoing<P>>)
    ensures |r| <= |targets|
  {
    if targets == [] then []
    else (if targets[0] in failing then [] else [Outgoing(targets[0], p)]) + Deliver(targets[1..], p, failing)
  }

  /** Every send carries the payload and goes to one of the targets that does not fail. */
  lemma {:induction false} DeliverSends<P>(targets: seq<SocketId>, p: P, failing: set<SocketId>)
    ensures forall o :: o in Deliver(targets, p, failing) ==> o.payload == p && o.to in targets && o.to !in failing
  {
    if targets != [] {
      DeliverSends(targets[1..], p, failing);
    }
  }

  /** One more target at the end of the loop adds at most one send at the end. */
  lemma {:induction false} DeliverSnoc<P>(targets: seq<SocketId>, t: SocketId, p: P, failing: set<SocketId>)
    ensures Deliver(targets + [t], p, failing)
         == Deliver(targets, p, failing) + (if t in failing then [] else [Outgoing(t, p)])
  {
    if targets == [] {
      assert targets + [t] == [t];
    } else {
      assert (targets + [t])[1..] == targets[1..] + [t];
      DeliverSnoc(targets[1..], t, p, failing);
    }
  }

  /** Two loops in a row deliver what one loop over both target lists would. */
  lemma {:induction false} DeliverAppend<P>(a: seq<SocketId>, b: seq<SocketId>, p: P, failing: set<SocketId>)
    ensures Deliver(a + b, p, failing) == Deliver(a, p, failing) + Deliver(b, p, failing)
  {
    if a == [] {
      assert a + b == b;
    } else {
      assert (a + b)[0] == a[0];
      assert (a + b)[1..] == a[1..] + b;
      DeliverAppend(a[1..], b, p, failing);
      var h := if a[0] in failing then [] else [Outgoing(a[0], p)];
      assert Deliver(a + b, p, failing) == h + Deliver(a[1..] + b, p, failing);
      assert Deliver(a, p, failing) == h + Deliver(a[1..], p, failing);
      assert h + (Deliver(a[1..], p, failing) + Deliver(b, p, failing))
          == (h + Deliver(a[1..], p, failing)) + Deliver(b, p, failing);
    }
  }

  /**
    A failure never stops the loop: every target that does not fail receives
    the payload, whatever failed before it.
  */
  lemma {:induction false} DeliverReachesEveryLiveTarget<P>(targets: seq<SocketId>, p: P, failing: set<SocketId>)
    ensures forall t :: t in targets && t !in failing ==> Outgoing(t, p) in Deliver(targets, p, failing)
  {
    if targets != [] {
      DeliverReachesEveryLiveTarget(targets[1..], p, failing);
      forall t | t in targets && t !in failing
        ensures Outgoing(t, p) in Deliver(targets, p, failing)
      {
        if t != targets[0] {
          assert t in targets[1..];
        }
      }
    }
  }

  /** With no failures, every target gets exactly one send, in the loop's order. */
  lemma {:induction false} DeliverWithoutFailures<P>(targets: seq<SocketId>, p: P, failing: set<SocketId>)
    requires forall i :: 0 <= i < |targets| ==> targets[i] !in failing
    ensures Targets(Deliver(targets, p, failing)) == targets
  {
    if targets != [] {
      DeliverWithoutFailures(targets[1..], p, failing);
      var rest := Deliver(targets[1..], p, failing);
      assert Deliver(targets, p, failing) == [Outgoing(targets[0], p)] + rest;
      assert Targets([Outgoing(targets[0], p)] + rest) == [targets[0]] + Targets(rest);
      assert targets == [targets[0]] + targets[1..];
    }
  }
}
