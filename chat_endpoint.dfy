/**
  The websocket session of main.py (`websocket_endpoint`): a registered user
  connects, each client frame is dispatched on its `type`, and the session
  ends when the client leaves or a send fails.
*/
module ChatEndpoint {
  import opened Wrappers
  import opened Net
  import opened PyDict
  import opened PyStr
  import opened RateLimiter
  import opened Tables
  import opened Storage
  import opened ChatManager

  /** History requests use the database's default row limit. */
  const HistoryLimit := 100

  /** The status `status_change` assumes when the frame names none. */
  const OnlineStatus := "online"

  /** One client frame, decoded; an optional field is `None` when its key is absent. */
  datatype Event =
    | GetHistory(recipient: Option<string>)
    | Typing(recipient: Option<string>)
    | StopTyping(recipient: Option<string>)
    | React(messageId: Option<int>, emoji: Option<string>)
    | Edit(messageId: Option<int>, newText: Option<string>)
    | Delete(messageId: Option<int>)
    | Search(query: Option<string>)
    | StatusChange(status: Option<string>, statusMessage: Option<string>)
    | Message(text: Option<string>, recipient: Option<string>, replyTo: Option<int>,
              fileUrl: Option<string>, fileType: Option<string>)
    | Unrecognized

  /** A frame as it arrives: what it says, the clock at that moment, and the sockets whose sends fail then. */
  datatype Inbound = Inbound(event: Event, now: real, failing: set<SocketId>)

  /**
    How a session ends: refused (close code 1008); by the `WebSocketDisconnect`
    handler, which follows deregistration with a user-list broadcast; or by the
    generic `Exception` handler, which only deregisters.
  */
  datatype SessionEnd = Refused | Disconnected | Errored

  /** The history a user gets: the group's, or the conversation with one other user, oldest first. */
  function HistoryFor(messages: seq<MessageRow>, reactions: seq<ReactionRow>, username: string, recipient: string)
    : seq<MessageView>
  {
    if recipient == Group then Views(Recent(messages, IsGroupVisible, HistoryLimit), reactions)
    else Views(Recent(messages, BetweenFilter(username, recipient), HistoryLimit), reactions)
  }

  function TypingPayload(stop: bool, username: string, recipient: string): Payload
  {
    if stop then UserStopTyping(username, recipient) else UserTyping(username, recipient)
  }

  /**
    Typing notices: in the group they go to everyone but the typist; in a
    direct conversation only to the other user, naming the typist as
    `recipient`.
  */
  function TypingRun(conns: seq<(string, SocketId)>, username: string, recipient: string, stop: bool,
                     failing: set<SocketId>): (seq<Outgoing<Payload>>, bool)
  {
    if recipient == Group then BroadcastRun(conns, TypingPayload(stop, username, Group), Some(username), failing)
    else PersonalRun(conns, recipient, TypingPayload(stop, username, username), failing)
  }

  /** Where a stored chat message goes: the whole group, or the recipient and then the sender. */
  function Delivery(conns: seq<(string, SocketId)>, sender: string, recipient: string, p: Payload,
                    failing: set<SocketId>): (seq<Outgoing<Payload>>, bool)
  {
    if recipient == Group then BroadcastRun(conns, p, None, failing)
    else
      var first := PersonalRun(conns, recipient, p, failing);
      if !first.1 then first
      else
        var second := PersonalRun(conns, sender, p, failing);
        (first.0 + second.0, second.1)
  }

  /** A group message reaches every online user exactly once, unless a send fails. */
  lemma GroupDelivery(conns: seq<(string, SocketId)>, sender: string, p: Payload, failing: set<SocketId>)
    ensures var (sent, ok) := Delivery(conns, sender, Group, p, failing);
      && (ok <==> forall w :: w in Values(conns) ==> w !in failing)
      && (ok ==> Targets(sent) == Values(conns))
      && (forall o :: o in sent ==> o.payload == p)
  {
    BroadcastRunCompletes(conns, p, None, failing);
    BroadcastRunReceivers(conns, p, None, failing);
    ReceiversAll(conns);
  }

  /**
    A direct message reaches at most two sockets, each the recipient's or the
    sender's; with both online and no failure it reaches the recipient first,
    then the sender.
  */
  lemma DirectDelivery(conns: seq<(string, SocketId)>, sender: string, recipient: string, p: Payload,
                       failing: set<SocketId>)
    requires recipient != Group
    ensures var (sent, ok) := Delivery(conns, sender, recipient, p, failing);
      && |sent| <= 2
      && (forall o :: o in sent ==>
            o.payload == p && (Get(conns, recipient) == Some(o.to) || Get(conns, sender) == Some(o.to)))
      && (Get(conns, recipient).Some? && Get(conns, sender).Some?
          && Get(conns, recipient).value !in failing && Get(conns, sender).value !in failing
          ==> ok && Targets(sent) == [Get(conns, recipient).value, Get(conns, sender).value])
  {
  }

  /** Typing notices never reach the typist's own session by broadcast, and go to at most one socket otherwise. */
  lemma TypingReceivers(conns: seq<(string, SocketId)>, username: string, recipient: string, stop: bool,
                        failing: set<SocketId>)
    requires DistinctKeys(conns)
    ensures var (sent, ok) := TypingRun(conns, username, recipient, stop, failing);
      && (recipient == Group && ok ==> Targets(sent) == Values(Remove(conns, username)))
      && (recipient != Group ==> |sent| <= 1 && forall o :: o in sent ==> Get(conns, recipient) == Some(o.to))
  {
    if recipient == Group {
      BroadcastRunReceivers(conns, TypingPayload(stop, username, Group), Some(username), failing);
      ReceiversExcluding(conns, username);
    }
  }

  // ------------------------------------------------- what one frame does

  /**
    The effect of handling frames: the tables afterwards, what was sent, whether
    every send went out, and the state of the user's bucket (`None` without one).
  */
  datatype Effect = Effect(db: DbState, sent: seq<Outgoing<Payload>>, ok: bool, bucket: Option<BucketState>)

  function Answer(db: DbState, run: (seq<Outgoing<Payload>>, bool), bucket: Option<BucketState>): Effect
  {
    Effect(db, run.0, run.1, bucket)
  }

  /**
    One branch of the `if message_type == ...` chain, on the tables `s`, the
    roster `conns` and the bucket `bucket` of `username`.
  */
  function EventEffect(s: DbState, conns: seq<(string, SocketId)>, bucket: Option<BucketState>, username: string,
                       frame: Inbound): Effect
  {
    var now, failing := frame.now, frame.failing;
    match frame.event
    case GetHistory(recipient) =>
      var p := History(HistoryFor(s.messages, s.reactions, username, OrDefault(recipient, Group)));
      Answer(s, PersonalRun(conns, username, p, failing), bucket)
    case Typing(recipient) =>
      Answer(s, TypingRun(conns, username, OrDefault(recipient, Group), false, failing), bucket)
    case StopTyping(recipient) =>
      Answer(s, TypingRun(conns, username, OrDefault(recipient, Group), true, failing), bucket)
    case React(messageId, emoji) =>
      if TruthyInt(messageId) && TruthyText(emoji) then
        Answer(s.(reactions := ToggleReaction(s.reactions, messageId.value, username, emoji.value, now).0),
               BroadcastRun(conns, ReactionUpdate(messageId.value, emoji.value, username), None, failing), bucket)
      else Answer(s, ([], true), bucket)
    case Edit(messageId, newText) =>
      var text := Strip(OrDefault(newText, ""));
      if TruthyInt(messageId) && text != "" then
        Answer(s.(messages := EditById(s.messages, messageId.value, text)),
               BroadcastRun(conns, MessageEdited(messageId.value, text, username), None, failing), bucket)
      else Answer(s, ([], true), bucket)
    case Delete(messageId) =>
      if TruthyInt(messageId) then
        Answer(s.(messages := DeleteById(s.messages, messageId.value)),
               BroadcastRun(conns, MessageDeleted(messageId.value), None, failing), bucket)
      else Answer(s, ([], true), bucket)
    case Search(query) =>
      var q := Strip(OrDefault(query, ""));
      if q == "" then Answer(s, ([], true), bucket)
      else
        var p := SearchResults(Hits(Newest(s.messages, SearchFilter(q, Some(username)), SearchCap)));
        Answer(s, PersonalRun(conns, username, p, failing), bucket)
    case StatusChange(status, statusMessage) =>
      var st, sm := OrDefault(status, OnlineStatus), OrDefault(statusMessage, "");
      Answer(s.(users := StatusUpdated(s.users, username, st, sm)),
             BroadcastRun(conns, UserStatusChanged(username, st, sm), None, failing), bucket)
    case Message(text, recipient, replyTo, fileUrl, fileType) =>
      MessageEffect(s, conns, bucket, username, text, recipient, replyTo, fileUrl, fileType, now, failing)
    case Unrecognized =>
      Answer(s, ([], true), bucket)
  }

  /**
    A `message` frame: the bucket takes one unit if it can; a refusal sends
    the warning with the wait; an empty text without a file is dropped; any
    other message is stored under the next id and delivered.
  */
  function MessageEffect(s: DbState, conns: seq<(string, SocketId)>, bucket: Option<BucketState>, username: string,
                         text: Option<string>, recipient: Option<string>, replyTo: Option<int>,
                         fileUrl: Option<string>, fileType: Option<string>, now: real, failing: set<SocketId>): Effect
  {
    var after := if bucket.Some? then Some(Admit(bucket.value, SessionCapacity, SessionLeakRate, 1, now).0) else None;
    if bucket.Some? && !Admit(bucket.value, SessionCapacity, SessionLeakRate, 1, now).1 then
      var p := Warning(WaitSeconds(after.value.level, SessionCapacity, SessionLeakRate));
      Answer(s, PersonalRun(conns, username, p, failing), after)
    else
      var body := Strip(OrDefault(text, ""));
      var to := OrDefault(recipient, Group);
      if body == "" && !TruthyText(fileUrl) then Answer(s, ([], true), after)
      else
        var id := s.nextMessageId;
        var row := MessageRow(id, username, to, body, now, false, false, replyTo, fileUrl, fileType);
        var p := ChatMessage(id, username, body, now, to, replyTo, fileUrl, fileType);
        Answer(s.(messages := s.messages + [row], nextMessageId := id + 1), Delivery(conns, username, to, p, failing), after)
  }

  /**
    A loop over frames that stops at the first turn whose sends did not all
    go out: each frame is handled on what the frames before it left, and no
    frame after a failed one is handled.
  */
  function Loop(turn: (Effect, Inbound) -> Effect, start: Effect, frames: seq<Inbound>): Effect
    decreases |frames|
  {
    if frames == [] then start
    else
      var prior := Loop(turn, start, frames[..|frames| - 1]);
      if !prior.ok then prior else turn(prior, frames[|frames| - 1])
  }

  /** One turn of the receive loop: the frame's effect on the state so far, its sends after the earlier ones. */
  function Turn(conns: seq<(string, SocketId)>, username: string): (Effect, Inbound) -> Effect
  {
    (prior: Effect, frame: Inbound) =>
      var e := EventEffect(prior.db, conns, prior.bucket, username, frame);
      Effect(e.db, prior.sent + e.sent, e.ok, e.bucket)
  }

  /** The receive loop of a user whose tables are `s` and whose bucket is `bucket`. */
  function RunFrames(s: DbState, conns: seq<(string, SocketId)>, bucket: Option<BucketState>, username: string,
                     frames: seq<Inbound>): Effect
  {
    Loop(Turn(conns, username), Effect(s, [], true, bucket), frames)
  }

  /** A loop that starts failed stays where it started. */
  lemma {:induction false} LoopFailed(turn: (Effect, Inbound) -> Effect, start: Effect, frames: seq<Inbound>)
    requires !start.ok
    ensures Loop(turn, start, frames) == start
    decreases |frames|
  {
    if frames != [] {
      LoopFailed(turn, start, frames[..|frames| - 1]);
    }
  }

  /** The loop over `p + q` is the loop over `q` from where the loop over `p` ended. */
  lemma {:induction false} LoopAppend(turn: (Effect, Inbound) -> Effect, start: Effect, p: seq<Inbound>, q: seq<Inbound>)
    ensures Loop(turn, start, p + q) == Loop(turn, Loop(turn, start, p), q)
    decreases |q|
  {
    if q == [] {
      assert p + q == p;
    } else {
      var q' := q[..|q| - 1];
      assert (p + q)[..|p + q| - 1] == p + q';
      assert (p + q)[|p + q| - 1] == q[|q| - 1];
      LoopAppend(turn, start, p, q');
    }
  }

  /** Once a frame's send has raised, later frames change nothing. */
  lemma RunFramesStops(s: DbState, conns: seq<(string, SocketId)>, bucket: Option<BucketState>,
                       username: string, p: seq<Inbound>, q: seq<Inbound>)
    requires !RunFrames(s, conns, bucket, username, p).ok
    ensures RunFrames(s, conns, bucket, username, p + q) == RunFrames(s, conns, bucket, username, p)
  {
    var turn, start := Turn(conns, username), Effect(s, [], true, bucket);
    LoopAppend(turn, start, p, q);
    LoopFailed(turn, Loop(turn, start, p), q);
  }

  /** The loop over one frame more takes one more turn, unless it had already stopped. */
  lemma LoopNext(turn: (Effect, Inbound) -> Effect, start: Effect, frames: seq<Inbound>, i: nat)
    requires i < |frames|
    ensures var prior := Loop(turn, start, frames[..i]);
      Loop(turn, start, frames[..i + 1]) == if prior.ok then turn(prior, frames[i]) else prior
  {
    assert frames[..i + 1][..i] == frames[..i];
  }

  /** A loop whose turn on frame i failed ends with that turn. */
  lemma LoopStopsAt(turn: (Effect, Inbound) -> Effect, start: Effect, frames: seq<Inbound>, i: nat)
    requires i < |frames| && !Loop(turn, start, frames[..i + 1]).ok
    ensures Loop(turn, start, frames) == Loop(turn, start, frames[..i + 1])
  {
    assert frames == frames[..i + 1] + frames[i + 1..];
    LoopAppend(turn, start, frames[..i + 1], frames[i + 1..]);
    LoopFailed(turn, Loop(turn, start, frames[..i + 1]), frames[i + 1..]);
  }

  /**
    A loop completes exactly when every turn's sends went out; otherwise
    some frame k failed after all frames before it succeeded, and the loop
    ended there.
  */
  lemma {:induction false} LoopFirstFailure(turn: (Effect, Inbound) -> Effect, start: Effect, frames: seq<Inbound>)
    ensures Loop(turn, start, frames).ok ==> forall k :: 0 <= k <= |frames| ==> Loop(turn, start, frames[..k]).ok
    ensures !Loop(turn, start, frames).ok && start.ok ==>
      exists k :: 0 <= k < |frames|
        && Loop(turn, start, frames[..k]).ok
        && !Loop(turn, start, frames[..k + 1]).ok
        && Loop(turn, start, frames) == Loop(turn, start, frames[..k + 1])
    decreases |frames|
  {
    if frames != [] {
      var n := |frames| - 1;
      var init := frames[..n];
      LoopFirstFailure(turn, start, init);
      assert forall k :: 0 <= k <= n ==> init[..k] == frames[..k];
      assert frames[..n + 1] == frames;
      if Loop(turn, start, frames).ok {
        assert Loop(turn, start, init).ok;
      } else if start.ok {
        if !Loop(turn, start, init).ok {
          var k :| 0 <= k < n && Loop(turn, start, init[..k]).ok && !Loop(turn, start, init[..k + 1]).ok
            && Loop(turn, start, init) == Loop(turn, start, init[..k + 1]);
          assert init[..k] == frames[..k] && init[..k + 1] == frames[..k + 1];
        }
      }
    }
  }

  /** Only a `message` frame touches the bucket or the id counter, and no frame adds or removes an account. */
  lemma EventEffectFrame(s: DbState, conns: seq<(string, SocketId)>, bucket: Option<BucketState>, username: string,
                         frame: Inbound)
    ensures var e := EventEffect(s, conns, bucket, username, frame);
      && (!frame.event.Message? ==> e.bucket == bucket && e.db.nextMessageId == s.nextMessageId)
      && (forall u :: HasUser(e.db.users, u) <==> HasUser(s.users, u))
      && ((frame.event.GetHistory? || frame.event.Typing? || frame.event.StopTyping? || frame.event.Search?
           || frame.event.Unrecognized?) ==> e.db == s)
  {
    if frame.event.StatusChange? {
      var st, sm := OrDefault(frame.event.status, OnlineStatus), OrDefault(frame.event.statusMessage, "");
      StatusKeepsUser(s.users, StatusUpdated(s.users, username, st, sm), username, st, sm);
    }
  }

  /** `get_history`: the requested history goes to the requester. */
  method HandleGetHistory(mgr: ConnectionManager, db: Database, username: string, recipient: Option<string>,
                          failing: set<SocketId>) returns (ok: bool)
    modifies mgr`outbox
    ensures var p := History(HistoryFor(db.messages, db.reactions, username, OrDefault(recipient, Group)));
      (mgr.outbox, ok) == (old(mgr.outbox) + PersonalRun(mgr.activeConnections, username, p, failing).0,
                           PersonalRun(mgr.activeConnections, username, p, failing).1)
  {
    var to := OrDefault(recipient, Group);
    var views;
    if to == Group {
      views := db.GetGroupMessagesEnhanced(HistoryLimit);
    } else {
      views := db.GetPrivateMessagesEnhanced(username, to, HistoryLimit);
    }
    ok := mgr.SendPersonalMessage(History(views), username, failing);
  }

  /** `typing` and `stop_typing`. */
  method HandleTyping(mgr: ConnectionManager, username: string, recipient: Option<string>, stop: bool,
                      failing: set<SocketId>) returns (ok: bool)
    modifies mgr`outbox
    ensures var run := TypingRun(mgr.activeConnections, username, OrDefault(recipient, Group), stop, failing);
      mgr.outbox == old(mgr.outbox) + run.0 && ok == run.1
  {
    var to := OrDefault(recipient, Group);
    if to == Group {
      ok := mgr.Broadcast(TypingPayload(stop, username, Group), Some(username), failing);
    } else {
      ok := mgr.SendPersonalMessage(TypingPayload(stop, username, username), to, failing);
    }
  }

  /** `react`: with a truthy id and emoji, toggle the reaction and tell everyone. */
  method HandleReact(mgr: ConnectionManager, db: Database, username: string, messageId: Option<int>,
                     emoji: Option<string>, now: real, failing: set<SocketId>) returns (ok: bool)
    requires db.Valid()
    modifies mgr`outbox, db
    ensures db.Valid()
    ensures !(TruthyInt(messageId) && TruthyText(emoji)) ==> ok && mgr.outbox == old(mgr.outbox) && unchanged(db)
    ensures TruthyInt(messageId) && TruthyText(emoji) ==>
      var run := BroadcastRun(mgr.activeConnections, ReactionUpdate(messageId.value, emoji.value, username), None, failing);
      && db.reactions == ToggleReaction(old(db.reactions), messageId.value, username, emoji.value, now).0
      && db.users == old(db.users) && db.messages == old(db.messages)
      && db.receipts == old(db.receipts) && db.nextMessageId == old(db.nextMessageId)
      && mgr.outbox == old(mgr.outbox) + run.0 && ok == run.1
  {
    if TruthyInt(messageId) && TruthyText(emoji) {
      var _ := db.AddReaction(messageId.value, username, emoji.value, now);
      ok := mgr.Broadcast(ReactionUpdate(messageId.value, emoji.value, username), None, failing);
    } else {
      ok := true;
    }
  }

  /** `edit`: with a truthy id and a non-blank text, rewrite the message and tell everyone; no ownership check. */
  method HandleEdit(mgr: ConnectionManager, db: Database, username: string, messageId: Option<int>,
                    newText: Option<string>, failing: set<SocketId>) returns (ok: bool)
    requires db.Valid()
    modifies mgr`outbox, db
    ensures db.Valid()
    ensures var text := Strip(OrDefault(newText, ""));
      !(TruthyInt(messageId) && text != "") ==> ok && mgr.outbox == old(mgr.outbox) && unchanged(db)
    ensures var text := Strip(OrDefault(newText, ""));
      TruthyInt(messageId) && text != "" ==>
      var run := BroadcastRun(mgr.activeConnections, MessageEdited(messageId.value, text, username), None, failing);
      && db.messages == EditById(old(db.messages), messageId.value, text)
      && db.users == old(db.users) && db.reactions == old(db.reactions)
      && db.receipts == old(db.receipts) && db.nextMessageId == old(db.nextMessageId)
      && mgr.outbox == old(mgr.outbox) + run.0 && ok == run.1
  {
    var text := Strip(OrDefault(newText, ""));
    if TruthyInt(messageId) && text != "" {
      db.UpdateMessage(messageId.value, text);
      ok := mgr.Broadcast(MessageEdited(messageId.value, text, username), None, failing);
    } else {
      ok := true;
    }
  }

  /** `delete`: with a truthy id, soft-delete the message and tell everyone; no ownership check. */
  method HandleDelete(mgr: ConnectionManager, db: Database, messageId: Option<int>, failing: set<SocketId>)
    returns (ok: bool)
    requires db.Valid()
    modifies mgr`outbox, db
    ensures db.Valid()
    ensures !TruthyInt(messageId) ==> ok && mgr.outbox == old(mgr.outbox) && unchanged(db)
    ensures TruthyInt(messageId) ==>
      var run := BroadcastRun(mgr.activeConnections, MessageDeleted(messageId.value), None, failing);
      && db.messages == DeleteById(old(db.messages), messageId.value)
      && db.users == old(db.users) && db.reactions == old(db.reactions)
      && db.receipts == old(db.receipts) && db.nextMessageId == old(db.nextMessageId)
      && mgr.outbox == old(mgr.outbox) + run.0 && ok == run.1
  {
    if TruthyInt(messageId) {
      db.DeleteMessage(messageId.value);
      ok := mgr.Broadcast(MessageDeleted(messageId.value), None, failing);
    } else {
      ok := true;
    }
  }

  /**
    `search`: with a non-blank query, the searcher gets the hits among the
    messages they sent or received by name; a group message from someone
    else has recipient `GROUP` and so is never among them.
  */
  method HandleSearch(mgr: ConnectionManager, db: Database, username: string, query: Option<string>,
                      failing: set<SocketId>) returns (ok: bool)
    modifies mgr`outbox
    ensures var q := Strip(OrDefault(query, ""));
      q == "" ==> ok && mgr.outbox == old(mgr.outbox)
    ensures var q := Strip(OrDefault(query, ""));
      q != "" ==>
      var p := SearchResults(Hits(Newest(db.messages, SearchFilter(q, Some(username)), SearchCap)));
      (mgr.outbox, ok) == (old(mgr.outbox) + PersonalRun(mgr.activeConnections, username, p, failing).0,
                           PersonalRun(mgr.activeConnections, username, p, failing).1)
  {
    var q := Strip(OrDefault(query, ""));
    if q != "" {
      var hits := db.SearchMessages(q, Some(username));
      ok := mgr.SendPersonalMessage(SearchResults(hits), username, failing);
    } else {
      ok := true;
    }
  }

  /** `status_change`: store the status (default "online", message default empty) and tell everyone. */
  method HandleStatusChange(mgr: ConnectionManager, db: Database, username: string, status: Option<string>,
                            statusMessage: Option<string>, failing: set<SocketId>) returns (ok: bool)
    requires db.Valid()
    modifies mgr`outbox, db
    ensures db.Valid()
    ensures var s, sm := OrDefault(status, OnlineStatus), OrDefault(statusMessage, "");
      var run := BroadcastRun(mgr.activeConnections, UserStatusChanged(username, s, sm), None, failing);
      && |db.users| == |old(db.users)|
      && (forall i :: 0 <= i < |db.users| ==> db.users[i] == WithStatus(old(db.users)[i], username, s, sm))
      && db.messages == old(db.messages) && db.reactions == old(db.reactions)
      && db.receipts == old(db.receipts) && db.nextMessageId == old(db.nextMessageId)
      && mgr.outbox == old(mgr.outbox) + run.0 && ok == run.1
  {
    var s, sm := OrDefault(status, OnlineStatus), OrDefault(statusMessage, "");
    db.UpdateUserStatus(username, s, sm);
    ok := mgr.Broadcast(UserStatusChanged(username, s, sm), None, failing);
  }

  /**
    `message`: the rate limit is checked first (an empty message still costs
    capacity); a rejected sender gets a warning; an empty message without a
    file is dropped; otherwise the message is stored and delivered.
  */
  method HandleMessage(mgr: ConnectionManager, db: Database, username: string, text: Option<string>,
                       recipient: Option<string>, replyTo: Option<int>, fileUrl: Option<string>,
                       fileType: Option<string>, now: real, failing: set<SocketId>) returns (ok: bool)
    requires mgr.Valid() && db.Valid()
    modifies mgr`outbox, db, if username in mgr.userBuckets then {mgr.userBuckets[username]} else {}
    ensures db.Valid()
    ensures username in mgr.userBuckets ==>
      mgr.userBuckets[username].State()
      == Admit(old(mgr.userBuckets[username].State()), SessionCapacity, SessionLeakRate, 1, now).0
    ensures var allowed := username !in mgr.userBuckets
          || Admit(old(mgr.userBuckets[username].State()), SessionCapacity, SessionLeakRate, 1, now).1;
      !allowed ==>
      var p := Warning(WaitSeconds(mgr.userBuckets[username].currentLevel, SessionCapacity, SessionLeakRate));
      && unchanged(db)
      && mgr.outbox == old(mgr.outbox) + PersonalRun(mgr.activeConnections, username, p, failing).0
      && ok == PersonalRun(mgr.activeConnections, username, p, failing).1
    ensures var allowed := username !in mgr.userBuckets
          || Admit(old(mgr.userBuckets[username].State()), SessionCapacity, SessionLeakRate, 1, now).1;
      var body := Strip(OrDefault(text, ""));
      allowed && body == "" && !TruthyText(fileUrl) ==> ok && mgr.outbox == old(mgr.outbox) && unchanged(db)
    ensures var allowed := username !in mgr.userBuckets
          || Admit(old(mgr.userBuckets[username].State()), SessionCapacity, SessionLeakRate, 1, now).1;
      var body := Strip(OrDefault(text, ""));
      var to := OrDefault(recipient, Group);
      var id := old(db.nextMessageId);
      allowed && (body != "" || TruthyText(fileUrl)) ==>
      var run := Delivery(mgr.activeConnections, username, to,
                          ChatMessage(id, username, body, now, to, replyTo, fileUrl, fileType), failing);
      && db.messages == old(db.messages) + [MessageRow(id, username, to, body, now, false, false, replyTo, fileUrl, fileType)]
      && db.nextMessageId == id + 1
      && db.users == old(db.users) && db.reactions == old(db.reactions) && db.receipts == old(db.receipts)
      && mgr.outbox == old(mgr.outbox) + run.0 && ok == run.1
    ensures forall u :: u in mgr.userBuckets && u != username ==> mgr.userBuckets[u].State() == old(mgr.userBuckets[u].State())
  {
    var verdict := mgr.CheckRateLimit(username, now);
    if verdict.SlowDown? {
      ok := mgr.SendPersonalMessage(Warning(verdict.waitSeconds), username, failing);
      return;
    }
    var body := Strip(OrDefault(text, ""));
    var to := OrDefault(recipient, Group);
    if body == "" && !TruthyText(fileUrl) {
      return true;
    }
    var id := db.SaveMessageWithId(username, to, body, now, replyTo, fileUrl, fileType);
    var payload := ChatMessage(id, username, body, now, to, replyTo, fileUrl, fileType);
    if to == Group {
      ok := mgr.Broadcast(payload, None, failing);
    } else {
      ok := mgr.SendPersonalMessage(payload, to, failing);
      if ok {
        ok := mgr.SendPersonalMessage(payload, username, failing);
      }
    }
  }

  /**
    One turn of the receive loop: dispatch on the frame's `type`.  The
    tables, the sends and the user's bucket change as `EventEffect` says;
    no other user's bucket changes and the roster stays as it is.
  */
  method HandleEvent(mgr: ConnectionManager, db: Database, username: string, frame: Inbound) returns (ok: bool)
    requires mgr.Valid() && db.Valid()
    modifies mgr`outbox, mgr.userBuckets.Values, db
    ensures mgr.Valid() && db.Valid()
    ensures var e := EventEffect(old(db.Snapshot()), mgr.activeConnections, old(mgr.BucketOf(username)), username, frame);
      db.Snapshot() == e.db && mgr.outbox == old(mgr.outbox) + e.sent && ok == e.ok && mgr.BucketOf(username) == e.bucket
    ensures forall u :: u in mgr.userBuckets && u != username ==> mgr.userBuckets[u].State() == old(mgr.userBuckets[u].State())
    ensures HasUser(db.users, username) <==> HasUser(old(db.users), username)
  {
    match frame.event
    case Message(_, _, _, _, _) =>
      ok := HandleChat(mgr, db, username, frame);
    case Unrecognized =>
      ok := true;
    case GetHistory(_) =>
      ok := HandleQuery(mgr, db, username, frame);
    case Typing(_) =>
      ok := HandleQuery(mgr, db, username, frame);
    case StopTyping(_) =>
      ok := HandleQuery(mgr, db, username, frame);
    case Search(_) =>
      ok := HandleQuery(mgr, db, username, frame);
    case React(_, _) =>
      ok := HandleUpdate(mgr, db, username, frame);
    case Edit(_, _) =>
      ok := HandleUpdate(mgr, db, username, frame);
    case Delete(_) =>
      ok := HandleUpdate(mgr, db, username, frame);
    case StatusChange(_, _) =>
      ok := HandleStatusFrame(mgr, db, username, frame);
  }

  /** A `message` frame, as `EventEffect` describes it. */
  method HandleChat(mgr: ConnectionManager, db: Database, username: string, frame: Inbound) returns (ok: bool)
    requires frame.event.Message?
    requires mgr.Valid() && db.Valid()
    modifies mgr`outbox, db, if username in mgr.userBuckets then {mgr.userBuckets[username]} else {}
    ensures mgr.Valid() && db.Valid()
    ensures var e := EventEffect(old(db.Snapshot()), mgr.activeConnections, old(mgr.BucketOf(username)), username, frame);
      db.Snapshot() == e.db && mgr.outbox == old(mgr.outbox) + e.sent && ok == e.ok && mgr.BucketOf(username) == e.bucket
    ensures forall u :: u in mgr.userBuckets && u != username ==> mgr.userBuckets[u].State() == old(mgr.userBuckets[u].State())
    ensures HasUser(db.users, username) <==> HasUser(old(db.users), username)
  {
    var ev := frame.event;
    ok := HandleMessage(mgr, db, username, ev.text, ev.recipient, ev.replyTo, ev.fileUrl, ev.fileType, frame.now, frame.failing);
  }

  /** The frames that only read: history, typing notices and search. */
  method HandleQuery(mgr: ConnectionManager, db: Database, username: string, frame: Inbound) returns (ok: bool)
    requires frame.event.GetHistory? || frame.event.Typing? || frame.event.StopTyping? || frame.event.Search?
    requires mgr.Valid() && db.Valid()
    modifies mgr`outbox
    ensures mgr.Valid() && db.Valid()
    ensures var e := EventEffect(old(db.Snapshot()), mgr.activeConnections, old(mgr.BucketOf(username)), username, frame);
      db.Snapshot() == e.db && mgr.outbox == old(mgr.outbox) + e.sent && ok == e.ok && mgr.BucketOf(username) == e.bucket
    ensures forall u :: u in mgr.userBuckets && u != username ==> mgr.userBuckets[u].State() == old(mgr.userBuckets[u].State())
    ensures HasUser(db.users, username) <==> HasUser(old(db.users), username)
  {
    EventEffectFrame(db.Snapshot(), mgr.activeConnections, mgr.BucketOf(username), username, frame);
    match frame.event
    case GetHistory(recipient) =>
      ok := HandleGetHistory(mgr, db, username, recipient, frame.failing);
    case Typing(recipient) =>
      ok := HandleTyping(mgr, username, recipient, false, frame.failing);
    case StopTyping(recipient) =>
      ok := HandleTyping(mgr, username, recipient, true, frame.failing);
    case Search(query) =>
      ok := HandleSearch(mgr, db, username, query, frame.failing);
  }

  /** The frames that change a message: reactions, edits and deletions. */
  method HandleUpdate(mgr: ConnectionManager, db: Database, username: string, frame: Inbound) returns (ok: bool)
    requires frame.event.React? || frame.event.Edit? || frame.event.Delete?
    requires mgr.Valid() && db.Valid()
    modifies mgr`outbox, db
    ensures mgr.Valid() && db.Valid()
    ensures var e := EventEffect(old(db.Snapshot()), mgr.activeConnections, old(mgr.BucketOf(username)), username, frame);
      db.Snapshot() == e.db && mgr.outbox == old(mgr.outbox) + e.sent && ok == e.ok && mgr.BucketOf(username) == e.bucket
    ensures forall u :: u in mgr.userBuckets && u != username ==> mgr.userBuckets[u].State() == old(mgr.userBuckets[u].State())
    ensures HasUser(db.users, username) <==> HasUser(old(db.users), username)
  {
    EventEffectFrame(db.Snapshot(), mgr.activeConnections, mgr.BucketOf(username), username, frame);
    match frame.event
    case React(messageId, emoji) =>
      ok := HandleReact(mgr, db, username, messageId, emoji, frame.now, frame.failing);
    case Edit(messageId, newText) =>
      ok := HandleEdit(mgr, db, username, messageId, newText, frame.failing);
    case Delete(messageId) =>
      ok := HandleDelete(mgr, db, messageId, frame.failing);
  }

  /** A `status_change` frame. */
  method HandleStatusFrame(mgr: ConnectionManager, db: Database, username: string, frame: Inbound) returns (ok: bool)
    requires frame.event.StatusChange?
    requires mgr.Valid() && db.Valid()
    modifies mgr`outbox, db
    ensures mgr.Valid() && db.Valid()
    ensures var e := EventEffect(old(db.Snapshot()), mgr.activeConnections, old(mgr.BucketOf(username)), username, frame);
      db.Snapshot() == e.db && mgr.outbox == old(mgr.outbox) + e.sent && ok == e.ok && mgr.BucketOf(username) == e.bucket
    ensures forall u :: u in mgr.userBuckets && u != username ==> mgr.userBuckets[u].State() == old(mgr.userBuckets[u].State())
    ensures HasUser(db.users, username) <==> HasUser(old(db.users), username)
  {
    EventEffectFrame(db.Snapshot(), mgr.activeConnections, mgr.BucketOf(username), username, frame);
    var status, statusMessage := frame.event.status, frame.event.statusMessage;
    ok := HandleStatusChange(mgr, db, username, status, statusMessage, frame.failing);
    StatusKeepsUser(old(db.users), db.users, username, OrDefault(status, OnlineStatus), OrDefault(statusMessage, ""));
  }

  /** Updating statuses neither adds nor removes an account. */
  lemma StatusKeepsUser(before: seq<UserRow>, after: seq<UserRow>, username: string, status: string,
                        statusMessage: string)
    requires |after| == |before|
    requires forall i :: 0 <= i < |after| ==> after[i] == WithStatus(before[i], username, status, statusMessage)
    ensures forall u :: HasUser(after, u) <==> HasUser(before, u)
  {
    forall u ensures HasUser(after, u) <==> HasUser(before, u) {
      if HasUser(after, u) {
        var i :| 0 <= i < |after| && after[i].username == u;
        assert before[i].username == u;
      }
      if HasUser(before, u) {
        var i :| 0 <= i < |before| && before[i].username == u;
        assert after[i].username == u;
      }
    }
  }

  /**
    `websocket_endpoint`: an unknown user is refused and nothing changes;
    otherwise the user is connected, the frames are handled in order until
    one of them makes a send raise, and the user is deregistered.  The client
    leaving takes the `WebSocketDisconnect` exit; a send that raised takes it
    too when `sendRaisesDisconnect` says the server reports a dead peer that
    way, and the generic exit otherwise.  Only the first exit broadcasts the
    user list.  The session touches no other user's roster entry or bucket.
  */
  method WebsocketEndpoint(mgr: ConnectionManager, db: Database, username: string, ws: SocketId,
                           connectedAt: real, connectFailing: set<SocketId>, frames: seq<Inbound>,
                           sendRaisesDisconnect: bool, closeFailing: set<SocketId>) returns (end: SessionEnd)
    requires mgr.Valid() && db.Valid()
    modifies mgr, mgr.userBuckets.Values, db
    ensures mgr.Valid() && db.Valid()
    ensures end == Refused <==> !HasUser(old(db.users), username)
    ensures end == Refused ==> unchanged(mgr) && unchanged(db)
    ensures old(mgr.outbox) <= mgr.outbox
    ensures end != Refused ==> Get(mgr.activeConnections, username) == None && username !in mgr.userBuckets
    ensures end != Refused ==>
      forall u :: u != username ==> Get(mgr.activeConnections, u) == Get(old(mgr.activeConnections), u)
    ensures end != Refused ==> mgr.userBuckets == old(mgr.userBuckets) - {username}
    ensures end != Refused ==>
      var joined := Put(old(mgr.activeConnections), username, ws);
      var r := RunFrames(old(db.Snapshot()), joined, Some(BucketState(0.0, connectedAt)), username, frames);
      && db.Snapshot() == r.db
      && (end == Disconnected <==> r.ok || sendRaisesDisconnect)
      && mgr.outbox == old(mgr.outbox) + Deliver(Values(joined), UserList(Keys(joined)), connectFailing) + r.sent
                       + (if end == Disconnected
                          then Deliver(Values(mgr.activeConnections), UserList(Keys(mgr.activeConnections)), closeFailing)
                          else [])
  {
    var known := db.UserExists(username);
    if !known {
      return Refused;
    }
    end := AcceptedSession(mgr, db, username, ws, connectedAt, connectFailing, frames, sendRaisesDisconnect, closeFailing);
  }

  /** A registered user's session: connect, the receive loop, and the exit. */
  method AcceptedSession(mgr: ConnectionManager, db: Database, username: string, ws: SocketId,
                         connectedAt: real, connectFailing: set<SocketId>, frames: seq<Inbound>,
                         sendRaisesDisconnect: bool, closeFailing: set<SocketId>) returns (end: SessionEnd)
    requires mgr.Valid() && db.Valid()
    modifies mgr, mgr.userBuckets.Values, db
    ensures mgr.Valid() && db.Valid()
    ensures end != Refused
    ensures old(mgr.outbox) <= mgr.outbox
    ensures Get(mgr.activeConnections, username) == None && username !in mgr.userBuckets
    ensures forall u :: u != username ==> Get(mgr.activeConnections, u) == Get(old(mgr.activeConnections), u)
    ensures mgr.userBuckets == old(mgr.userBuckets) - {username}
    ensures var joined := Put(old(mgr.activeConnections), username, ws);
      var r := RunFrames(old(db.Snapshot()), joined, Some(BucketState(0.0, connectedAt)), username, frames);
      && db.Snapshot() == r.db
      && (end == Disconnected <==> r.ok || sendRaisesDisconnect)
      && mgr.outbox == old(mgr.outbox) + Deliver(Values(joined), UserList(Keys(joined)), connectFailing) + r.sent
                       + (if end == Disconnected
                          then Deliver(Values(mgr.activeConnections), UserList(Keys(mgr.activeConnections)), closeFailing)
                          else [])
  {
    var completed := JoinAndReceive(mgr, db, username, ws, connectedAt, connectFailing, frames);
    end := if completed || sendRaisesDisconnect then Disconnected else Errored;
    ghost var sent := mgr.outbox;
    CloseSession(mgr, username, end == Disconnected, closeFailing);
    assert old(mgr.outbox) <= sent <= mgr.outbox;
  }

  /** `manager.connect` followed by the receive loop, with the user still registered. */
  method JoinAndReceive(mgr: ConnectionManager, db: Database, username: string, ws: SocketId,
                        connectedAt: real, connectFailing: set<SocketId>, frames: seq<Inbound>)
    returns (completed: bool)
    requires mgr.Valid() && db.Valid()
    modifies mgr, mgr.userBuckets.Values, db
    ensures mgr.Valid() && db.Valid()
    ensures mgr.activeConnections == Put(old(mgr.activeConnections), username, ws)
    ensures forall u :: u != username ==> Get(Remove(mgr.activeConnections, username), u) == Get(old(mgr.activeConnections), u)
    ensures mgr.userBuckets - {username} == old(mgr.userBuckets) - {username}
    ensures var joined := Put(old(mgr.activeConnections), username, ws);
      var r := RunFrames(old(db.Snapshot()), joined, Some(BucketState(0.0, connectedAt)), username, frames);
      && db.Snapshot() == r.db
      && completed == r.ok
      && mgr.outbox == old(mgr.outbox) + Deliver(Values(joined), UserList(Keys(joined)), connectFailing) + r.sent
  {
    ghost var roster0, buckets0 := mgr.activeConnections, mgr.userBuckets;
    mgr.Connect(username, ws, connectedAt, connectFailing);
    ghost var roster, buckets := mgr.activeConnections, mgr.userBuckets;
    assert buckets - {username} == buckets0 - {username} by {
      ReplacedEntryMinus(buckets, buckets0, username);
    }
    assert forall u :: u != username ==> Get(Remove(roster, username), u) == Get(roster0, u) by {
      ReplacedEntryRemoved(roster0, username, ws);
    }
    assert mgr.BucketOf(username) == Some(BucketState(0.0, connectedAt));
    completed := ReceiveLoop(mgr, db, username, frames);
  }

  /**
    The two exits of the receive loop: the `WebSocketDisconnect` exit
    deregisters the user and sends the others the new user list; the generic
    exit only deregisters.
  */
  method CloseSession(mgr: ConnectionManager, username: string, disconnected: bool, closeFailing: set<SocketId>)
    requires mgr.Valid()
    modifies mgr
    ensures mgr.Valid()
    ensures mgr.activeConnections == Remove(old(mgr.activeConnections), username)
    ensures mgr.userBuckets == old(mgr.userBuckets) - {username}
    ensures Get(mgr.activeConnections, username) == None
    ensures forall u :: u != username ==> Get(mgr.activeConnections, u) == Get(old(mgr.activeConnections), u)
    ensures disconnected ==>
      mgr.outbox == old(mgr.outbox) + Deliver(Values(mgr.activeConnections), UserList(Keys(mgr.activeConnections)), closeFailing)
    ensures !disconnected ==> mgr.outbox == old(mgr.outbox)
  {
    mgr.Disconnect(username);
    if disconnected {
      mgr.BroadcastUserList(closeFailing);
    }
  }

  /** Replacing one key of a map and then dropping it leaves what dropping it from the original leaves. */
  lemma ReplacedEntryMinus<V>(after: map<string, V>, before: map<string, V>, k: string)
    requires after.Keys == before.Keys + {k}
    requires forall u :: u in before && u != k ==> after[u] == before[u]
    ensures after - {k} == before - {k}
  {
    assert (after - {k}).Keys == (before - {k}).Keys;
  }

  /** `d[k] = v` followed by `del d[k]` leaves every other key as it was. */
  lemma ReplacedEntryRemoved(d: seq<(string, SocketId)>, k: string, v: SocketId)
    requires DistinctKeys(d)
    ensures forall u :: u != k ==> Get(Remove(Put(d, k, v), k), u) == Get(d, u)
  {
    PutDistinct(d, k, v);
    forall u | u != k ensures Get(Remove(Put(d, k, v), k), u) == Get(d, u) {
      RemoveGet(Put(d, k, v), k, u);
      PutGet(d, k, v, u);
    }
  }

  /** One turn of the receive loop, stated as `Turn` of the effect so far. */
  method HandleNext(mgr: ConnectionManager, db: Database, username: string, ghost base: seq<Outgoing<Payload>>,
                    ghost prior: Effect, frame: Inbound)
    returns (ok: bool)
    requires mgr.Valid() && db.Valid()
    requires prior.ok && db.Snapshot() == prior.db && mgr.outbox == base + prior.sent && mgr.BucketOf(username) == prior.bucket
    modifies mgr`outbox, mgr.userBuckets.Values, db
    ensures mgr.Valid() && db.Valid()
    ensures var r := Turn(mgr.activeConnections, username)(prior, frame);
      ok == r.ok && db.Snapshot() == r.db && mgr.outbox == base + r.sent && mgr.BucketOf(username) == r.bucket
    ensures mgr.OtherBuckets(username) == old(mgr.OtherBuckets(username))
    ensures HasUser(db.users, username) <==> HasUser(old(db.users), username)
  {
    ghost var others := mgr.OtherBuckets(username);
    ok := HandleEvent(mgr, db, username, frame);
    OtherBucketsAre(mgr, username, others);
  }

  /** Turn i of the receive loop over `frames`, stated as the loop over one frame more. */
  method ReceiveNext(mgr: ConnectionManager, db: Database, username: string, ghost base: seq<Outgoing<Payload>>,
                     ghost start: Effect, frames: seq<Inbound>, i: nat)
    returns (ok: bool)
    requires i < |frames| && mgr.Valid() && db.Valid()
    requires var r := Loop(Turn(mgr.activeConnections, username), start, frames[..i]);
      r.ok && db.Snapshot() == r.db && mgr.outbox == base + r.sent && mgr.BucketOf(username) == r.bucket
    modifies mgr`outbox, mgr.userBuckets.Values, db
    ensures mgr.Valid() && db.Valid()
    ensures var r := Loop(Turn(mgr.activeConnections, username), start, frames[..i + 1]);
      ok == r.ok && db.Snapshot() == r.db && mgr.outbox == base + r.sent && mgr.BucketOf(username) == r.bucket
    ensures !ok ==>
      Loop(Turn(mgr.activeConnections, username), start, frames) == Loop(Turn(mgr.activeConnections, username), start, frames[..i + 1])
    ensures mgr.OtherBuckets(username) == old(mgr.OtherBuckets(username))
    ensures HasUser(db.users, username) <==> HasUser(old(db.users), username)
  {
    ghost var turn := Turn(mgr.activeConnections, username);
    ok := HandleNext(mgr, db, username, base, Loop(turn, start, frames[..i]), frames[i]);
    LoopNext(turn, start, frames, i);
    if !ok {
      LoopStopsAt(turn, start, frames, i);
    }
  }

  /**
    The `while True` receive loop: handle the frames in order and stop, reporting
    it, at the first frame whose send raised; `RunFrames` says what it leaves.
  */
  method ReceiveLoop(mgr: ConnectionManager, db: Database, username: string, frames: seq<Inbound>)
    returns (completed: bool)
    requires mgr.Valid() && db.Valid()
    modifies mgr`outbox, mgr.userBuckets.Values, db
    ensures mgr.Valid() && db.Valid()
    ensures mgr.activeConnections == old(mgr.activeConnections) && mgr.userBuckets == old(mgr.userBuckets)
    ensures var r := RunFrames(old(db.Snapshot()), mgr.activeConnections, old(mgr.BucketOf(username)), username, frames);
      completed == r.ok && db.Snapshot() == r.db && mgr.outbox == old(mgr.outbox) + r.sent && mgr.BucketOf(username) == r.bucket
    ensures mgr.OtherBuckets(username) == old(mgr.OtherBuckets(username))
    ensures old(mgr.outbox) <= mgr.outbox
    ensures HasUser(db.users, username) <==> HasUser(old(db.users), username)
  {
    ghost var s0, b0, conns := db.Snapshot(), mgr.BucketOf(username), mgr.activeConnections;
    ghost var turn, start := Turn(conns, username), Effect(s0, [], true, b0);
    var i := 0;
    while i < |frames|
      invariant 0 <= i <= |frames|
      invariant mgr.Valid() && db.Valid()
      invariant var r := Loop(turn, start, frames[..i]);
        r.ok && db.Snapshot() == r.db && mgr.outbox == old(mgr.outbox) + r.sent && mgr.BucketOf(username) == r.bucket
      invariant mgr.OtherBuckets(username) == old(mgr.OtherBuckets(username))
      invariant HasUser(db.users, username) <==> HasUser(old(db.users), username)
    {
      var ok := ReceiveNext(mgr, db, username, old(mgr.outbox), start, frames, i);
      if !ok {
        return false;
      }
      i := i + 1;
    }
    assert frames[..i] == frames;
    completed := true;
  }
}
