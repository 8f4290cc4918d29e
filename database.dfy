/**
  The chat store (`Database`): four tables held as sequences of rows, with
  the effect of each statement the class runs.  Connections, PRAGMAs and SQL
  text are not modelled; each method is one atomic step on the tables.
*/
module Storage {
  import opened Wrappers
  import opened Tables

  class Database {
    var users: seq<UserRow>
    var messages: seq<MessageRow>
    var reactions: seq<ReactionRow>
    var receipts: seq<ReceiptRow>
    /** The id AUTOINCREMENT gives the next message: one more than the largest ever used. */
    var nextMessageId: nat

    /** The tables as a value. */
    function Snapshot(): DbState
      reads this
    {
      DbState(users, messages, reactions, receipts, nextMessageId)
    }

    /** The table constraints: UNIQUE usernames, increasing message ids, UNIQUE reaction triples and receipt pairs. */
    ghost predicate Valid()
      reads this
    {
      && UniqueUsernames(users)
      && IdsIncreasing(messages, nextMessageId)
      && UniqueTriples(reactions)
      && UniquePairs(receipts)
    }

    /** `_init_database` on a new file: four empty tables. */
    constructor ()
      ensures Valid()
      ensures users == [] && messages == [] && reactions == [] && receipts == [] && nextMessageId == 1
    {
      users, messages, reactions, receipts := [], [], [], [];
      nextMessageId := 1;
    }

    /** `user_exists`. */
    method UserExists(username: string) returns (found: bool)
      ensures found <==> HasUser(users, username)
    {
      var i := 0;
      while i < |users|
        invariant 0 <= i <= |users|
        invariant forall j :: 0 <= j < i ==> users[j].username != username
      {
        if users[i].username == username {
          return true;
        }
        i := i + 1;
      }
      assert forall u :: u in users ==> u.username != username;
      return false;
    }

    /**
      `create_user`: insert a row with the digest of the password, or answer
      false and change nothing when the username is taken.
    */
    method CreateUser(username: string, password: string, now: real) returns (created: bool)
      requires Valid()
      modifies this
      ensures Valid()
      ensures created <==> !HasUser(old(users), username)
      ensures users == if created
        then old(users) + [UserRow(username, Sha256Hex(password), now, DefaultAvatarColor, DefaultStatus, "")]
        else old(users)
      ensures messages == old(messages) && reactions == old(reactions)
      ensures receipts == old(receipts) && nextMessageId == old(nextMessageId)
    {
      var taken := UserExists(username);
      if taken {
        return false;
      }
      var row := UserRow(username, Sha256Hex(password), now, DefaultAvatarColor, DefaultStatus, "");
      users := users + [row];
      forall i, j | 0 <= i < j < |users| ensures users[i].username != users[j].username {
        if j == |users| - 1 {
          assert old(users)[i] in old(users);
        } else {
          assert users[i] == old(users)[i] && users[j] == old(users)[j];
        }
      }
      created := true;
    }

    /** `update_user_status`: set both status fields of that user's row. */
    method UpdateUserStatus(username: string, status: string, statusMessage: string)
      requires Valid()
      modifies this
      ensures Valid()
      ensures users == StatusUpdated(old(users), username, status, statusMessage)
      ensures |users| == |old(users)|
      ensures forall i :: 0 <= i < |users| ==> users[i] == WithStatus(old(users)[i], username, status, statusMessage)
      ensures messages == old(messages) && reactions == old(reactions)
      ensures receipts == old(receipts) && nextMessageId == old(nextMessageId)
    {
      var before := users;
      users := StatusUpdated(before, username, status, statusMessage);
      assert forall i :: 0 <= i < |users| ==> users[i].username == before[i].username;
    }

    /** `save_message_with_id`: insert one row and return its id, larger than every id before it. */
    method SaveMessageWithId(sender: string, recipient: string, body: string, timestamp: real,
                             replyTo: Option<int>, fileUrl: Option<string>, fileType: Option<string>)
      returns (id: nat)
      requires Valid()
      modifies this
      ensures Valid()
      ensures id == old(nextMessageId) && nextMessageId == id + 1
      ensures messages == old(messages)
        + [MessageRow(id, sender, recipient, body, timestamp, false, false, replyTo, fileUrl, fileType)]
      ensures forall m :: m in old(messages) ==> m.id < id
      ensures users == old(users) && reactions == old(reactions) && receipts == old(receipts)
    {
      id := nextMessageId;
      messages := messages + [MessageRow(id, sender, recipient, body, timestamp, false, false, replyTo, fileUrl, fileType)];
      nextMessageId := nextMessageId + 1;
    }

    /** `update_message`: the row with that id gets the new body and the edited flag; no other row changes. */
    method UpdateMessage(id: int, body: string)
      requires Valid()
      modifies this
      ensures Valid()
      ensures messages == EditById(old(messages), id, body)
      ensures forall i :: 0 <= i < |messages| ==>
        messages[i].id == old(messages)[i].id && messages[i].deleted == old(messages)[i].deleted
      ensures users == old(users) && reactions == old(reactions)
      ensures receipts == old(receipts) && nextMessageId == old(nextMessageId)
    {
      messages := EditById(messages, id, body);
    }

    /** `delete_message`: a soft delete; the row stays, flagged, and nothing else changes. */
    method DeleteMessage(id: int)
      requires Valid()
      modifies this
      ensures Valid()
      ensures messages == DeleteById(old(messages), id)
      ensures forall i :: 0 <= i < |messages| ==>
        messages[i].id == old(messages)[i].id && (messages[i].id == id ==> messages[i].deleted)
      ensures users == old(users) && reactions == old(reactions)
      ensures receipts == old(receipts) && nextMessageId == old(nextMessageId)
    {
      messages := DeleteById(messages, id);
    }

    /** `add_reaction`: toggle the (message, user, emoji) triple; true when it was added. */
    method AddReaction(messageId: int, username: string, emoji: string, now: real) returns (added: bool)
      requires Valid()
      modifies this
      ensures Valid()
      ensures (reactions, added) == ToggleReaction(old(reactions), messageId, username, emoji, now)
      ensures users == old(users) && messages == old(messages)
      ensures receipts == old(receipts) && nextMessageId == old(nextMessageId)
    {
      ToggleReactionEffect(reactions, messageId, username, emoji, now);
      reactions, added := ToggleReaction(reactions, messageId, username, emoji, now).0,
                          ToggleReaction(reactions, messageId, username, emoji, now).1;
    }

    /** `get_message_reactions`: the (emoji, user) pairs of that message, in table order. */
    method GetMessageReactions(messageId: int) returns (found: seq<ReactionView>)
      ensures found == ReactionsOf(reactions, messageId)
      ensures forall e, u :: ReactionView(e, u) in found <==> (messageId, u, e) in Triples(reactions)
    {
      found := [];
      var i := 0;
      while i < |reactions|
        invariant 0 <= i <= |reactions|
        invariant found == ReactionsOf(reactions[..i], messageId)
      {
        ReactionsOfSnoc(reactions[..i], reactions[i], messageId);
        assert reactions[..i + 1] == reactions[..i] + [reactions[i]];
        if reactions[i].messageId == messageId {
          found := found + [ReactionView(reactions[i].emoji, reactions[i].username)];
        }
        i := i + 1;
      }
      assert reactions[..i] == reactions;
      forall e, u ensures ReactionView(e, u) in found <==> (messageId, u, e) in Triples(reactions) {
        ReactionsOfTriples(reactions, messageId, e, u);
      }
    }

    /** `mark_message_read`: record a receipt unless one exists for that (message, user). */
    method MarkMessageRead(messageId: int, username: string, now: real)
      requires Valid()
      modifies this
      ensures Valid()
      ensures receipts == MarkRead(old(receipts), messageId, username, now)
      ensures users == old(users) && messages == old(messages)
      ensures reactions == old(reactions) && nextMessageId == old(nextMessageId)
    {
      MarkReadUnique(receipts, messageId, username, now);
      receipts := MarkRead(receipts, messageId, username, now);
    }

    /** The loop shared by the two history reads: build the enhanced rows, then reverse them. */
    method EnhancedOldestFirst(rows: seq<MessageRow>) returns (views: seq<MessageView>)
      ensures views == Views(Reversed(rows), reactions)
    {
      var built: seq<MessageView> := [];
      for i := 0 to |rows|
        invariant built == Views(rows[..i], reactions)
      {
        var rs := GetMessageReactions(rows[i].id);
        var row := rows[i];
        built := built + [MessageView(row.id, row.sender, row.body, row.timestamp, row.edited, row.deleted,
                                      row.replyTo, row.fileUrl, row.fileType, rs)];
        assert built == Views(rows[..i + 1], reactions);
      }
      assert rows[..|rows|] == rows;
      ViewsReversed(rows, reactions);
      views := Reversed(built);
    }

    /**
      `get_group_messages_enhanced`: the newest `limit` non-deleted group
      messages, oldest first, each with its reactions.
    */
    method GetGroupMessagesEnhanced(limit: int) returns (views: seq<MessageView>)
      ensures views == Views(Recent(messages, IsGroupVisible, limit), reactions)
      ensures 0 <= limit ==> |views| <= limit
      ensures forall v :: v in views ==> !v.deleted
    {
      views := EnhancedOldestFirst(Newest(messages, IsGroupVisible, limit));
      RecentRows(messages, IsGroupVisible, limit);
      forall v | v in views ensures !v.deleted {
        var k :| 0 <= k < |views| && views[k] == v;
        assert Recent(messages, IsGroupVisible, limit)[k] in Recent(messages, IsGroupVisible, limit);
      }
    }

    /**
      `get_private_messages_enhanced`: the newest `limit` non-deleted messages
      between the two users, in either direction, oldest first.
    */
    method GetPrivateMessagesEnhanced(user1: string, user2: string, limit: int) returns (views: seq<MessageView>)
      ensures views == Views(Recent(messages, BetweenFilter(user1, user2), limit), reactions)
      ensures 0 <= limit ==> |views| <= limit
      ensures forall v :: v in views ==> !v.deleted && (v.sender == user1 || v.sender == user2)
    {
      views := EnhancedOldestFirst(Newest(messages, BetweenFilter(user1, user2), limit));
      RecentRows(messages, BetweenFilter(user1, user2), limit);
      forall v | v in views ensures !v.deleted && (v.sender == user1 || v.sender == user2) {
        var k :| 0 <= k < |views| && views[k] == v;
        assert Recent(messages, BetweenFilter(user1, user2), limit)[k] in Recent(messages, BetweenFilter(user1, user2), limit);
      }
    }

    /**
      `search_messages`: at most 50 non-deleted messages containing the query,
      newest first; with a username, only those it sent or received.
    */
    method SearchMessages(query: string, username: Option<string>) returns (hits: seq<SearchHit>)
      ensures hits == Hits(Newest(messages, SearchFilter(query, username), SearchCap))
      ensures |hits| <= SearchCap
      ensures forall i, j :: 0 <= i < j < |hits| ==> hits[i].timestamp >= hits[j].timestamp
      ensures forall h :: h in hits ==> Contains(h.body, query)
      ensures forall h :: h in hits && username.Some? && username.value != "" ==>
        h.sender == username.value || h.recipient == username.value
    {
      var rows := Newest(messages, SearchFilter(query, username), SearchCap);
      hits := [];
      for i := 0 to |rows|
        invariant hits == Hits(rows[..i])
      {
        hits := hits + [HitOf(rows[i])];
        assert hits == Hits(rows[..i + 1]);
      }
      assert rows[..|rows|] == rows;
      SearchHitsMatch(messages, query, username);
    }
  }
}
