/**
  The rows of the chat store's four tables (users, messages, reactions,
  read_receipts) and the meaning of the statements run against them, as
  functions on in-memory sequences of rows.  A sequence is in insertion
  (rowid) order.  Timestamps are instants on one clock, so comparing them is
  comparing ISO-8601 strings written by the same clock.
*/
module Tables {
  import opened Wrappers

  /** SHA-256 is a foreign library: a stored digest is kept as the password it digests. */
  datatype PasswordHash = Sha256Hex(password: string)

  datatype UserRow = UserRow(
    username: string, passwordHash: PasswordHash, createdAt: real,
    avatarColor: string, status: string, statusMessage: string)

  datatype MessageRow = MessageRow(
    id: nat, sender: string, recipient: string, body: string, timestamp: real,
    edited: bool, deleted: bool,
    replyTo: Option<int>, fileUrl: Option<string>, fileType: Option<string>)

  datatype ReactionRow = ReactionRow(messageId: int, username: string, emoji: string, timestamp: real)

  datatype ReceiptRow = ReceiptRow(messageId: int, username: string, readAt: real)

  /** One element of `get_message_reactions`: `{'emoji': ..., 'username': ...}`. */
  datatype ReactionView = ReactionView(emoji: string, username: string)

  /** One element of the enhanced history reads. */
  datatype MessageView = MessageView(
    id: nat, sender: string, body: string, timestamp: real, edited: bool, deleted: bool,
    replyTo: Option<int>, fileUrl: Option<string>, fileType: Option<string>,
    reactions: seq<ReactionView>)

  /** One element of `search_messages`. */
  datatype SearchHit = SearchHit(id: nat, sender: string, recipient: string, body: string, timestamp: real)

  /** The four tables and the AUTOINCREMENT counter at one moment. */
  datatype DbState = DbState(users: seq<UserRow>, messages: seq<MessageRow>, reactions: seq<ReactionRow>,
                             receipts: seq<ReceiptRow>, nextMessageId: nat)

  const Group := "GROUP"
  const DefaultAvatarColor := "#6366f1"
  const DefaultStatus := "online"

  // ---------------------------------------------------------------- users

  predicate HasUser(users: seq<UserRow>, username: string)
  {
    exists u :: u in users && u.username == username
  }

  /** `username TEXT UNIQUE`. */
  predicate UniqueUsernames(users: seq<UserRow>)
  {
    forall i, j :: 0 <= i < j < |users| ==> users[i].username != users[j].username
  }

  /** `UPDATE users SET status = ?, status_message = ? WHERE username = ?`, on one row. */
  function WithStatus(u: UserRow, username: string, status: string, statusMessage: string): UserRow
  {
    if u.username == username then u.(status := status, statusMessage := statusMessage) else u
  }

  /** The same UPDATE over the whole table. */
  function StatusUpdated(users: seq<UserRow>, username: string, status: string, statusMessage: string): seq<UserRow>
  {
    seq(|users|, i requires 0 <= i < |users| => WithStatus(users[i], username, status, statusMessage))
  }

  // ------------------------------------------------------------- messages

  /** `id INTEGER PRIMARY KEY AUTOINCREMENT`: ids grow in insertion order and stay below the next one. */
  predicate IdsIncreasing(messages: seq<MessageRow>, nextId: nat)
  {
    && 0 < nextId
    && (forall i, j :: 0 <= i < j < |messages| ==> messages[i].id < messages[j].id)
    && (forall i :: 0 <= i < |messages| ==> 0 < messages[i].id < nextId)
  }

  /** `UPDATE messages SET message = ?, edited = 1 WHERE id = ?`. */
  function Edited(m: MessageRow, id: int, body: string): MessageRow
  {
    if m.id == id then m.(body := body, edited := true) else m
  }

  /** `UPDATE messages SET deleted = 1 WHERE id = ?`. */
  function SoftDeleted(m: MessageRow, id: int): MessageRow
  {
    if m.id == id then m.(deleted := true) else m
  }

  // ------------------------------------------------------------ reactions

  /** The UNIQUE key of a reaction. */
  function ReactionKey(r: ReactionRow): (int, string, string)
  {
    (r.messageId, r.username, r.emoji)
  }

  /** The set of (message, user, emoji) triples recorded. */
  function Triples(reactions: seq<ReactionRow>): set<(int, string, string)>
  {
    set r | r in reactions :: ReactionKey(r)
  }

  /** `UNIQUE(message_id, username, emoji)`. */
  predicate UniqueTriples(reactions: seq<ReactionRow>)
  {
    forall i, j :: 0 <= i < j < |reactions| ==> ReactionKey(reactions[i]) != ReactionKey(reactions[j])
  }

  /** `DELETE FROM reactions WHERE message_id = ? AND username = ? AND emoji = ?`. */
  function WithoutTriple(reactions: seq<ReactionRow>, key: (int, string, string)): seq<ReactionRow>
  {
    if reactions == [] then []
    else if ReactionKey(reactions[0]) == key then WithoutTriple(reactions[1..], key)
    else [reactions[0]] + WithoutTriple(reactions[1..], key)
  }

  /** The delete keeps exactly the rows with another key, and keeps the table's keys unique. */
  lemma {:induction false} WithoutTripleRows(reactions: seq<ReactionRow>, key: (int, string, string))
    ensures forall x :: x in WithoutTriple(reactions, key) <==> x in reactions && ReactionKey(x) != key
    ensures UniqueTriples(reactions) ==> UniqueTriples(WithoutTriple(reactions, key))
  {
    if reactions != [] {
      WithoutTripleRows(reactions[1..], key);
      var rest := WithoutTriple(reactions[1..], key);
      assert forall x :: x in reactions <==> x == reactions[0] || x in reactions[1..];
      if ReactionKey(reactions[0]) != key && UniqueTriples(reactions) {
        assert UniqueTriples(reactions[1..]) by {
          forall i, j | 0 <= i < j < |reactions[1..]|
            ensures ReactionKey(reactions[1..][i]) != ReactionKey(reactions[1..][j])
          {
            assert reactions[1..][i] == reactions[i + 1] && reactions[1..][j] == reactions[j + 1];
          }
        }
        forall x | x in rest ensures ReactionKey(x) != ReactionKey(reactions[0]) {
          var j :| 0 <= j < |reactions[1..]| && reactions[1..][j] == x;
          assert reactions[j + 1] == x;
        }
        var r := [reactions[0]] + rest;
        forall i, j | 0 <= i < j < |r| ensures ReactionKey(r[i]) != ReactionKey(r[j]) {
          if i == 0 {
            assert r[j] == rest[j - 1] && r[j] in rest;
          } else {
            assert r[i] == rest[i - 1] && r[j] == rest[j - 1];
          }
        }
      }
    }
  }

  /**
    `add_reaction`: insert the triple, or, when the UNIQUE constraint rejects
    the insert, delete it.  The flag is true when the reaction was added.
  */
  function ToggleReaction(reactions: seq<ReactionRow>, messageId: int, username: string, emoji: string, now: real)
    : (seq<ReactionRow>, bool)
  {
    if (messageId, username, emoji) in Triples(reactions) then (WithoutTriple(reactions, (messageId, username, emoji)), false)
    else (reactions + [ReactionRow(messageId, username, emoji, now)], true)
  }

  /** `SELECT emoji, username FROM reactions WHERE message_id = ?`, in table order. */
  function ReactionsOf(reactions: seq<ReactionRow>, messageId: int): seq<ReactionView>
  {
    if reactions == [] then []
    else
      (if reactions[0].messageId == messageId then [ReactionView(reactions[0].emoji, reactions[0].username)] else [])
      + ReactionsOf(reactions[1..], messageId)
  }

  // -------------------------------------------------------- read receipts

  predicate HasReceipt(receipts: seq<ReceiptRow>, messageId: int, username: string)
  {
    exists r :: r in receipts && r.messageId == messageId && r.username == username
  }

  /** `UNIQUE(message_id, username)`. */
  predicate UniquePairs(receipts: seq<ReceiptRow>)
  {
    forall i, j :: 0 <= i < j < |receipts| ==>
      (receipts[i].messageId, receipts[i].username) != (receipts[j].messageId, receipts[j].username)
  }

  /** `mark_message_read`: insert, or do nothing when the UNIQUE constraint rejects it. */
  function MarkRead(receipts: seq<ReceiptRow>, messageId: int, username: string, now: real): seq<ReceiptRow>
  {
    if HasReceipt(receipts, messageId, username) then receipts
    else receipts + [ReceiptRow(messageId, username, now)]
  }

  // --------------------------------------------------------------- reads

  /** `WHERE ...`: the rows `keep` accepts, in table order. */
  function Filter(rows: seq<MessageRow>, keep: MessageRow -> bool): (r: seq<MessageRow>)
    ensures forall m :: m in r <==> m in rows && keep(m)
    ensures |r| <= |rows|
  {
    if rows == [] then []
    else
      assert forall m :: m in rows <==> m == rows[0] || m in rows[1..];
      (if keep(rows[0]) then [rows[0]] else []) + Filter(rows[1..], keep)
  }

  predicate NewestFirst(rows: seq<MessageRow>)
  {
    forall i, j :: 0 <= i < j < |rows| ==> rows[i].timestamp >= rows[j].timestamp
  }

  predicate OldestFirst(rows: seq<MessageRow>)
  {
    forall i, j :: 0 <= i < j < |rows| ==> rows[i].timestamp <= rows[j].timestamp
  }

  /** Insert `m` into a newest-first sequence, before the rows no newer than it. */
  function InsertByTime(m: MessageRow, sorted: seq<MessageRow>): (r: seq<MessageRow>)
    ensures multiset(r) == multiset(sorted) + multiset{m}
    ensures forall x :: x in r <==> x in sorted || x == m
  {
    if sorted == [] then [m]
    else if sorted[0].timestamp <= m.timestamp then [m] + sorted
    else
      assert sorted == [sorted[0]] + sorted[1..];
      [sorted[0]] + InsertByTime(m, sorted[1..])
  }

  /** Insertion keeps a sequence newest-first. */
  lemma {:induction false} InsertByTimeSorted(m: MessageRow, sorted: seq<MessageRow>)
    requires NewestFirst(sorted)
    ensures NewestFirst(InsertByTime(m, sorted))
  {
    if sorted != [] && sorted[0].timestamp > m.timestamp {
      var tail := sorted[1..];
      assert NewestFirst(tail) by {
        forall i, j | 0 <= i < j < |tail| ensures tail[i].timestamp >= tail[j].timestamp {
          assert tail[i] == sorted[i + 1] && tail[j] == sorted[j + 1];
        }
      }
      InsertByTimeSorted(m, tail);
      var rest := InsertByTime(m, tail);
      forall x | x in rest ensures x.timestamp <= sorted[0].timestamp {
        if x != m {
          var j :| 0 <= j < |tail| && tail[j] == x;
          assert sorted[j + 1] == x;
        }
      }
      var r := [sorted[0]] + rest;
      forall i, j | 0 <= i < j < |r| ensures r[i].timestamp >= r[j].timestamp {
        assert r[j] == rest[j - 1];
        if i > 0 {
          assert r[i] == rest[i - 1];
        } else {
          assert rest[j - 1] in rest;
        }
      }
    }
  }

  /** `ORDER BY timestamp DESC` (ties keep table order). */
  function SortByTime(rows: seq<MessageRow>): (r: seq<MessageRow>)
    ensures multiset(r) == multiset(rows)
  {
    if rows == [] then []
    else
      assert rows == [rows[0]] + rows[1..];
      InsertByTime(rows[0], SortByTime(rows[1..]))
  }

  /** The sort yields a newest-first sequence. */
  lemma {:induction false} SortByTimeSorted(rows: seq<MessageRow>)
    ensures NewestFirst(SortByTime(rows))
  {
    if rows != [] {
      SortByTimeSorted(rows[1..]);
      InsertByTimeSorted(rows[0], SortByTime(rows[1..]));
    }
  }

  /** `LIMIT n`; SQLite reads a negative limit as no limit. */
  function Limit(rows: seq<MessageRow>, limit: int): seq<MessageRow>
  {
    if 0 <= limit < |rows| then rows[..limit] else rows
  }

  /** `SELECT ... WHERE keep ORDER BY timestamp DESC LIMIT limit`. */
  function Newest(rows: seq<MessageRow>, keep: MessageRow -> bool, limit: int): seq<MessageRow>
  {
    Limit(SortByTime(Filter(rows, keep)), limit)
  }

  function Reversed<T>(s: seq<T>): (r: seq<T>)
    ensures |r| == |s|
  {
    if s == [] then [] else Reversed(s[1..]) + [s[0]]
  }

  /** The history reads: the newest rows, listed oldest first (`list(reversed(...))`). */
  function Recent(rows: seq<MessageRow>, keep: MessageRow -> bool, limit: int): seq<MessageRow>
  {
    Reversed(Newest(rows, keep, limit))
  }

  /** The enhanced form of a row, with its reactions. */
  function ViewOf(m: MessageRow, reactions: seq<ReactionRow>): MessageView
  {
    MessageView(m.id, m.sender, m.body, m.timestamp, m.edited, m.deleted,
                m.replyTo, m.fileUrl, m.fileType, ReactionsOf(reactions, m.id))
  }

  function Views(rows: seq<MessageRow>, reactions: seq<ReactionRow>): (vs: seq<MessageView>)
    ensures |vs| == |rows|
  {
    seq(|rows|, i requires 0 <= i < |rows| => ViewOf(rows[i], reactions))
  }

  function HitOf(m: MessageRow): SearchHit
  {
    SearchHit(m.id, m.sender, m.recipient, m.body, m.timestamp)
  }

  function Hits(rows: seq<MessageRow>): (hs: seq<SearchHit>)
    ensures |hs| == |rows|
  {
    seq(|rows|, i requires 0 <= i < |rows| => HitOf(rows[i]))
  }

  /** `message LIKE '%query%'`, read as substring containment. */
  predicate Contains(body: string, query: string)
  {
    exists i | 0 <= i <= |body| :: OccursAt(body, query, i)
  }

  predicate OccursAt(body: string, query: string, i: nat)
  {
    i + |query| <= |body| && body[i..i + |query|] == query
  }

  /** The filter of `get_group_messages_enhanced`. */
  predicate IsGroupVisible(m: MessageRow)
  {
    m.recipient == Group && !m.deleted
  }

  /** The filter of `get_private_messages_enhanced`: either direction between the two users. */
  predicate IsBetween(m: MessageRow, user1: string, user2: string)
  {
    ((m.sender == user1 && m.recipient == user2) || (m.sender == user2 && m.recipient == user1)) && !m.deleted
  }

  /** The filter of `search_messages`; an empty username, like `None`, does not restrict. */
  predicate MatchesSearch(m: MessageRow, query: string, username: Option<string>)
  {
    && (username.Some? && username.value != "" ==> m.sender == username.value || m.recipient == username.value)
    && Contains(m.body, query)
    && !m.deleted
  }

  const SearchCap := 50

  /** The WHERE clause of `get_private_messages_enhanced` as a row filter. */
  function BetweenFilter(user1: string, user2: string): MessageRow -> bool
  {
    m => IsBetween(m, user1, user2)
  }

  /** The WHERE clause of `search_messages` as a row filter. */
  function SearchFilter(query: string, username: Option<string>): MessageRow -> bool
  {
    m => MatchesSearch(m, query, username)
  }

  /** Soft delete applied to the whole table (`delete_message`). */
  function DeleteById(messages: seq<MessageRow>, id: int): (r: seq<MessageRow>)
    ensures |r| == |messages|
    ensures forall i :: 0 <= i < |r| ==>
      && r[i].(deleted := messages[i].deleted) == messages[i]
      && (r[i].deleted <==> messages[i].deleted || messages[i].id == id)
  {
    seq(|messages|, i requires 0 <= i < |messages| => SoftDeleted(messages[i], id))
  }

  /** Edit applied to the whole table (`update_message`). */
  function EditById(messages: seq<MessageRow>, id: int, body: string): (r: seq<MessageRow>)
    ensures |r| == |messages|
    ensures forall i :: 0 <= i < |r| ==>
      && r[i].(body := messages[i].body, edited := messages[i].edited) == messages[i]
      && (messages[i].id == id ==> r[i].body == body && r[i].edited)
      && (messages[i].id != id ==> r[i] == messages[i])
  {
    seq(|messages|, i requires 0 <= i < |messages| => Edited(messages[i], id, body))
  }

  // -------------------------------------------------------------- lemmas

  lemma {:induction false} ReversedAt<T>(s: seq<T>, k: nat)
    requires k < |s|
    ensures Reversed(s)[k] == s[|s| - 1 - k]
  {
    if k < |s| - 1 {
      ReversedAt(s[1..], k);
    }
  }

  lemma ReversedMembers<T>(s: seq<T>)
    ensures forall x :: x in Reversed(s) <==> x in s
  {
    forall x ensures x in Reversed(s) <==> x in s {
      if x in s {
        var i :| 0 <= i < |s| && s[i] == x;
        ReversedAt(s, |s| - 1 - i);
      }
      if x in Reversed(s) {
        var k :| 0 <= k < |s| && Reversed(s)[k] == x;
        ReversedAt(s, k);
      }
    }
  }

  /**
    The rows a `... WHERE keep ORDER BY timestamp DESC LIMIT limit` query
    returns: only kept rows, `limit` of them unless fewer are kept, newest
    first, and no kept row left out is newer than one returned.
  */
  lemma NewestRows(rows: seq<MessageRow>, keep: MessageRow -> bool, limit: int)
    ensures forall m :: m in Newest(rows, keep, limit) ==> m in rows && keep(m)
    ensures |Newest(rows, keep, limit)|
         == if 0 <= limit < |Filter(rows, keep)| then limit else |Filter(rows, keep)|
    ensures NewestFirst(Newest(rows, keep, limit))
    ensures forall x, y :: x in Newest(rows, keep, limit) && y in rows && keep(y) && y !in Newest(rows, keep, limit)
              ==> y.timestamp <= x.timestamp
  {
    var f := Filter(rows, keep);
    var sorted := SortByTime(f);
    SortByTimeSorted(f);
    SameMembers(sorted, f);
    var n := Newest(rows, keep, limit);
    assert n == sorted[..|n|];
    PrefixIsNewest(sorted, |n|);
  }

  lemma SameMembers(a: seq<MessageRow>, b: seq<MessageRow>)
    requires multiset(a) == multiset(b)
    ensures forall m :: m in a <==> m in b
  {
    forall m ensures m in a <==> m in b {
      assert m in a <==> m in multiset(a);
      assert m in b <==> m in multiset(b);
    }
  }

  /** A prefix of a newest-first sequence is newest-first and holds its newest rows. */
  lemma PrefixIsNewest(sorted: seq<MessageRow>, k: nat)
    requires NewestFirst(sorted) && k <= |sorted|
    ensures NewestFirst(sorted[..k])
    ensures forall x, y :: x in sorted[..k] && y in sorted && y !in sorted[..k] ==> y.timestamp <= x.timestamp
  {
    var n := sorted[..k];
    forall x, y | x in n && y in sorted && y !in n ensures y.timestamp <= x.timestamp {
      var i :| 0 <= i < k && n[i] == x;
      var j :| 0 <= j < |sorted| && sorted[j] == y;
    }
  }

  /**
    The history reads (`list(reversed(...))` of such a query): the same rows,
    listed oldest first.
  */
  lemma RecentRows(rows: seq<MessageRow>, keep: MessageRow -> bool, limit: int)
    ensures forall m :: m in Recent(rows, keep, limit) ==> m in rows && keep(m)
    ensures |Recent(rows, keep, limit)|
         == if 0 <= limit < |Filter(rows, keep)| then limit else |Filter(rows, keep)|
    ensures OldestFirst(Recent(rows, keep, limit))
    ensures forall x, y :: x in Recent(rows, keep, limit) && y in rows && keep(y) && y !in Recent(rows, keep, limit)
              ==> y.timestamp <= x.timestamp
  {
    var n := Newest(rows, keep, limit);
    NewestRows(rows, keep, limit);
    ReversedMembers(n);
    var r := Reversed(n);
    forall i, j | 0 <= i < j < |r| ensures r[i].timestamp <= r[j].timestamp {
      ReversedAt(n, i);
      ReversedAt(n, j);
    }
  }

  /** Building the enhanced rows and then reversing is viewing the reversed rows. */
  lemma ViewsReversed(rows: seq<MessageRow>, reactions: seq<ReactionRow>)
    ensures Reversed(Views(rows, reactions)) == Views(Reversed(rows), reactions)
  {
    var a := Reversed(Views(rows, reactions));
    var b := Views(Reversed(rows), reactions);
    forall k | 0 <= k < |rows| ensures a[k] == b[k] {
      ReversedAt(Views(rows, reactions), k);
      ReversedAt(rows, k);
    }
  }

  /**
    A soft-deleted message drops out of every history read, while the row
    itself, and so every lookup by its id, stays.
  */
  lemma DeletedLeavesHistory(messages: seq<MessageRow>, id: int, user1: string, user2: string, limit: int)
    ensures forall m :: m in Recent(DeleteById(messages, id), IsGroupVisible, limit) ==> m.id != id
    ensures forall m :: m in Recent(DeleteById(messages, id), BetweenFilter(user1, user2), limit) ==> m.id != id
    ensures forall i :: 0 <= i < |messages| ==> DeleteById(messages, id)[i].id == messages[i].id
  {
    var table := DeleteById(messages, id);
    assert forall m :: m in table && m.id == id ==> m.deleted by {
      forall m | m in table && m.id == id ensures m.deleted {
        var i :| 0 <= i < |table| && table[i] == m;
        assert m == SoftDeleted(messages[i], id);
      }
    }
    RecentRows(table, IsGroupVisible, limit);
    RecentRows(table, BetweenFilter(user1, user2), limit);
  }

  /** Deleting rows by key removes exactly that key from the set of triples. */
  lemma WithoutTripleTriples(reactions: seq<ReactionRow>, key: (int, string, string))
    ensures Triples(WithoutTriple(reactions, key)) == Triples(reactions) - {key}
  {
    var r := WithoutTriple(reactions, key);
    WithoutTripleRows(reactions, key);
    forall t | t in Triples(reactions) - {key} ensures t in Triples(r) {
      var x :| x in reactions && ReactionKey(x) == t;
      assert x in r;
    }
  }

  /**
    `add_reaction` toggles: it adds the triple and answers true when it was
    absent, removes it and answers false when it was present, and the UNIQUE
    constraint keeps holding.
  */
  lemma ToggleReactionEffect(reactions: seq<ReactionRow>, messageId: int, username: string, emoji: string, now: real)
    ensures var (r, added) := ToggleReaction(reactions, messageId, username, emoji, now);
      && added == ((messageId, username, emoji) !in Triples(reactions))
      && Triples(r) == (if added then Triples(reactions) + {(messageId, username, emoji)}
                        else Triples(reactions) - {(messageId, username, emoji)})
      && (UniqueTriples(reactions) ==> UniqueTriples(r))
  {
    var key := (messageId, username, emoji);
    if key in Triples(reactions) {
      WithoutTripleTriples(reactions, key);
      WithoutTripleRows(reactions, key);
    } else {
      var r := reactions + [ReactionRow(messageId, username, emoji, now)];
      assert Triples(r) == Triples(reactions) + {key} by {
        forall t | t in Triples(r) ensures t in Triples(reactions) + {key} {
          var x :| x in r && ReactionKey(x) == t;
          if x != r[|r| - 1] {
            assert x in reactions;
          }
        }
        assert ReactionKey(r[|r| - 1]) == key;
        forall t | t in Triples(reactions) ensures t in Triples(r) {
          var x :| x in reactions && ReactionKey(x) == t;
          assert x in r;
        }
      }
      if UniqueTriples(reactions) {
        forall i, j | 0 <= i < j < |r| ensures ReactionKey(r[i]) != ReactionKey(r[j]) {
          if j == |r| - 1 {
            assert r[i] in reactions;
          } else {
            assert r[i] == reactions[i] && r[j] == reactions[j];
          }
        }
      }
    }
  }

  /** Reacting twice with the same triple leaves the recorded reactions as they were. */
  lemma ToggleTwiceRestores(reactions: seq<ReactionRow>, messageId: int, username: string, emoji: string, now1: real, now2: real)
    ensures var once := ToggleReaction(reactions, messageId, username, emoji, now1).0;
      Triples(ToggleReaction(once, messageId, username, emoji, now2).0) == Triples(reactions)
  {
    var once := ToggleReaction(reactions, messageId, username, emoji, now1).0;
    ToggleReactionEffect(reactions, messageId, username, emoji, now1);
    ToggleReactionEffect(once, messageId, username, emoji, now2);
  }

  /** From no reaction, three toggles leave exactly one row for the triple. */
  lemma ToggleThriceRecords(reactions: seq<ReactionRow>, messageId: int, username: string, emoji: string,
                            now1: real, now2: real, now3: real)
    requires UniqueTriples(reactions)
    requires (messageId, username, emoji) !in Triples(reactions)
    ensures var r1 := ToggleReaction(reactions, messageId, username, emoji, now1).0;
      var r2 := ToggleReaction(r1, messageId, username, emoji, now2).0;
      var r3 := ToggleReaction(r2, messageId, username, emoji, now3).0;
      (messageId, username, emoji) in Triples(r3) && UniqueTriples(r3)
  {
    var r1 := ToggleReaction(reactions, messageId, username, emoji, now1).0;
    var r2 := ToggleReaction(r1, messageId, username, emoji, now2).0;
    ToggleReactionEffect(reactions, messageId, username, emoji, now1);
    ToggleReactionEffect(r1, messageId, username, emoji, now2);
    ToggleReactionEffect(r2, messageId, username, emoji, now3);
  }

  /** `get_message_reactions` lists exactly the recorded triples of that message. */
  lemma {:induction false} ReactionsOfTriples(reactions: seq<ReactionRow>, messageId: int, emoji: string, username: string)
    ensures ReactionView(emoji, username) in ReactionsOf(reactions, messageId)
        <==> (messageId, username, emoji) in Triples(reactions)
  {
    if reactions != [] {
      ReactionsOfTriples(reactions[1..], messageId, emoji, username);
      assert Triples(reactions) == {ReactionKey(reactions[0])} + Triples(reactions[1..]) by {
        forall t | t in Triples(reactions) ensures t in {ReactionKey(reactions[0])} + Triples(reactions[1..]) {
          var x :| x in reactions && ReactionKey(x) == t;
          if x != reactions[0] {
            assert x in reactions[1..];
          }
        }
        forall t | t in Triples(reactions[1..]) ensures t in Triples(reactions) {
          var x :| x in reactions[1..] && ReactionKey(x) == t;
          assert x in reactions;
        }
      }
    }
  }

  /** Marking a message read a second time changes nothing. */
  lemma MarkReadIdempotent(receipts: seq<ReceiptRow>, messageId: int, username: string, now1: real, now2: real)
    ensures MarkRead(MarkRead(receipts, messageId, username, now1), messageId, username, now2)
         == MarkRead(receipts, messageId, username, now1)
  {
    var once := MarkRead(receipts, messageId, username, now1);
    assert once[|once| - 1] in once;
  }

  /** After marking, the receipt exists and there is still at most one per (message, user). */
  lemma MarkReadUnique(receipts: seq<ReceiptRow>, messageId: int, username: string, now: real)
    requires UniquePairs(receipts)
    ensures HasReceipt(MarkRead(receipts, messageId, username, now), messageId, username)
    ensures UniquePairs(MarkRead(receipts, messageId, username, now))
  {
    var r := MarkRead(receipts, messageId, username, now);
    assert r[|r| - 1] in r;
    if !HasReceipt(receipts, messageId, username) {
      forall i, j | 0 <= i < j < |r|
        ensures (r[i].messageId, r[i].username) != (r[j].messageId, r[j].username)
      {
        if j == |r| - 1 {
          assert r[i] in receipts;
        } else {
          assert r[i] == receipts[i] && r[j] == receipts[j];
        }
      }
    }
  }

  /**
    `search_messages` answers at most 50 hits, newest first, each one a row
    whose text contains the query and, when a username is given, that the
    user sent or received.
  */
  lemma SearchHitsMatch(messages: seq<MessageRow>, query: string, username: Option<string>)
    ensures var hits := Hits(Newest(messages, SearchFilter(query, username), SearchCap));
      && |hits| <= SearchCap
      && (forall i, j :: 0 <= i < j < |hits| ==> hits[i].timestamp >= hits[j].timestamp)
      && (forall h :: h in hits ==> Contains(h.body, query))
      && (forall h :: h in hits && username.Some? && username.value != "" ==>
            h.sender == username.value || h.recipient == username.value)
  {
    var rows := Newest(messages, SearchFilter(query, username), SearchCap);
    var hits := Hits(rows);
    assert |rows| <= SearchCap && NewestFirst(rows) && forall m :: m in rows ==> MatchesSearch(m, query, username) by {
      NewestRows(messages, SearchFilter(query, username), SearchCap);
    }
    forall i, j | 0 <= i < j < |hits| ensures hits[i].timestamp >= hits[j].timestamp {
      assert hits[i].timestamp == rows[i].timestamp && hits[j].timestamp == rows[j].timestamp;
    }
    forall h | h in hits
      ensures Contains(h.body, query)
      ensures username.Some? && username.value != "" ==> h.sender == username.value || h.recipient == username.value
    {
      var k :| 0 <= k < |hits| && hits[k] == h;
      assert rows[k] in rows;
    }
  }

  /** One more reaction row at the end of the scan adds at most one entry at the end. */
  lemma {:induction false} ReactionsOfSnoc(reactions: seq<ReactionRow>, r: ReactionRow, messageId: int)
    ensures ReactionsOf(reactions + [r], messageId)
         == ReactionsOf(reactions, messageId)
            + (if r.messageId == messageId then [ReactionView(r.emoji, r.username)] else [])
  {
    if reactions == [] {
      assert reactions + [r] == [r];
    } else {
      assert (reactions + [r])[0] == reactions[0];
      assert (reactions + [r])[1..] == reactions[1..] + [r];
      ReactionsOfSnoc(reactions[1..], r, messageId);
      var x := reactions[0];
      var h := if x.messageId == messageId then [ReactionView(x.emoji, x.username)] else [];
      var t := if r.messageId == messageId then [ReactionView(r.emoji, r.username)] else [];
      assert ReactionsOf(reactions + [r], messageId) == h + ReactionsOf(reactions[1..] + [r], messageId);
      assert ReactionsOf(reactions, messageId) == h + ReactionsOf(reactions[1..], messageId);
      assert h + (ReactionsOf(reactions[1..], messageId) + t) == (h + ReactionsOf(reactions[1..], messageId)) + t;
    }
  }
}
