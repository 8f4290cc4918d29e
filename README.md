# mkchat server core in Dafny

mkchat is a small chat server. Clients open a websocket, after which they
exchange JSON events: history requests, typing notices, reactions, edits,
deletions, searches, status changes and chat messages. A SQLite file stores
the users, the messages, the reactions and the read receipts. Each session
has a leaky bucket that limits its message rate. A second pair of managers
serves the log dashboard and an older socket-keyed chat.

This project models that core and proves properties of the model:

- `leaky_bucket.dfy` (module `RateLimiter`): the bucket, as a class with the
  source's fields and a pure `Drained`/`Admit` specification of its lazy leak.
- `chat_manager.dfy` (module `ChatManager`): the username-keyed
  `ConnectionManager` of `main.py`. The roster is an ordered dictionary, and
  each user has a bucket. Every send is appended to an outbox. A send fails
  when its socket is in a `failing` set.
- `chat_endpoint.dfy` (module `ChatEndpoint`): `websocket_endpoint`. Each
  event kind has its own handler. A session is a sequence of inbound frames
  followed by the exit path.
- `managers.dfy` (module `Managers`): `LogManager` and the socket-keyed
  `ConnectionManager` of `core_logic/managers.py`, whose loops swallow send
  failures.
- `tables.dfy` (module `Tables`) and `database.dfy` (module `Storage`): the
  rows of the four tables, their UNIQUE constraints, ordering and limits of
  the reads, and a `Database` class whose methods change the tables.
- `chat_api.dfy` (module `ChatApi`): registration checks and the
  classification of uploaded files.
- `net.dfy`, `py_dict.dfy`, `py_str.dfy`, `wrappers.dfy`: the socket outbox,
  Python's insertion-ordered dict as an association list, `str.strip` and
  truthiness, and `Option`.

Python's `dict` is modelled as a sequence of key/value pairs. `Put` keeps a
key's position, and new keys go last, so iteration order is the source's.
Clocks are `real` parameters (`now`). A socket is a number. Which sends fail
is an input. Python's `int()` truncates toward zero; `ChatManager.Trunc`
models that for negative quotients too.

`check_rate_limit` reports `int((level - capacity) / leak_rate) + 1` from the
level after the leak, and `ChatManager.WaitSeconds` is that formula.

Behaviour of the source that the contracts make visible:

- `broadcast` and `send_personal_message` in `main.py` let a failed send
  raise, so the handler breaks out of the receive loop and later receivers
  miss the message. The user is then removed by one of the two exit paths:
  the `WebSocketDisconnect` one broadcasts the new user list, and the generic
  one does not. Which one a dead peer leads to depends on the server library,
  so the session methods take it as an input and state both outcomes.
- `edit` and `delete` perform no ownership check: any session can edit or
  soft-delete any message id.
- A second connection under the same username replaces the first in the
  roster and gets a fresh bucket.
- A direct message to oneself is sent to the same socket twice.
- An empty message still uses up one unit of rate capacity, because the rate
  check comes before the emptiness check.

## Model

| member | source | states |
|---|---|---|
| RateLimiter.Drained | core_logic/leaky_bucket.py:16-23 | the lazy leak sets the last-leak time to now and the level to `level - elapsed * rate`, floored at zero |
| RateLimiter.Admit | core_logic/leaky_bucket.py:25-37 | `add_message` on a bucket state: leak, then admit when the amount fits; its properties are `AdmitKeepsBounds`, `BurstFromLevel` and `AdmitAfterFullDrain` |
| RateLimiter.DrainNeverRaises | core_logic/leaky_bucket.py:16-23 | for a non-negative level and rate and a clock that does not go back, leaking never raises the level and never makes it negative |
| RateLimiter.AdmitKeepsBounds | core_logic/leaky_bucket.py:25-37 | `add_message` keeps the level between 0 and capacity |
| RateLimiter.Burst | core_logic/leaky_bucket.py:25-37 | the verdicts of n back-to-back admissions, one per call; what they are is stated by `BurstFromLevel` and `FreshBucketBurst` |
| RateLimiter.BurstFromLevel | core_logic/leaky_bucket.py:25-37 | at level k and zero elapsed time, the next capacity-k messages are admitted and the one after is refused |
| RateLimiter.FreshBucketBurst | core_logic/leaky_bucket.py:6-37 | a fresh bucket admits exactly `capacity` zero-interval messages and refuses the next one |
| RateLimiter.AdmitAfterFullDrain | core_logic/leaky_bucket.py:16-37 | after capacity/rate seconds, a message no larger than the capacity is admitted, whatever the earlier level |
| RateLimiter.LeakyBucket.constructor | core_logic/leaky_bucket.py:6-14 | a new bucket stores capacity and rate, is empty, and last leaked at creation time |
| RateLimiter.LeakyBucket.Leak | core_logic/leaky_bucket.py:16-23 | the new state is `Drained` of the old state |
| RateLimiter.LeakyBucket.AddMessage | core_logic/leaky_bucket.py:25-37 | the bucket leaks, then admits exactly when the drained level plus the amount fits the capacity; only an admission adds the amount |
| ChatManager.Trunc | main.py:67 | Python `int()` of a real: the integer toward zero, within one of x |
| ChatManager.WaitSeconds | main.py:67 | the reported wait, `int((level - capacity) / leak_rate) + 1`; its property is `RejectedWaitIsOneSecond` |
| ChatManager.BroadcastRun | main.py:42-45 | the aborting `broadcast` loop: sends in dict order to non-excluded users, stopping at the first failure; its properties are the `BroadcastRun...` lemmas |
| ChatManager.PersonalRun | main.py:38-40 | `send_personal_message`: one send when the user is online, none otherwise, and whether it failed |
| ChatManager.RejectedWaitIsOneSecond | main.py:59-68 | with rate 1, a rejection from a level within the last unit of capacity reports a one-second wait |
| ChatManager.BroadcastRunAppend | main.py:42-45 | broadcasting to a concatenated roster is broadcasting to the first part and, only if that completed, to the second |
| ChatManager.BroadcastRunSnoc | main.py:42-45 | one more roster entry gets a send only if the loop got that far, it is not excluded, and its socket works |
| ChatManager.BroadcastRunCompletes | main.py:42-45 | a broadcast completes exactly when no receiver's socket fails, and every send carries the message |
| ChatManager.BroadcastRunReceivers | main.py:42-45 | a completed broadcast reaches the non-excluded users in dict order; an aborted one reaches a proper prefix of them |
| ChatManager.ReceiversAll | main.py:42-45 | without `exclude`, every online socket is a receiver |
| ChatManager.ReceiversExcluding | main.py:42-45 | with `exclude`, the receivers are the roster without that user, one fewer when the user is online |
| ChatManager.ReceiversNone | main.py:42-45 | excluding a user who is not online excludes nobody |
| ChatManager.ConnectionManager.constructor | main.py:22-24 | the roster, the buckets and the outbox start empty |
| ChatManager.ConnectionManager.Connect | main.py:26-30 | the user is put in the roster with a fresh empty bucket of capacity 5 and rate 1.0; other buckets are kept; the new user list goes to every online socket, failures swallowed |
| ChatManager.ConnectionManager.Disconnect | main.py:32-36 | the user leaves the roster and the buckets; nobody else's entry changes and nothing is sent |
| ChatManager.ConnectionManager.SendPersonalMessage | main.py:38-40 | one send to the user's socket if online, none otherwise; a failure is reported |
| ChatManager.ConnectionManager.Broadcast | main.py:42-45 | the outbox grows by the aborting broadcast run, and the result says whether it completed |
| ChatManager.ConnectionManager.BroadcastUserList | main.py:47-57 | the list of online names goes to every online socket in order; failed sends are skipped |
| ChatManager.ConnectionManager.CheckRateLimit | main.py:59-68 | a user without a bucket is allowed; otherwise the bucket's admission decides; a refusal carries `int((level-capacity)/rate)+1`, which is 1 for a bucket that was within capacity |
| ChatEndpoint.GroupDelivery | main.py:409-411 | a group message completes exactly when no online socket fails, and then reaches every online socket once, in order |
| ChatEndpoint.DirectDelivery | main.py:412-415 | a direct message makes at most two sends, each to the recipient's or the sender's socket; with both online and working, the recipient comes first |
| ChatEndpoint.TypingReceivers | main.py:276-307 | a group typing notice reaches everyone but the typist; a direct one reaches at most the recipient's socket |
| ChatEndpoint.HandleGetHistory | main.py:263-274 | the requester is sent the last 100 visible messages of the group or of the pair, oldest first, with their reactions |
| ChatEndpoint.HandleTyping | main.py:276-307 | `typing`/`stop_typing` send the typing run for the recipient, `GROUP` by default |
| ChatEndpoint.HandleReact | main.py:309-321 | without a truthy id and emoji nothing happens; otherwise the reaction is toggled and `{reaction_update, message_id, emoji, username}` is broadcast to everyone |
| ChatEndpoint.HandleEdit | main.py:323-334 | with a truthy id and non-blank stripped text, the body is replaced and flagged edited, then broadcast; otherwise nothing changes |
| ChatEndpoint.HandleDelete | main.py:336-344 | with a truthy id, the message is soft-deleted and the deletion broadcast; otherwise nothing changes |
| ChatEndpoint.HandleSearch | main.py:346-354 | for a non-blank stripped query, the requester gets at most 50 matching hits, newest first; otherwise nothing is sent |
| ChatEndpoint.HandleStatusChange | main.py:356-366 | the user's status row is updated (default "online" and "") and the change broadcast to everyone, the sender included |
| ChatEndpoint.HandleMessage | main.py:368-415 | the rate check drains the user's bucket; a refusal sends only the wait warning; an empty message without a file is dropped; otherwise the next id is stored once and delivered to the group or to recipient and sender |
| ChatEndpoint.HandleEvent | main.py:259-415 | one frame leaves the database, the outbox's new sends, the result and the user's bucket exactly as `EventEffect` says for its type; every other user's bucket keeps its state and the user's row is kept |
| ChatEndpoint.HandleChat | main.py:368-415 | the `message` branch, as `MessageEffect` says |
| ChatEndpoint.HandleQuery | main.py:263-354 | the `get_history`, `typing`, `stop_typing` and `search` branches, as `EventEffect` says |
| ChatEndpoint.HandleUpdate | main.py:309-344 | the `react`, `edit` and `delete` branches, as `EventEffect` says |
| ChatEndpoint.HandleStatusFrame | main.py:356-366 | the `status_change` branch, as `EventEffect` says |
| ChatEndpoint.EventEffect | main.py:259-415 | the effect of one frame on the tables, the outbox, the result and the user's bucket, branch by branch; its properties are in `EventEffectFrame` and in each handler's contract |
| ChatEndpoint.MessageEffect | main.py:368-415 | the `message` branch: the bucket admits or refuses, a refusal sends only the warning, an empty text without a file is dropped, otherwise the row is stored under the next id and delivered |
| ChatEndpoint.EventEffectFrame | main.py:263-366 | every type but `message` leaves the bucket and the id counter alone and keeps every user row; the four read-only types leave the tables unchanged |
| ChatEndpoint.Loop | main.py:259-261 | the `while True` loop over a list of frames, stopping at the first turn that failed; its properties are in `LoopFailed`, `LoopAppend`, `LoopNext`, `LoopStopsAt` and `LoopFirstFailure` |
| ChatEndpoint.Turn | main.py:259-415 | one loop turn: the frame's effect applied to the state so far, its sends appended |
| ChatEndpoint.RunFrames | main.py:256-261 | the loop from a given database, roster and bucket, with nothing sent yet |
| ChatEndpoint.LoopFailed | main.py:259-261 | once a turn failed, further frames change nothing |
| ChatEndpoint.LoopAppend | main.py:259-261 | running two lists of frames in a row is running their concatenation |
| ChatEndpoint.LoopNext | main.py:259-261 | one frame more takes one more turn, unless the loop had already stopped |
| ChatEndpoint.LoopStopsAt | main.py:259-261 | a loop whose turn on frame i failed ends with that turn |
| ChatEndpoint.RunFramesStops | main.py:259-261 | frames after the failing one are never handled |
| ChatEndpoint.LoopFirstFailure | main.py:259-261 | the loop completes only if every prefix did; otherwise some frame k failed after all frames before it succeeded, and the loop ended there |
| ChatEndpoint.HandleNext | main.py:260-415 | one turn of the receive loop: the state after it is `Turn` of the state before |
| ChatEndpoint.ReceiveNext | main.py:259-415 | turn i of the loop: the state after it is the loop over the first i+1 frames, and a failed turn is where the whole loop ends |
| ChatEndpoint.JoinAndReceive | main.py:256-261 | `connect` then the loop: the roster gains the user, the user's bucket starts empty, and the tables, the sends and the completion flag are those of `RunFrames` after the user-list broadcast |
| ChatEndpoint.StatusKeepsUser | core_logic/database.py:311-320 | a status update neither adds nor removes a user row |
| ChatEndpoint.ReceiveLoop | main.py:259-415 | the loop leaves the tables, the new sends and the user's bucket as `RunFrames` says, and completes exactly when every frame it handled succeeded; the roster is unchanged and the other buckets keep their states |
| ChatEndpoint.CloseSession | main.py:417-422 | either exit removes the user from the roster and the buckets; only the `WebSocketDisconnect` exit broadcasts the new user list |
| ChatEndpoint.AcceptedSession | main.py:256-422 | after a session the user is gone from roster and buckets and other entries are as before; the tables are those of `RunFrames`; the session takes the `WebSocketDisconnect` exit exactly when the loop completed or a failed send raises that exception; the outbox is the join broadcast, the loop's sends and, on that exit only, the closing user list |
| ChatEndpoint.WebsocketEndpoint | main.py:247-422 | an unknown user is refused with nothing changed; a known user's session ends as `AcceptedSession` says |
| Managers.RemoveFirst | core_logic/managers.py:15-17 | `list.remove`: drop the first occurrence; its properties are `RemoveFirstEffect` and `RemoveFirstAfter` |
| Managers.RemoveFirstEffect | core_logic/managers.py:15-17 | `list.remove` drops exactly one occurrence when present and changes nothing otherwise |
| Managers.RemoveFirstAfter | core_logic/managers.py:15-17 | removing an element absent from a prefix leaves the prefix alone |
| Managers.LiveMembers | core_logic/managers.py:19-25 | the kept connections are exactly the original ones whose send did not fail |
| Managers.LogReachesKept | core_logic/managers.py:19-25 | the log line reaches exactly the connections that are kept |
| Managers.KeptStep | core_logic/managers.py:19-25 | one loop turn removes a failed connection at its first occurrence and keeps a working one |
| Managers.LogManager.constructor | core_logic/managers.py:8-9 | no dashboard connections at start |
| Managers.LogManager.Connect | core_logic/managers.py:11-13 | the socket is appended |
| Managers.LogManager.Disconnect | core_logic/managers.py:15-17 | the first occurrence of the socket is removed, if any |
| Managers.LogManager.Notify | core_logic/managers.py:22-25 | a working socket gets the line; a failing one is removed instead |
| Managers.LogManager.BroadcastLog | core_logic/managers.py:19-25 | every connection in the snapshot is sent the line, in order; exactly the failing ones are dropped |
| Managers.KeyOf | core_logic/managers.py:122-127 | the lookup finds a socket registered to the name exactly when the name is online |
| Managers.KeyOfFirst | core_logic/managers.py:122-127 | the lookup returns the first socket (in dict order) registered to the name |
| Managers.DirectMessageTargets | core_logic/managers.py:93-107 | a direct message goes to at most two sockets, each registered to recipient or sender; with both online, the recipient's comes first |
| Managers.SameNameTwice | core_logic/managers.py:39-43 | two sockets may connect under one name, and the online list then shows it twice |
| Managers.ConnectionManager.constructor | core_logic/managers.py:31-33 | no clients and nothing sent at start |
| Managers.ConnectionManager.GetOnlineUsers | core_logic/managers.py:35-37 | the names of the connected sockets in dict order |
| Managers.ConnectionManager.BroadcastUserList | core_logic/managers.py:51-63 | the name list goes to every socket in order; failures are swallowed |
| Managers.ConnectionManager.Connect | core_logic/managers.py:39-43 | the socket is registered under the name, and the new name list is broadcast |
| Managers.ConnectionManager.Disconnect | core_logic/managers.py:45-49 | the socket's name is returned ("Someone" if unknown) and its entry removed, then the name list is broadcast |
| Managers.ConnectionManager.SendPersonalJson | core_logic/managers.py:65-70 | at most one send to that socket; a failure is swallowed |
| Managers.ConnectionManager.BroadcastMessage | core_logic/managers.py:72-107 | a group message goes to every socket; a direct one to the recipient's, then the sender's, socket if online |
| Managers.ConnectionManager.BroadcastSystemMessage | core_logic/managers.py:109-120 | the system notice goes to every socket; failures are swallowed |
| Managers.ConnectionManager.GetWebsocketByUsername | core_logic/managers.py:122-127 | finds a socket for the name exactly when the name is online, and it is the first such socket |
| Tables.ToggleReaction | core_logic/database.py:364-387 | insert the triple, or delete it when the UNIQUE constraint rejects the insert; its properties are `ToggleReactionEffect`, `ToggleTwiceRestores` and `ToggleThriceRecords` |
| Tables.MarkRead | core_logic/database.py:532-545 | insert the receipt unless the UNIQUE constraint rejects it; its properties are `MarkReadIdempotent` and `MarkReadUnique` |
| Tables.Limit | core_logic/database.py:432 | `LIMIT n`, a negative n meaning no limit; its property is part of `NewestRows` |
| Tables.Newest | core_logic/database.py:491-530 | `WHERE keep ORDER BY timestamp DESC LIMIT n`; its property is `NewestRows` |
| Tables.Recent | core_logic/database.py:421-489 | the newest rows listed oldest first; its property is `RecentRows` |
| Tables.IsGroupVisible | core_logic/database.py:430 | the group history's filter: recipient `GROUP` and not deleted |
| Tables.IsBetween | core_logic/database.py:465 | the private history's filter: either direction between the two users, not deleted |
| Tables.MatchesSearch | core_logic/database.py:496-517 | the search filter: the text contains the query, the row is not deleted, and for a non-empty username the user sent or received it |
| Tables.Filter | core_logic/database.py:421-530 | the rows a WHERE clause keeps are exactly the matching ones |
| Tables.InsertByTime | core_logic/database.py:421-530 | inserting one row into an ordered list adds exactly that row |
| Tables.InsertByTimeSorted | core_logic/database.py:421-530 | insertion keeps the list newest first |
| Tables.SortByTime | core_logic/database.py:421-530 | `ORDER BY timestamp DESC` permutes the rows |
| Tables.SortByTimeSorted | core_logic/database.py:421-530 | and puts them newest first |
| Tables.NewestRows | core_logic/database.py:491-530 | `ORDER BY timestamp DESC LIMIT n` returns matching rows only, at most n, newest first, and no row left out is newer than one returned |
| Tables.RecentRows | core_logic/database.py:421-489 | the history reads return the newest matching rows, at most the limit, oldest first |
| Tables.ViewsReversed | core_logic/database.py:421-489 | building the views and reversing them commute |
| Tables.DeletedLeavesHistory | core_logic/database.py:353-362 | after a soft delete, neither history read returns that id, and no row's id changes |
| Tables.WithoutTripleRows | core_logic/database.py:364-387 | removing a reaction keeps exactly the other rows and keeps the triples unique |
| Tables.WithoutTripleTriples | core_logic/database.py:364-387 | removing a reaction removes exactly its triple |
| Tables.ToggleReactionEffect | core_logic/database.py:364-387 | `add_reaction` adds an absent triple and answers true, removes a present one and answers false, and keeps the UNIQUE constraint |
| Tables.ToggleTwiceRestores | core_logic/database.py:364-387 | reacting twice with the same emoji leaves the recorded triples unchanged |
| Tables.ToggleThriceRecords | core_logic/database.py:58-69 | starting with no reaction, toggling three times leaves the triple recorded once |
| Tables.ReactionsOfTriples | core_logic/database.py:389-404 | a message's reaction list holds exactly its recorded (emoji, user) pairs |
| Tables.ReactionsOfSnoc | core_logic/database.py:389-404 | the reaction list of one more row extends the old list by that row when it is for the message |
| Tables.MarkReadIdempotent | core_logic/database.py:532-545 | marking a message read twice is the same as once |
| Tables.MarkReadUnique | core_logic/database.py:532-545 | after marking, the receipt exists and (message, user) pairs stay unique |
| Tables.SearchHitsMatch | core_logic/database.py:491-530 | search returns at most 50 hits, newest first, each containing the query and, for a non-empty username, sent by or to that user |
| Tables.ReversedAt | core_logic/database.py:421-454 | the k-th element of a reversed list is the k-th from the end |
| Tables.ReversedMembers | core_logic/database.py:421-454 | reversal keeps the same elements |
| Tables.SameMembers | core_logic/database.py:421-454 | a permutation keeps the same elements |
| Tables.PrefixIsNewest | core_logic/database.py:421-454 | a prefix of a newest-first list is newest first, and no other row is newer |
| Tables.DeleteById | core_logic/database.py:353-362 | a soft delete keeps every row and changes only the deleted flag, which ends up set exactly on the rows with that id or already deleted |
| Tables.EditById | core_logic/database.py:342-351 | an edit keeps every row; the rows with that id get the new body and the edited flag, and every other field and row stays |
| Tables.Hits | core_logic/database.py:491-530 | the `{id, sender, recipient, message, timestamp}` dict of each row, one per row; the hits' properties are in `SearchHitsMatch` |
| Tables.Views | core_logic/database.py:421-489 | the enhanced dict of each row with its reactions, one per row; the properties are in `ViewsReversed` and `RecentRows` |
| Storage.Database.constructor | core_logic/database.py:21-85 | all four tables start empty and ids start at 1 |
| Storage.Database.UserExists | core_logic/database.py:130-139 | true exactly when a row has that username |
| Storage.Database.CreateUser | core_logic/database.py:91-109 | a new username gets one row with the hash, default avatar and status "online"; a taken one changes nothing and answers false |
| Storage.Database.UpdateUserStatus | core_logic/database.py:311-320 | only that user's row takes the new status and status message |
| Storage.Database.SaveMessageWithId | core_logic/database.py:406-419 | the row is appended under the next id, which is larger than every stored id |
| Storage.Database.UpdateMessage | core_logic/database.py:342-351 | the message with that id gets the new body and the edited flag; every other row stays |
| Storage.Database.DeleteMessage | core_logic/database.py:353-362 | the message with that id is flagged deleted; its row stays |
| Storage.Database.AddReaction | core_logic/database.py:364-387 | the reaction table is toggled for the triple, and the answer says whether it was added |
| Storage.Database.GetMessageReactions | core_logic/database.py:389-404 | returns exactly the message's recorded (emoji, user) pairs |
| Storage.Database.MarkMessageRead | core_logic/database.py:532-545 | a plain INSERT of the receipt whose UNIQUE violation is caught and ignored: a receipt already there is kept, and otherwise one is added |
| Storage.Database.EnhancedOldestFirst | core_logic/database.py:437-454 | the rows reversed to oldest first, each with its reactions |
| Storage.Database.GetGroupMessagesEnhanced | core_logic/database.py:421-454 | at most `limit` non-deleted group messages, the newest ones, oldest first |
| Storage.Database.GetPrivateMessagesEnhanced | core_logic/database.py:456-489 | at most `limit` non-deleted messages between the two users, the newest ones, oldest first |
| Storage.Database.SearchMessages | core_logic/database.py:491-530 | at most 50 hits, newest first, each containing the query and, for a non-empty username, sent by or to that user |
| ChatApi.CheckCredentials | main.py:86-93 | rejects a username whose length is outside 2..20, then a password shorter than 4; passes exactly the rest |
| ChatApi.Register | main.py:86-99 | registers exactly when the credentials pass and the name is free; a taken name gives "already exists"; only the users table changes |
| ChatApi.ClassifyUpload | main.py:189-207 | the `if/elif` chain over content type and extension; its property is `ClassifyMatchesTable` |
| ChatApi.ClassifyMatchesTable | main.py:189-207 | an `image/` content type makes the upload an image whatever its extension; otherwise an upload gets the category whose extension list holds its extension, and `OtherFile` (reported as "file") exactly when none does |
| PyDict.GetFinds | main.py:23 | a dict lookup fails exactly when the key is absent, and otherwise finds a stored pair |
| PyDict.PutGet | main.py:28 | after an assignment the key maps to the new value, and other keys keep theirs |
| PyDict.PutKeys | main.py:28 | assignment keeps an existing key's position and appends a new key |
| PyDict.RemoveGet | main.py:34 | after `del` the key is absent, and other keys keep their values |
| PyDict.RemoveKeys | main.py:34 | `del` only removes keys |
| PyStr.Strip | main.py:380 | `str.strip()` (also at main.py lines 326 and 348): the text without its leading and trailing `str.isspace()` characters; its properties are `StripShape`, `StripEmpty` and `StripIdempotent` |
| PyStr.StripShape | main.py:380 | `strip()` returns the middle slice between leading and trailing whitespace, with no whitespace at either end |
| PyStr.StripEmpty | main.py:386 | the stripped text is empty exactly when the text is all whitespace |
| PyStr.StripIdempotent | main.py:380 | stripping twice is stripping once |
| Net.Deliver | core_logic/managers.py:58-63 | the swallowing send loop: every listed socket is tried in order and failed sends are skipped; its properties are the `Deliver...` lemmas |
| Net.DeliverSends | core_logic/managers.py:58-63 | a swallowing loop sends only the payload, only to listed sockets that work |
| Net.DeliverAppend | core_logic/managers.py:58-63 | a swallowing loop over a concatenation is the two loops in turn |
| Net.DeliverReachesEveryLiveTarget | core_logic/managers.py:58-63 | every working listed socket gets the payload |
| Net.DeliverWithoutFailures | core_logic/managers.py:58-63 | with no failures, every listed socket is sent to, in order |

## Left out

- SQLite itself is left out: connections, cursors, commits and SQL text. Each query is stated by what it returns or changes.
- `_hash_password` is kept symbolic: a password is stored as `Sha256Hex(password)`. SHA-256 itself is not modelled.
- `LIKE '%q%'` is modelled as a case-sensitive substring test. SQLite's LIKE is ASCII case-insensitive and gives `%` and `_` a meaning inside the query.
- SQLite leaves two orders undefined, and the model fixes both to table order: rows with equal timestamps under `ORDER BY timestamp DESC` (`SortByTime`, hence which rows of a tie `LIMIT` keeps), and the rows of `SELECT emoji, username FROM reactions WHERE message_id = ?`, which has no `ORDER BY` (`ReactionsOf`). The contracts of the history and search reads and of the handlers that send them pin that choice. `NewestRows`, `RecentRows`, `SearchHitsMatch` and `ReactionsOfTriples` hold whatever order ties take.
- ISO-8601 timestamp strings are modelled as reals. Their order is the same.
- `datetime.now()` is left out: every clock reading is a parameter. The model does not assume the clock is monotonic, except where a lemma states it as a premise.
- Float arithmetic is modelled as exact `real` arithmetic.
- Concurrency is left out. FastAPI's async tasks, the awaits between sends, and races between sessions are not modelled. A session runs against one manager and one database, one frame at a time.
- `websocket.accept`, JSON parsing and the transport are left out. A frame arrives already decoded into an `Event`.
  - An absent key becomes `None`.
  - No JSON `null` is modelled: each field is either absent (`None`, which takes the source's default) or holds a value of its type. Python's `data.get(k, default)` returns `None` for an explicit `null` without applying the default, and several such frames do not raise. The model does not capture them:
    - `get_history` with `"recipient": null` asks for the private history with `None`, which matches no row, so the user gets an empty history; the model sends the group history.
    - `typing` or `stop_typing` with `"recipient": null` sends to `None`, which is not a roster key, so nothing is sent; the model sends the group notice.
    - `status_change` with `"status": null` or `"status_message": null` stores NULL (the columns allow it) and broadcasts `null`; the model always stores and sends a string.
  - A `null` or wrongly typed field that makes Python raise (a `null` `new_text` or `message`, whose `.strip()` fails) would end the session on the generic exit; that is not modelled either.
  - Neither is a non-dict frame.
- File extensions are an input of `ClassifyUpload`. The model does not compute `Path.suffix` or lower-case it.
- The rest of `main.py` is left out:
  - the HTML pages;
  - upload storage and uuid naming;
  - login and `verify_user`;
  - user info and user lists;
  - the admin statistics;
  - the `__main__` banner.
- `core_logic/database_enhanced.py` is not part of this model.
- These methods of `core_logic/database.py` are left out: the plain `get_group_messages`, `get_private_messages` and `save_message`, and `get_user_info`, `get_all_users` and `verify_user`. The endpoint does not call them.
- `mark_message_read` is modelled but no event calls it. The endpoint also has no event for it.
- The payload fields set to constants (`edited: False`, `reactions: []`) are left out. So is the text of the slow-down warning: the payload carries only its wait in seconds.
- The `print` of the error text on the generic exception path is left out.
- `HandleMessage`: one clock reading `now` stands for both `time.time()` in the bucket and `datetime.now().isoformat()` in the stored row; the source reads the clock twice.
- `message_id` is an `Option<int>`: a truthy `message_id` that is not an integer (a string, say) is not modelled.
- Which exception a send to a closed socket raises depends on Starlette and uvicorn, which are not part of this model; `AcceptedSession` and `WebsocketEndpoint` take it as the input `sendRaisesDisconnect`, and their contracts cover both values.
