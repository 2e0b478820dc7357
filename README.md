# Messaging core of a Django coursework repository, in Dafny

This project models and verifies the parts of the repository that carry real decision logic:

- **The messaging app** (`Django-signals_orm-0x04/messaging`):
  - the three tables and their `on_delete` cascades;
  - `Message.__str__` and the newest-first ordering of edit history;
  - the `UnreadMessagesManager` queries and its bulk mark-as-read;
  - the two signal handlers: a notification per created message, and a history row per content change;
  - the logic of three views: the conversation thread assembler (root walk, recursive descendant query, batched user map, reply tree), the mark-read branch of the inbox, and the guard and update rule of `edit_message`.
- **The request gates of the chats middleware** (`Django-Middleware-0x03/chats/middleware.py`):
  - the hour-of-day gate on `/chat/`;
  - the per-client sliding-window limiter on message submissions, with its client-address rule;
  - the role gate on management paths.
- **The REST permission classes** (`messaging_app/chats/permissions.py`).
- **The `user_data` generators** (`python-generators-0x00`): offset/limit paging, and cursor batching with an age filter.

The database is a `Database.Store` object. It holds the user map, the message, notification and history tables as sequences in insertion order, and the auto-increment counter. Message rows carry their primary key; notification and history rows carry no key of their own in the model. The store's invariant (`Valid`) says:

- every foreign key points at a stored row;
- message keys are unique and below the next key;
- the `parent_message` relation is a forest.

Every operation that writes to the store keeps that invariant.

Other modelling choices:

- **Thread query.** The recursive query of `conversation_thread_view` is modelled by its result: the closure of the root under "replies to" (`Replies.Closure`), with rows in table (insertion) order.
- **Generators.** Each generator becomes a method that returns the whole list of values it would yield.
- **Clock, requests and users.** The clock, the request and the logged-in user are parameters. The limiter counts time in whole seconds; the time gate takes the hour of the day.

## Model

| member | source | states |
|---|---|---|
| Models.NewMessage | Django-signals_orm-0x04/messaging/models.py:32-45 | a new message is unread and not edited, stamped with its insertion time; the other columns are as given |
| Models.NewNotification | Django-signals_orm-0x04/messaging/models.py:57-61 | a new notification is unread and stamped with its insertion time |
| Models.Display | Django-signals_orm-0x04/messaging/models.py:50-55 | `__str__` starts with the "From … to … (Read/Unread)" header, and is exactly that header iff the message has no parent |
| Models.DisplayShowsReadStatus | Django-signals_orm-0x04/messaging/models.py:51-52 | the read and unread versions of a message display differently |
| Models.DecimalRoundTrip | Django-signals_orm-0x04/messaging/models.py:54 | the rendered parent key parses back to the key |
| Models.DisplayShowsParent | Django-signals_orm-0x04/messaging/models.py:53-55 | two displays with the same users and read flag are equal only when the parents are equal |
| Models.HistoryOf | Django-signals_orm-0x04/messaging/models.py:66-73 | a message's history is exactly its history rows (as a multiset), newest `edited_at` first |
| Managers.UnreadFor | Django-signals_orm-0x04/messaging/managers.py:15-23 | exactly the user's unread messages (as a multiset), timestamps non-increasing |
| Managers.UnreadCount | Django-signals_orm-0x04/messaging/managers.py:30-33 | the count is 0 iff no message of the table is unread and addressed to the user, and never exceeds the table size |
| Managers.UnreadCountIsListLength | Django-signals_orm-0x04/messaging/managers.py:30-33 | the unread count equals the length of the unread list |
| Managers.MarkedRead | Django-signals_orm-0x04/messaging/managers.py:40-48 | the update sets `is_read` on exactly the user's unread rows (only the listed keys when a non-empty list is given); other rows and other columns stay as they were |
| Managers.UpdateCountIsFlips | Django-signals_orm-0x04/messaging/managers.py:48 | the number of matched rows equals the number of read flags that flipped |
| Managers.MarkAsReadIdempotent | Django-signals_orm-0x04/messaging/managers.py:40-48 | marking twice equals marking once; the second update matches no rows |
| Managers.MarkAllLeavesNothingUnread | Django-signals_orm-0x04/messaging/managers.py:45-48 | without a key list, the user's unread count afterwards is 0 |
| Managers.MarkAsReadForUser | Django-signals_orm-0x04/messaging/managers.py:35-48 | the table becomes `MarkedRead` of the old one; the result is the number of flipped flags; only the message table changes and the store stays valid |
| Replies.Lookup | Django-signals_orm-0x04/messaging/views.py:39 | `get(pk=…)` finds the stored row with that key, or reports that none exists |
| Replies.UniqueRoot | Django-signals_orm-0x04/messaging/views.py:41-42 | a message has at most one thread root above it |
| Replies.Closure | Django-signals_orm-0x04/messaging/views.py:49-58 | the recursive query contains its seeds, only stored keys besides them, and every reply to a member |
| Replies.ClosureSound | Django-signals_orm-0x04/messaging/views.py:55-56 | every member of the closure is a seed or descends from one |
| Replies.ClosureComplete | Django-signals_orm-0x04/messaging/views.py:55-56 | every descendant of a seed is in the closure |
| Replies.ClosureOfOne | Django-signals_orm-0x04/messaging/views.py:49-58 | the closure of one message is that message plus everything that transitively replies to it |
| Replies.AppendKeepsForest | Django-signals_orm-0x04/messaging/models.py:35-41 | inserting a message with a new key and a stored (or no) parent keeps keys unique and replies a forest |
| Cascade.ClearEditor | Django-signals_orm-0x04/messaging/models.py:70 | SET_NULL: history rows edited by the deleted user lose their editor; every other row is kept as is |
| Cascade.DeleteMessage | Django-signals_orm-0x04/messaging/models.py:35-67 | deleting a message keeps the users and removes that message; every surviving row was stored |
| Cascade.DeleteMessageRemovesThread | Django-signals_orm-0x04/messaging/models.py:35-41 | a stored message survives a deletion iff it is neither the deleted message nor a transitive reply to it |
| Cascade.DeleteMessageSurvivors | Django-signals_orm-0x04/messaging/models.py:59-67 | a notification or history row survives a message deletion iff its message survives, and it is kept unchanged |
| Cascade.DeleteMessageKeepsIntact | Django-signals_orm-0x04/messaging/models.py:35-67 | after a message deletion, no surviving row references a deleted message and the store stays intact |
| Cascade.DeleteUserKeepsIntact | Django-signals_orm-0x04/messaging/models.py:33-70 | after a user deletion, no message, notification or history editor refers to that user, and the store stays intact |
| Cascade.DeleteUser | Django-signals_orm-0x04/messaging/models.py:33-70 | deleting a user removes exactly that user; every surviving message was stored and neither comes from nor goes to the user |
| Cascade.GoneWithUser | Django-signals_orm-0x04/messaging/models.py:33-41 | the messages the user cascade deletes are exactly those the user sent or received and their transitive replies |
| Cascade.KeptHistoryExact | Django-signals_orm-0x04/messaging/models.py:67-70 | the history kept after a deletion is exactly the rows of surviving messages, with the deleted editor nulled |
| Cascade.KeptRowCleared | Django-signals_orm-0x04/messaging/models.py:67-70 | every history row left after a deletion is a stored row of a surviving message, editor cleared |
| Cascade.ClearedRowKept | Django-signals_orm-0x04/messaging/models.py:67-70 | every stored history row of a surviving message is kept, editor cleared |
| Cascade.DeleteUserSurvivors | Django-signals_orm-0x04/messaging/models.py:33-70 | a message survives iff it does not involve the user or reply, transitively, to one that does; a notification survives iff it is not the user's and its message survives; a history row survives iff its message survives, with `edited_by` nulled where it named the user |
| Cascade.DeleteUserKeepsEditedHistory | Django-signals_orm-0x04/messaging/models.py:70 | a history row of a surviving message outlives its deleted editor, with `edited_by` null |
| Signals.CreateMessageNotification | Django-signals_orm-0x04/messaging/signals.py:8-17 | post_save appends one unread notification for the receiver when `created`, and nothing otherwise |
| Signals.EditRecordAsWritten | Django-signals_orm-0x04/messaging/signals.py:36-39 | the history row as the code writes it: the stored key, the stored (old) content, the time |
| Signals.EditorLostAsWritten | Django-signals_orm-0x04/messaging/signals.py:36-39 | that row never names the editor the edit view supplied |
| Signals.EditRecord | Django-signals_orm-0x04/messaging/signals.py:36-39 | the intended history row: the as-written row plus the editor |
| Signals.PreSaveIntended | Django-signals_orm-0x04/messaging/signals.py:19-41 | the hook as intended: the same decision and saved instance as `PreSave`, but the logged row names the editor |
| Signals.PreSave | Django-signals_orm-0x04/messaging/signals.py:19-41 | one history row is appended iff the instance has a key, is stored, and its content differs; that row holds the stored key, the old content and the time, and no editor; `edited` only ever becomes true |
| Signals.LogMessageEdit | Django-signals_orm-0x04/messaging/signals.py:19-41 | the pre_save hook leaves the history and the saved instance exactly as `PreSave` says, and keeps the store valid |
| Signals.CreateMessage | Django-signals_orm-0x04/messaging/signals.py:8-17 | `objects.create`: one row with the next key and default flags, plus exactly its notification; the counter advances by one; users and history are unchanged |
| Signals.OneNotificationPerNewMessage | Django-signals_orm-0x04/messaging/signals.py:13-17 | after creation there is exactly one notification about the new message |
| Signals.Updated | Django-signals_orm-0x04/messaging/views.py:124-126 | `save()` on a stored row replaces the row with that key and no other |
| Signals.UpdateRow | Django-signals_orm-0x04/messaging/views.py:124-126 | the UPDATE of a stored row with unchanged links replaces exactly the row with that key and keeps the store valid |
| Signals.SaveMessage | Django-signals_orm-0x04/messaging/signals.py:13-41 | saving a loaded message runs pre_save, then the UPDATE, and adds no notification |
| Views.FindRoot | Django-signals_orm-0x04/messaging/views.py:38-44 | the walk fails iff the key is not stored; otherwise it returns a parentless stored message that the start descends from |
| Views.SameRootFromAnyMember | Django-signals_orm-0x04/messaging/views.py:39-42 | every member of a thread descends from its root and from no other root |
| Views.ThreadRows | Django-signals_orm-0x04/messaging/views.py:49-62 | the fetched rows are stored rows, and include the root whenever it is stored |
| Views.ThreadRowsExact | Django-signals_orm-0x04/messaging/views.py:49-62 | the fetched rows are exactly the stored root and its transitive replies, each once, and their keys are the closure |
| Views.ThreadUserIds | Django-signals_orm-0x04/messaging/views.py:65 | `user_ids` is exactly the senders and receivers of the fetched rows |
| Views.UsersById | Django-signals_orm-0x04/messaging/views.py:66 | `users_by_id` maps exactly the stored users among those ids to themselves |
| Views.BuildNodes | Django-signals_orm-0x04/messaging/views.py:69-76 | one node per fetched key, with the row, its users from the map, and no replies |
| Views.LinkReplies | Django-signals_orm-0x04/messaging/views.py:78-82 | each node's `threaded_replies` are exactly the fetched rows whose parent is that node, in fetched order |
| Views.ConversationThreadView | Django-signals_orm-0x04/messaging/views.py:36-89 | 404 iff the key is unknown; otherwise the root is the start's root; the nodes are its closure; each node carries its stored row and its users; its replies are all stored replies to it |
| Views.ParentInThread | Django-signals_orm-0x04/messaging/views.py:80-82 | the parent of a fetched non-root message is fetched too |
| Views.ThreadTreeShape | Django-signals_orm-0x04/messaging/views.py:78-82 | a non-root message is listed under its parent and under no other node; the root is listed nowhere; no list repeats a message |
| Views.MarkTarget | Django-signals_orm-0x04/messaging/views.py:100 | `get(pk=…, receiver=user)` finds the row only when its receiver is the user |
| Views.InboxView | Django-signals_orm-0x04/messaging/views.py:92-110 | a `mark_read` naming one of the user's messages saves it read and redirects; otherwise nothing changes and the page lists the user's unread messages |
| Views.MarkReadLeavesInbox | Django-signals_orm-0x04/messaging/views.py:97-103 | marking a message read removes exactly that message from the receiver's unread list |
| Views.Strip | Django-signals_orm-0x04/messaging/views.py:121 | `strip()` gives a contiguous piece of the input with only whitespace around it; it is empty iff the input is all whitespace, and otherwise neither starts nor ends with whitespace |
| Views.TrimmedPadded | Django-signals_orm-0x04/messaging/views.py:121 | cutting whitespace off the front and then the back leaves a contiguous piece of the input with only whitespace around it |
| Views.StripIdempotent | Django-signals_orm-0x04/messaging/views.py:121 | stripping twice equals stripping once |
| Views.EditPreSave | Django-signals_orm-0x04/messaging/views.py:124-126 | an edit with new content logs the old content and marks the message edited; the logged row does not name the editing user |
| Views.EditMessage | Django-signals_orm-0x04/messaging/views.py:113-132 | 404 for an unknown key; Forbidden and no change for anyone but the sender; new non-empty stripped content is saved with one history row holding the old content and no editor; otherwise the form is shown and nothing changes |
| Middleware.TimeGate | Django-Middleware-0x03/chats/middleware.py:36-45 | a request passes iff its path is not under `/chat/` or 6 <= hour < 21 |
| Middleware.FirstField | Django-Middleware-0x03/chats/middleware.py:106 | `split(',')[0]` is the longest comma-free prefix |
| Middleware.FirstFieldOfList | Django-Middleware-0x03/chats/middleware.py:106 | the first field of `a,b` is `a` |
| Middleware.ClientIp | Django-Middleware-0x03/chats/middleware.py:104-109 | the first field of a non-empty `X-Forwarded-For` (a comma-free prefix of it), else `REMOTE_ADDR` |
| Middleware.Recent | Django-Middleware-0x03/chats/middleware.py:79 | only timestamps strictly after `now - 60` are kept |
| Middleware.RateLimiter.constructor | Django-Middleware-0x03/chats/middleware.py:53 | the limiter starts with no records |
| Middleware.RateLimiter.Call | Django-Middleware-0x03/chats/middleware.py:71-97 | other requests pass and change nothing; with 5 or more recent timestamps the request is refused (429 for scripts, 403 otherwise) and nothing changes; otherwise it passes and only this client's list becomes its recent part plus `now`; every list holds at most 5 entries and is `Replay` of the client's submissions; after time-ordered submissions, at most 5 accepted ones fall in the last 60 seconds |
| Middleware.TracksStep | Django-Middleware-0x03/chats/middleware.py:76-97 | one call keeps each client's stored list equal to `Replay` of its submissions |
| Middleware.BoundAfter | Django-Middleware-0x03/chats/middleware.py:79-93 | after a time-ordered submission at `now`, at most 5 accepted submissions fall in the window ending at `now` |
| Middleware.ReplayTracksAccepted | Django-Middleware-0x03/chats/middleware.py:76-93 | over any run of submissions in time order, the stored list agrees with the accepted submissions on every later window |
| Middleware.AtMostLimitPerWindow | Django-Middleware-0x03/chats/middleware.py:79-93 | at any submission, at most 5 accepted submissions fall in the last 60 seconds |
| Middleware.RoleGate | Django-Middleware-0x03/chats/middleware.py:132-148 | unprotected paths pass; anonymous users are refused on protected ones |
| Middleware.RoleGateExact | Django-Middleware-0x03/chats/middleware.py:116-145 | a request passes iff its path is under neither `/management/` nor `/dashboard/`, or the user is an admin or a moderator |
| Permissions.IsOwnerOrReadOnly | messaging_app/chats/permissions.py:15-21 | safe methods are always allowed; any other method exactly to the authenticated owner |
| Permissions.IsMessageSender | messaging_app/chats/permissions.py:28-32 | the sender is always allowed, the receiver exactly for safe methods, and nobody else |
| Permissions.OwnerWritesImplyReads | messaging_app/chats/permissions.py:15-21 | safe methods are allowed to all; others only to the owner |
| Permissions.ReceiverReadsOnly | messaging_app/chats/permissions.py:28-32 | a receiver who is not the sender may read but not write |
| Permissions.SenderWritesImplyReads | messaging_app/chats/permissions.py:28-32 | whoever may write a message may read it |
| Permissions.HasPermission | messaging_app/chats/permissions.py:47-66 | anonymous users are denied; on `conversation-messages` with a non-empty key, 404 exactly for an unknown conversation and allowed exactly for its participants; other views are allowed to authenticated users |
| Permissions.HasObjectPermission | messaging_app/chats/permissions.py:68-81 | exactly the authenticated participants of the conversation are allowed, and nobody for other objects |
| Permissions.ListAgreesWithObjects | messaging_app/chats/permissions.py:58-78 | for an existing conversation, the list rule allows exactly the users the message object rule allows |
| Permissions.MessagesNeedConversation | messaging_app/chats/permissions.py:59-61 | a missing or empty `conversation_pk` is denied |
| Permissions.ConversationAndMessagesAdmitSame | messaging_app/chats/permissions.py:68-81 | conversations and messages admit the same participants, only authenticated ones; other objects admit no one |
| Generators.PaginateUsers | python-generators-0x00/2-lazy_paginate.py:5-11 | at most `page_size` rows, the table's rows from `offset` on, empty past the end |
| Generators.PagesAt | python-generators-0x00/2-lazy_paginate.py:18-25 | page k is the page at offset `k * page_size` |
| Generators.PagesFlatten | python-generators-0x00/2-lazy_paginate.py:18-25 | the first n pages put together are the table up to offset `n * page_size` |
| Generators.PagesComplete | python-generators-0x00/2-lazy_paginate.py:19-25 | once a page is empty, the earlier pages are non-empty, all but the last are full, and together they are the table |
| Generators.LazyPagination | python-generators-0x00/2-lazy_paginate.py:13-25 | the pages yielded are the first pages from offset 0; none is empty; all but the last are full; together they are the table (none when `page_size` is 0) |
| Generators.StreamUsersInBatches | python-generators-0x00/1-batch_processing.py:3-11 | non-empty batches of at most `batch_size` rows, all full but the last, that together are the table |
| Generators.BatchProcessing | python-generators-0x00/1-batch_processing.py:13-19 | the rows yielded are exactly the table's rows with age over 25, in table order, each as often as it is stored |

## Left out

- Rendering, HTTP responses, redirects, flash messages, `cache_page`, `login_required` and `logout`. A view returns a `Page` value naming the outcome and what the template would receive.
- `message_detail` and `delete_user_account`. They only render or call `user.delete()`; the cascade that `user.delete()` triggers is modelled by `Cascade.DeleteUser`.
- `RequestLoggingMiddleware`, `cleanup_user_data` and the `Notification`/`MessageHistory` `__str__` methods: they only log or format.
- The raw recursive SQL. The model keeps its result, the descendant closure.
- Row order of queries without ORDER BY. Fetched rows, and hence each `threaded_replies` list, are in table order, which is insertion order. The store's invariant does not state that this is also key order; it is for stores built by `Signals.CreateMessage`, which hands out keys in creation order.
- Cycles in `parent_message`. The root walk has no cycle check, so the model requires the reply relation to be a forest and raises no error for a cycle. The store's invariant keeps that requirement.
- `Views.InboxView`: a non-numeric `mark_read` value (a server error in the code) is not modelled. The parameter is an optional integer; an absent or empty parameter is `None`.
- `Views.EditMessage`: `messageId` is any integer. A key below 1 is treated as unknown, giving the 404 outcome.
- `Views.EditMessage`: follows the code, so its history row has no editor. The intended hook, `Signals.PreSaveIntended`, is stated and proved alongside but is not what the store operations run.
- `Signals.SaveMessage`: requires the saved instance to keep its stored key, parent, sender and receiver. The views only change `content` and `is_read`.
- `Middleware.RateLimiter.Call`: the limiter's dictionary is a class attribute shared by every instance. The model gives it to one object.
- `Middleware.RateLimiter.Call`: `time.time()` is a float; the model uses integer seconds.
- `Middleware.ReplayTracksAccepted`: the window theorem assumes a client's submissions arrive in non-decreasing time order.
- middleware.py uses `time`, `HttpResponseForbidden` and `JsonResponse` without importing them. The model follows the evident decision logic and reduces responses to `Decision`.
- permissions.py calls `get_object_or_404` without importing it. The model gives its evident outcome, `NotFound` for an unknown conversation.
- `Permissions.HasPermission`: conversations are given as a map from the `conversation_pk` URL value to the participant set. Key parsing and the ORM query are not modelled.
- `Generators.StreamUsersInBatches`: requires `batchSize >= 1`. With `fetchmany(0)` the driver falls back to its own batch size, which is not part of this model.
- Database connections, cursors, `print` and the `seed` module. Each table is an in-memory sequence of rows in the order the database returns them.

## Findings

| source | as written | input that shows it | evidently intended | confidence | as-written member | corrected member |
|---|---|---|---|---|---|---|
| Django-signals_orm-0x04/messaging/signals.py:36-39 | `log_message_edit` creates the history row without `edited_by`, although `edit_message` (views.py:124) stores the editor in `message._edited_by` | user 1 edits message 7 from "a" to "b": the row written is `(7, "a", t, edited_by=None)` | the row records the editing user: `(7, "a", t, edited_by=1)` | not executed | Signals.EditorLostAsWritten | Signals.PreSaveIntended |
