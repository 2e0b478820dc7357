/**
 * The three views of the messaging app that carry logic of their own:
 * `conversation_thread_view` (root walk, the thread fetched by the recursive
 * query, the batched user map and the reply tree), the mark-read branch of
 * `inbox_view`, and the guard and update rule of `edit_message`. Rendering is
 * replaced by a `Page` value that carries what the template would receive.
 */
module Views {
  import opened Wrappers
  import opened Models
  import opened Replies
  import opened Database
  import opened Managers
  import opened Signals
  import Seqs

  /** A message of the thread with its users attached and its `threaded_replies`. */
  datatype Node = Node(message: Message, sender: Option<User>, receiver: Option<User>, replies: seq<Message>)

  datatype Page =
    | NotFoundPage                               // the 404 template or `get_object_or_404`
    | ForbiddenPage                              // `HttpResponseForbidden`
    | ThreadPage(root: Pk, nodes: map<Pk, Node>) // `messages_by_id` and the key of `root_message`
    | InboxPage(unread: seq<Message>)
    | EditPage(message: Message)
    | RedirectToInbox
    | RedirectToDetail(id: Pk)

  /** A URL or query parameter naming a stored message. */
  predicate HasKey(msgs: seq<Message>, id: int)
  {
    1 <= id && (id as Pk) in Ids(msgs)
  }

  // ---------------------------------------------------------------------------
  // conversation_thread_view: the root walk

  /**
   * `Message.objects.get(pk=start)` and the loop that follows `parent_message`
   * until a message without one. The chain is finite because the replies form
   * a forest; the walk has no cycle check of its own.
   */
  method FindRoot(msgs: seq<Message>, start: Pk) returns (root: Option<Message>)
    requires UniqueIds(msgs) && Forest(msgs)
    ensures root.None? <==> start !in Ids(msgs)
    ensures root.Some? ==> root.value in msgs && root.value.parent.None? && Descends(msgs, start, root.value.id)
  {
    var found := Lookup(msgs, start);
    if found.None? {
      return None;
    }
    var current := found.value;
    ghost var fuel: nat :| RootWithin(msgs, current.id, fuel);
    ghost var hops: nat := 0;
    while current.parent.Some?
      invariant current in msgs
      invariant RootWithin(msgs, current.id, fuel)
      invariant Up(msgs, start, hops) == Some(current.id)
      decreases fuel
    {
      LookupRow(msgs, current);
      UpThenParent(msgs, start, hops, current.parent.value);
      current := Lookup(msgs, current.parent.value).value;
      fuel := fuel - 1;
      hops := hops + 1;
    }
    return Some(current);
  }

  /** Every member of a thread has that thread's root as its only root. */
  lemma SameRootFromAnyMember(msgs: seq<Message>, root: Pk, x: Pk)
    requires UniqueIds(msgs) && IsRoot(msgs, root)
    requires x in Closure(msgs, {root})
    ensures Descends(msgs, x, root)
    ensures forall r :: IsRoot(msgs, r) && Descends(msgs, x, r) ==> r == root
  {
    ClosureOfOne(msgs, root, x);
    forall r | IsRoot(msgs, r) && Descends(msgs, x, r) ensures r == root {
      UniqueRoot(msgs, x, r, root);
    }
  }

  // ---------------------------------------------------------------------------
  // conversation_thread_view: the fetched rows and the user map

  function Inside(c: set<Pk>): Message -> bool
  {
    (m: Message) => m.id in c
  }

  /** The rows the recursive query returns for `root`: the root and all its transitive replies. */
  function ThreadRows(msgs: seq<Message>, root: Pk): (rows: seq<Message>)
    ensures forall m :: m in rows ==> m in msgs
    ensures forall m :: m in msgs && m.id == root ==> m in rows
  {
    Seqs.Filter(msgs, Inside(Closure(msgs, {root})))
  }

  /** The fetched rows are exactly the stored root and its descendants, each stored row once. */
  lemma ThreadRowsExact(msgs: seq<Message>, root: Pk)
    requires UniqueIds(msgs) && root in Ids(msgs)
    ensures Ids(ThreadRows(msgs, root)) == Closure(msgs, {root})
    ensures UniqueIds(ThreadRows(msgs, root))
    ensures forall m :: m in ThreadRows(msgs, root) <==> m in msgs && Descends(msgs, m.id, root)
  {
    var c := Closure(msgs, {root});
    var rows := ThreadRows(msgs, root);
    forall x | x in c ensures x in Ids(rows) {
      var m :| m in msgs && m.id == x;
      assert m in rows;
    }
    FilterKeepsUniqueIds(msgs, Inside(c));
    forall m | m in msgs ensures m.id in c <==> Descends(msgs, m.id, root) {
      ClosureOfOne(msgs, root, m.id);
    }
  }

  /** A filtered table keeps its keys unique. */
  lemma {:induction false} FilterKeepsUniqueIds(msgs: seq<Message>, keep: Message -> bool)
    requires UniqueIds(msgs)
    ensures UniqueIds(Seqs.Filter(msgs, keep))
  {
    if |msgs| > 0 {
      var rest := Seqs.Filter(msgs[1..], keep);
      FilterKeepsUniqueIds(msgs[1..], keep);
      forall m | m in rest ensures m.id != msgs[0].id {
        var j :| 0 <= j < |msgs[1..]| && msgs[1..][j] == m;
        assert msgs[j + 1] == m;
      }
    }
  }

  /** `user_ids`: the senders and the receivers of the fetched rows. */
  function ThreadUserIds(rows: seq<Message>): (ids: set<UserId>)
    ensures forall m :: m in rows ==> m.sender in ids && m.receiver in ids
    ensures forall u :: u in ids ==> exists m :: m in rows && (m.sender == u || m.receiver == u)
  {
    (set m | m in rows :: m.sender) + (set m | m in rows :: m.receiver)
  }

  /** `users_by_id`: the users with those ids, fetched in one query. */
  function UsersById(users: map<UserId, User>, ids: set<UserId>): (byId: map<UserId, User>)
    ensures byId.Keys == ids * users.Keys
    ensures forall u :: u in byId ==> byId[u] == users[u]
  {
    map u | u in ids && u in users :: users[u]
  }

  /** `dict.get`. */
  function Get(byId: map<UserId, User>, u: UserId): Option<User>
  {
    if u in byId then Some(byId[u]) else None
  }

  /** The node the first loop stores for a fetched row: users attached, no replies yet. */
  function Blank(m: Message, byId: map<UserId, User>): Node
  {
    Node(m, Get(byId, m.sender), Get(byId, m.receiver), [])
  }

  function ChildOf(k: Pk): Message -> bool
  {
    (m: Message) => m.parent == Some(k)
  }

  // ---------------------------------------------------------------------------
  // conversation_thread_view: building the tree

  /** The first loop: `messages_by_id[msg.id] = msg` with its users and an empty reply list. */
  method BuildNodes(rows: seq<Message>, byId: map<UserId, User>) returns (nodes: map<Pk, Node>)
    requires UniqueIds(rows)
    ensures nodes.Keys == Ids(rows)
    ensures forall m :: m in rows ==> nodes[m.id] == Blank(m, byId)
  {
    nodes := map[];
    var i := 0;
    while i < |rows|
      invariant 0 <= i <= |rows|
      invariant nodes.Keys == Ids(rows[..i])
      invariant forall j :: 0 <= j < i ==> rows[j].id in nodes && nodes[rows[j].id] == Blank(rows[j], byId)
    {
      assert rows[..i + 1] == rows[..i] + [rows[i]];
      nodes := nodes[rows[i].id := Blank(rows[i], byId)];
      i := i + 1;
    }
    assert rows[..i] == rows;
  }

  /**
   * The second loop: each row whose parent has a node is appended to that
   * node's `threaded_replies`, in the order of the fetched rows.
   */
  method LinkReplies(rows: seq<Message>, nodes: map<Pk, Node>) returns (linked: map<Pk, Node>)
    requires forall k :: k in nodes ==> nodes[k].replies == []
    ensures linked.Keys == nodes.Keys
    ensures forall k :: k in nodes ==> linked[k] == nodes[k].(replies := Seqs.Filter(rows, ChildOf(k)))
  {
    linked := nodes;
    var i := 0;
    while i < |rows|
      invariant 0 <= i <= |rows|
      invariant linked.Keys == nodes.Keys
      invariant forall k :: k in nodes ==> linked[k] == nodes[k].(replies := Seqs.Filter(rows[..i], ChildOf(k)))
    {
      var msg := rows[i];
      if msg.parent.Some? && msg.parent.value in linked {
        var p := msg.parent.value;
        LinkOne(rows, i, nodes, linked, p);
        linked := linked[p := linked[p].(replies := linked[p].replies + [msg])];
      } else {
        LinkNone(rows, i, nodes, linked);
      }
      i := i + 1;
    }
    assert rows[..i] == rows;
  }

  /** A fetched row whose parent has a node goes to the end of that node's replies and nowhere else. */
  lemma LinkOne(rows: seq<Message>, i: nat, nodes: map<Pk, Node>, linked: map<Pk, Node>, p: Pk)
    requires i < |rows| && rows[i].parent == Some(p) && p in linked && linked.Keys == nodes.Keys
    requires forall k :: k in nodes ==> linked[k] == nodes[k].(replies := Seqs.Filter(rows[..i], ChildOf(k)))
    ensures var after := linked[p := linked[p].(replies := linked[p].replies + [rows[i]])];
      forall k :: k in nodes ==> after[k] == nodes[k].(replies := Seqs.Filter(rows[..i + 1], ChildOf(k)))
  {
    forall k | k in nodes
      ensures Seqs.Filter(rows[..i + 1], ChildOf(k)) ==
              Seqs.Filter(rows[..i], ChildOf(k)) + (if k == p then [rows[i]] else [])
    {
      FilterPrefixStep(rows, i, ChildOf(k));
    }
  }

  /** A fetched row without a parent node is listed under no node. */
  lemma LinkNone(rows: seq<Message>, i: nat, nodes: map<Pk, Node>, linked: map<Pk, Node>)
    requires i < |rows| && (rows[i].parent.None? || rows[i].parent.value !in linked) && linked.Keys == nodes.Keys
    requires forall k :: k in nodes ==> linked[k] == nodes[k].(replies := Seqs.Filter(rows[..i], ChildOf(k)))
    ensures forall k :: k in nodes ==> linked[k] == nodes[k].(replies := Seqs.Filter(rows[..i + 1], ChildOf(k)))
  {
    forall k | k in nodes
      ensures Seqs.Filter(rows[..i + 1], ChildOf(k)) == Seqs.Filter(rows[..i], ChildOf(k))
    {
      FilterPrefixStep(rows, i, ChildOf(k));
    }
  }

  /** Filtering one more row of a prefix appends that row when it is kept. */
  lemma FilterPrefixStep(rows: seq<Message>, i: nat, keep: Message -> bool)
    requires i < |rows|
    ensures Seqs.Filter(rows[..i + 1], keep) ==
            Seqs.Filter(rows[..i], keep) + (if keep(rows[i]) then [rows[i]] else [])
  {
    assert rows[..i + 1] == rows[..i] + [rows[i]];
    Seqs.FilterSnoc(rows[..i], rows[i], keep);
  }

  /**
   * `conversation_thread_view`: the 404 page for an unknown key; otherwise the
   * thread of the message's root, one node per fetched row, users from one
   * map, and under each node every stored reply to it in the fetched order.
   */
  method ConversationThreadView(db: Store, messageId: int) returns (page: Page)
    requires db.Valid()
    ensures page.NotFoundPage? || page.ThreadPage?
    ensures page.NotFoundPage? <==> !HasKey(db.messages, messageId)
    ensures page.ThreadPage? ==>
      && HasKey(db.messages, messageId)
      && IsRoot(db.messages, page.root)
      && Descends(db.messages, messageId as Pk, page.root)
      && page.nodes.Keys == Closure(db.messages, {page.root})
      && page.root in page.nodes
      && forall k :: k in page.nodes ==>
           && Lookup(db.messages, k) == Some(page.nodes[k].message)
           && page.nodes[k].sender == Some(db.users[page.nodes[k].message.sender])
           && page.nodes[k].receiver == Some(db.users[page.nodes[k].message.receiver])
           && page.nodes[k].replies == Seqs.Filter(ThreadRows(db.messages, page.root), ChildOf(k))
           && page.nodes[k].replies == Seqs.Filter(db.messages, ChildOf(k))
  {
    if messageId < 1 {
      return NotFoundPage;
    }
    var found := FindRoot(db.messages, messageId as Pk);
    if found.None? {
      return NotFoundPage;
    }
    var root := found.value;
    var msgs := db.messages;
    assert root.id in Ids(msgs);
    var rows := ThreadRows(msgs, root.id);
    ThreadRowsExact(msgs, root.id);
    var userIds := ThreadUserIds(rows);
    var byId := UsersById(db.users, userIds);
    var nodes := BuildNodes(rows, byId);
    var linked := LinkReplies(rows, nodes);
    var c := Closure(msgs, {root.id});
    assert root.id in c;
    forall k | k in linked
      ensures Lookup(msgs, k) == Some(linked[k].message)
      ensures linked[k].sender == Some(db.users[linked[k].message.sender])
      ensures linked[k].receiver == Some(db.users[linked[k].message.receiver])
      ensures linked[k].replies == Seqs.Filter(msgs, ChildOf(k))
    {
      var m :| m in rows && m.id == k;
      assert linked[k].message == m;
      LookupRow(msgs, m);
      Seqs.FilterFilter(msgs, Inside(c), ChildOf(k));
    }
    page := ThreadPage(root.id, linked);
  }

  /** The parent of a fetched reply is fetched too. */
  lemma {:induction false} ParentInThread(msgs: seq<Message>, root: Pk, m: Message)
    requires UniqueIds(msgs) && m in msgs && m.id in Closure(msgs, {root}) && m.id != root
    ensures m.parent.Some? && m.parent.value in Closure(msgs, {root})
  {
    LookupRow(msgs, m);
    ClosureOfOne(msgs, root, m.id);
    var n: nat :| Up(msgs, m.id, n) == Some(root);
    UpFirstHop(msgs, m, n);
    var p := m.parent.value;
    assert Up(msgs, p, n - 1) == Some(root);
    ClosureOfOne(msgs, root, p);
  }

  /**
   * The shape of the tree: every fetched message other than the root is a
   * reply listed under its parent, which is itself fetched, and under no
   * other node; the root is listed under no node; no list repeats a message.
   */
  lemma ThreadTreeShape(msgs: seq<Message>, root: Pk, m: Message)
    requires UniqueIds(msgs) && IsRoot(msgs, root)
    requires m in ThreadRows(msgs, root)
    ensures m.id == root ==> forall k :: m !in Seqs.Filter(ThreadRows(msgs, root), ChildOf(k))
    ensures m.id != root ==>
      && m.parent.Some?
      && m.parent.value in Closure(msgs, {root})
      && forall k :: m in Seqs.Filter(ThreadRows(msgs, root), ChildOf(k)) <==> k == m.parent.value
    ensures forall k :: UniqueIds(Seqs.Filter(ThreadRows(msgs, root), ChildOf(k)))
  {
    var rows := ThreadRows(msgs, root);
    assert m in msgs && m.id in Closure(msgs, {root});
    if m.id == root {
      LookupRow(msgs, m);
    } else {
      ParentInThread(msgs, root, m);
    }
    FilterKeepsUniqueIds(msgs, Inside(Closure(msgs, {root})));
    forall k ensures UniqueIds(Seqs.Filter(rows, ChildOf(k))) {
      FilterKeepsUniqueIds(rows, ChildOf(k));
    }
  }

  // ---------------------------------------------------------------------------
  // inbox_view: the mark-read branch

  /** `Message.objects.get(pk=id, receiver=u)`. */
  function MarkTarget(msgs: seq<Message>, u: UserId, id: int): (r: Option<Message>)
    requires UniqueIds(msgs)
    ensures r.Some? ==> r.value in msgs && r.value.id == id && r.value.receiver == u
    ensures r.None? ==> forall m :: m in msgs && m.id == id ==> m.receiver != u
  {
    if id < 1 then None
    else
      match Lookup(msgs, id as Pk)
      case None => None
      case Some(m) =>
        if m.receiver == u then Some(m)
        else
          assert forall x :: x in msgs && x.id == id ==> x == m by {
            forall x | x in msgs && x.id == id ensures x == m {
              LookupRow(msgs, x);
            }
          }
          None
  }

  /**
   * `inbox_view`: with a `mark_read` parameter naming one of the user's
   * messages, that message is saved as read and the view redirects; in every
   * other case nothing changes and the page lists the user's unread messages.
   * `markRead` is None when the parameter is absent or empty.
   */
  method InboxView(db: Store, u: UserId, markRead: Option<int>, now: int) returns (page: Page)
    requires db.Valid()
    modifies db
    ensures db.Valid()
    ensures markRead.Some? && MarkTarget(old(db.messages), u, markRead.value).Some? ==>
      && page == RedirectToInbox
      && db.messages == Updated(old(db.messages), MarkTarget(old(db.messages), u, markRead.value).value.(isRead := true))
      && unchanged(db`users, db`notifications, db`history, db`nextPk)
    ensures !(markRead.Some? && MarkTarget(old(db.messages), u, markRead.value).Some?) ==>
      && page == InboxPage(UnreadFor(db.messages, u))
      && unchanged(db)
  {
    if markRead.Some? {
      var target := MarkTarget(db.messages, u, markRead.value);
      if target.Some? {
        var m := target.value;
        LookupRow(db.messages, m);
        assert PreSave(db.history, db.messages, true, m.(isRead := true), now) == (db.history, m.(isRead := true));
        SaveMessage(db, m.(isRead := true), now);
        return RedirectToInbox;
      }
    }
    page := InboxPage(UnreadFor(db.messages, u));
  }

  /** Marking one of the user's messages read drops exactly that message from their unread list. */
  lemma MarkReadLeavesInbox(msgs: seq<Message>, u: UserId, m: Message)
    requires UniqueIds(msgs) && m in msgs && m.receiver == u
    ensures forall x :: x in UnreadFor(Updated(msgs, m.(isRead := true)), u) <==>
                        x in UnreadFor(msgs, u) && x.id != m.id
  {
    var after := Updated(msgs, m.(isRead := true));
    forall x ensures x in after && x.receiver == u && !x.isRead <==>
                     x in msgs && x.receiver == u && !x.isRead && x.id != m.id
    {
      if x in after && !x.isRead {
        var i :| 0 <= i < |after| && after[i] == x;
        assert msgs[i].id != m.id;
      }
      if x in msgs && x.id != m.id {
        var i :| 0 <= i < |msgs| && msgs[i] == x;
        assert after[i] == x;
      }
    }
  }

  // ---------------------------------------------------------------------------
  // edit_message

  /** The characters Python's `str.isspace` accepts. */
  predicate IsSpace(c: char)
  {
    || c == ' ' || c == '\t' || c == '\n' || c == '\r'
    || ('\U{000B}' <= c <= '\U{000C}') || ('\U{001C}' <= c <= '\U{001F}')
    || c == '\U{0085}' || c == '\U{00A0}' || c == '\U{1680}'
    || ('\U{2000}' <= c <= '\U{200A}') || c == '\U{2028}' || c == '\U{2029}'
    || c == '\U{202F}' || c == '\U{205F}' || c == '\U{3000}'
  }

  function TrimLeft(s: string): (r: string)
    ensures |r| <= |s| && r == s[|s| - |r|..]
    ensures forall k :: 0 <= k < |s| - |r| ==> IsSpace(s[k])
    ensures |r| > 0 ==> !IsSpace(r[0])
  {
    if |s| > 0 && IsSpace(s[0]) then TrimLeft(s[1..]) else s
  }

  function TrimRight(s: string): (r: string)
    ensures |r| <= |s| && r == s[..|r|]
    ensures forall k :: |r| <= k < |s| ==> IsSpace(s[k])
    ensures |r| > 0 ==> !IsSpace(r[|r| - 1])
  {
    if |s| > 0 && IsSpace(s[|s| - 1]) then TrimRight(s[..|s| - 1]) else s
  }

  /** `s` is `r` at offset `i`, with nothing but whitespace around it. */
  ghost predicate Padded(s: string, r: string, i: int)
  {
    && 0 <= i <= |s| - |r|
    && r == s[i..i + |r|]
    && (forall k :: 0 <= k < i ==> IsSpace(s[k]))
    && (forall k :: i + |r| <= k < |s| ==> IsSpace(s[k]))
  }

  /** `str.strip()`: the text between the leading and the trailing whitespace. */
  function Strip(s: string): (r: string)
    ensures |r| <= |s|
    ensures r == [] <==> forall k :: 0 <= k < |s| ==> IsSpace(s[k])
    ensures |r| > 0 ==> !IsSpace(r[0]) && !IsSpace(r[|r| - 1])
    ensures exists i :: Padded(s, r, i)
  {
    var l := TrimLeft(s);
    var r := TrimRight(l);
    assert |r| > 0 ==> r[0] == l[0];
    assert r == [] ==> |l| == 0;
    TrimmedPadded(s, l, r);
    r
  }

  /** Cutting whitespace off the front of `s` and then off the back leaves the middle piece of `s`. */
  lemma TrimmedPadded(s: string, l: string, r: string)
    requires |l| <= |s| && l == s[|s| - |l|..] && forall k :: 0 <= k < |s| - |l| ==> IsSpace(s[k])
    requires |r| <= |l| && r == l[..|r|] && forall k :: |r| <= k < |l| ==> IsSpace(l[k])
    ensures Padded(s, r, |s| - |l|)
  {
    var i := |s| - |l|;
    assert r == s[i..i + |r|];
    forall k | i + |r| <= k < |s| ensures IsSpace(s[k]) {
      assert s[k] == l[k - i];
    }
  }

  /** Stripping is idempotent: stripped text has no whitespace left to strip. */
  lemma StripIdempotent(s: string)
    ensures Strip(Strip(s)) == Strip(s)
  {
    var r := Strip(s);
    if |r| > 0 {
      assert TrimLeft(r) == r;
      assert TrimRight(r) == r;
    }
  }

  /** `request.POST.get('content', '')`. */
  function PostedContent(posted: Option<string>): string
  {
    if posted.Some? then posted.value else ""
  }

  /**
   * What `log_message_edit` does when the edit view saves new content into a
   * stored message: it logs the old content and marks the message edited, but
   * the editing user set in `_edited_by` is not recorded.
   */
  lemma EditPreSave(history: seq<HistoryRecord>, msgs: seq<Message>, m: Message, content: string, now: int)
    requires Lookup(msgs, m.id) == Some(m) && content != m.content
    ensures PreSave(history, msgs, true, m.(content := content), now) ==
            (history + [EditRecordAsWritten(m, now)], m.(content := content, edited := true))
    ensures PreSave(history, msgs, true, m.(content := content), now).0[|history|].editedBy == None
  {
  }

  /**
   * `edit_message`: a 404 for an unknown key, Forbidden for anyone but the
   * sender; a POST whose stripped content is non-empty and new saves it
   * (logging the old content, without the editor) and redirects; anything else
   * renders the form and changes nothing.
   */
  method EditMessage(db: Store, u: UserId, messageId: int, isPost: bool, posted: Option<string>, now: int)
    returns (page: Page)
    requires db.Valid() && u in db.users
    modifies db
    ensures db.Valid()
    ensures !HasKey(old(db.messages), messageId) ==> page == NotFoundPage && unchanged(db)
    ensures HasKey(old(db.messages), messageId) ==>
      var m := Lookup(old(db.messages), messageId as Pk).value;
      var content := Strip(PostedContent(posted));
      if m.sender != u then page == ForbiddenPage && unchanged(db)
      else if isPost && content != [] && content != m.content then
        && page == RedirectToDetail(m.id)
        && db.messages == Updated(old(db.messages), m.(content := content, edited := true))
        && db.history == old(db.history) + [EditRecordAsWritten(m, now)]
        && unchanged(db`users, db`notifications, db`nextPk)
      else page == EditPage(m) && unchanged(db)
  {
    if messageId < 1 {
      return NotFoundPage;
    }
    var found := Lookup(db.messages, messageId as Pk);
    if found.None? {
      return NotFoundPage;
    }
    var m := found.value;
    if m.sender != u {
      return ForbiddenPage;
    }
    if isPost {
      var content := Strip(PostedContent(posted));
      if content != [] && content != m.content {
        EditPreSave(db.history, db.messages, m, content, now);
        SaveMessage(db, m.(content := content), now);
        return RedirectToDetail(m.id);
      }
    }
    page := EditPage(m);
  }
}
