/**
 * `UnreadMessagesManager`: the unread inbox of a user (newest first), its
 * count, and the conditional bulk update that marks a user's unread
 * messages as read.
 */
module Managers {
  import opened Wrappers
  import opened Models
  import opened Replies
  import opened Cascade
  import opened Database
  import Seqs

  /** The filter `receiver=user, is_read=False`. */
  function UnreadBy(u: UserId): Message -> bool
  {
    (m: Message) => m.receiver == u && !m.isRead
  }

  function Timestamp(m: Message): int { m.timestamp }

  /** `unread_for_user`: the user's unread messages, `order_by('-timestamp')`. */
  function UnreadFor(msgs: seq<Message>, u: UserId): (r: seq<Message>)
    ensures Seqs.NonIncreasing(r, Timestamp)
    ensures multiset(r) == multiset(Seqs.Filter(msgs, UnreadBy(u)))
    ensures forall m :: m in r <==> m in msgs && m.receiver == u && !m.isRead
  {
    var mine := Seqs.Filter(msgs, UnreadBy(u));
    var r := Seqs.SortDescending(mine, Timestamp);
    Seqs.SameMembers(r, mine);
    r
  }

  /** `unread_count_for_user`: counts the same filter without building the list. */
  function UnreadCount(msgs: seq<Message>, u: UserId): (n: nat)
    ensures n <= |msgs|
    ensures n == 0 <==> forall m :: m in msgs ==> m.receiver != u || m.isRead
  {
    Seqs.CountIsFilterLength(msgs, UnreadBy(u));
    var mine := Seqs.Filter(msgs, UnreadBy(u));
    assert |mine| > 0 ==> mine[0] in mine;
    Seqs.Count(msgs, UnreadBy(u))
  }

  /** The count and the list agree. */
  lemma UnreadCountIsListLength(msgs: seq<Message>, u: UserId)
    ensures UnreadCount(msgs, u) == |UnreadFor(msgs, u)|
  {
    Seqs.CountIsFilterLength(msgs, UnreadBy(u));
  }

  // ---------------------------------------------------------------------------
  // mark_as_read_for_user

  /** The rows the update touches: the user's unread messages, restricted to `ids` when that list is non-empty. */
  predicate Selected(m: Message, u: UserId, ids: Option<seq<Pk>>)
  {
    m.receiver == u && !m.isRead && (ids.None? || |ids.value| == 0 || m.id in ids.value)
  }

  function SelectedBy(u: UserId, ids: Option<seq<Pk>>): Message -> bool
  {
    (m: Message) => Selected(m, u, ids)
  }

  /** The table after `queryset.update(is_read=True)`. */
  function MarkedRead(msgs: seq<Message>, u: UserId, ids: Option<seq<Pk>>): (r: seq<Message>)
    ensures |r| == |msgs|
    ensures forall i :: 0 <= i < |msgs| ==> r[i] == msgs[i].(isRead := r[i].isRead)
    ensures forall i :: 0 <= i < |msgs| ==> (r[i].isRead <==> msgs[i].isRead || Selected(msgs[i], u, ids))
    ensures forall i :: 0 <= i < |msgs| && msgs[i].receiver != u ==> r[i] == msgs[i]
  {
    if |msgs| == 0 then []
    else [if Selected(msgs[0], u, ids) then msgs[0].(isRead := true) else msgs[0]] + MarkedRead(msgs[1..], u, ids)
  }

  /** Number of rows whose read flag differs between two versions of the table. */
  function FlippedCount(before: seq<Message>, after: seq<Message>): nat
    requires |before| == |after|
  {
    if |before| == 0 then 0
    else (if before[0].isRead != after[0].isRead then 1 else 0) + FlippedCount(before[1..], after[1..])
  }

  /** The value `update` returns is the number of messages whose read flag flipped. */
  lemma {:induction false} UpdateCountIsFlips(msgs: seq<Message>, u: UserId, ids: Option<seq<Pk>>)
    ensures Seqs.Count(msgs, SelectedBy(u, ids)) == FlippedCount(msgs, MarkedRead(msgs, u, ids))
  {
    if |msgs| > 0 {
      UpdateCountIsFlips(msgs[1..], u, ids);
      assert MarkedRead(msgs, u, ids)[1..] == MarkedRead(msgs[1..], u, ids);
    }
  }

  /** Marking twice is marking once, and the second update touches nothing. */
  lemma {:induction false} MarkAsReadIdempotent(msgs: seq<Message>, u: UserId, ids: Option<seq<Pk>>)
    ensures MarkedRead(MarkedRead(msgs, u, ids), u, ids) == MarkedRead(msgs, u, ids)
    ensures Seqs.Count(MarkedRead(msgs, u, ids), SelectedBy(u, ids)) == 0
  {
    if |msgs| > 0 {
      MarkAsReadIdempotent(msgs[1..], u, ids);
      var once := MarkedRead(msgs, u, ids);
      assert once[1..] == MarkedRead(msgs[1..], u, ids);
      assert MarkedRead(once, u, ids)[1..] == MarkedRead(once[1..], u, ids);
    }
  }

  /** Without a list of keys every unread message of the user becomes read. */
  lemma {:induction false} MarkAllLeavesNothingUnread(msgs: seq<Message>, u: UserId, ids: Option<seq<Pk>>)
    requires ids.None? || |ids.value| == 0
    ensures UnreadCount(MarkedRead(msgs, u, ids), u) == 0
  {
    if |msgs| > 0 {
      MarkAllLeavesNothingUnread(msgs[1..], u, ids);
      assert MarkedRead(msgs, u, ids)[1..] == MarkedRead(msgs[1..], u, ids);
    }
  }

  /**
   * `mark_as_read_for_user`: one conditional bulk update; returns the number of
   * rows it matched. It runs no save hooks.
   */
  method MarkAsReadForUser(db: Store, u: UserId, ids: Option<seq<Pk>>) returns (count: nat)
    requires db.Valid()
    modifies db`messages
    ensures db.Valid()
    ensures db.messages == MarkedRead(old(db.messages), u, ids)
    ensures count == FlippedCount(old(db.messages), db.messages)
  {
    count := Seqs.Count(db.messages, SelectedBy(u, ids));
    UpdateCountIsFlips(db.messages, u, ids);
    ghost var t := db.Snapshot();
    db.messages := MarkedRead(db.messages, u, ids);
    UpdateKeepsConsistent(t, db.nextPk, db.messages);
    assert db.Snapshot() == t.(messages := db.messages);
  }
}
