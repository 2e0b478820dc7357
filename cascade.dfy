/**
 * Referential integrity of the store and the `on_delete` rules of the
 * models: deleting a message cascades to its replies, notifications and
 * history; deleting a user cascades to the messages they sent or received
 * (and, through those, to replies, notifications and history), to their
 * notifications, and nulls `edited_by` on the history rows they edited.
 */
module Cascade {
  import opened Wrappers
  import opened Models
  import opened Replies
  import Seqs

  /** Every foreign key points at a stored row, keys are unique and replies form a forest. */
  ghost predicate Intact(t: Tables)
  {
    && (forall u :: u in t.users ==> t.users[u].id == u)
    && UniqueIds(t.messages)
    && Forest(t.messages)
    && (forall m :: m in t.messages ==> m.sender in t.users && m.receiver in t.users)
    && (forall n :: n in t.notifications ==> n.user in t.users && n.message in Ids(t.messages))
    && (forall h :: h in t.history ==>
          h.message in Ids(t.messages) && (h.editedBy.Some? ==> h.editedBy.value in t.users))
  }

  function Outside(gone: set<Pk>): Message -> bool
  {
    (m: Message) => m.id !in gone
  }

  /** The messages left after the rows with keys in `gone` are deleted. */
  function Survivors(msgs: seq<Message>, gone: set<Pk>): seq<Message>
  {
    Seqs.Filter(msgs, Outside(gone))
  }

  function NoteKept(gone: set<Pk>, deletedUser: Option<UserId>): Notification -> bool
  {
    (n: Notification) => n.message !in gone && Some(n.user) != deletedUser
  }

  function HistoryKept(gone: set<Pk>): HistoryRecord -> bool
  {
    (h: HistoryRecord) => h.message !in gone
  }

  /** A history row after its editor `u` is deleted. */
  function Cleared(h: HistoryRecord, u: UserId): HistoryRecord
  {
    if h.editedBy == Some(u) then h.(editedBy := None) else h
  }

  /** SET_NULL on `MessageHistory.edited_by` for a deleted user. */
  function ClearEditor(hs: seq<HistoryRecord>, u: UserId): (r: seq<HistoryRecord>)
    ensures |r| == |hs|
    ensures forall i :: 0 <= i < |hs| ==>
              r[i] == if hs[i].editedBy == Some(u) then hs[i].(editedBy := None) else hs[i]
  {
    if |hs| == 0 then [] else [Cleared(hs[0], u)] + ClearEditor(hs[1..], u)
  }

  /** `message.delete()`: the message, its transitive replies, and every row that references one of them. */
  function DeleteMessage(t: Tables, id: Pk): (r: Tables)
    ensures r.users == t.users
    ensures forall m :: m in r.messages ==> m in t.messages && m.id != id
  {
    var gone := Closure(t.messages, {id});
    Tables(
      t.users,
      Survivors(t.messages, gone),
      Seqs.Filter(t.notifications, NoteKept(gone, None)),
      Seqs.Filter(t.history, HistoryKept(gone)))
  }

  function SentOrReceived(msgs: seq<Message>, u: UserId): set<Pk>
  {
    set m | m in msgs && (m.sender == u || m.receiver == u) :: m.id
  }

  /** `user.delete()`: the cascades of `Message.sender`, `Message.receiver`, `Notification.user`, and SET_NULL on history. */
  function DeleteUser(t: Tables, u: UserId): (r: Tables)
    ensures r.users == t.users - {u}
    ensures forall m :: m in r.messages ==> m in t.messages && m.sender != u && m.receiver != u
  {
    var gone := Closure(t.messages, SentOrReceived(t.messages, u));
    Tables(
      t.users - {u},
      Survivors(t.messages, gone),
      Seqs.Filter(t.notifications, NoteKept(gone, Some(u))),
      ClearEditor(Seqs.Filter(t.history, HistoryKept(gone)), u))
  }

  // ---------------------------------------------------------------------------
  // The surviving messages

  lemma {:induction false} SurvivorsUnique(msgs: seq<Message>, gone: set<Pk>)
    requires UniqueIds(msgs)
    ensures UniqueIds(Survivors(msgs, gone))
  {
    if |msgs| > 0 {
      SurvivorsUnique(msgs[1..], gone);
      var rest := Survivors(msgs[1..], gone);
      forall k | k in rest ensures k.id != msgs[0].id {
        var j :| 0 <= j < |msgs[1..]| && msgs[1..][j] == k;
        assert msgs[j + 1] == k;
      }
    }
  }

  lemma {:induction false} SurvivorsLookup(msgs: seq<Message>, gone: set<Pk>, x: Pk)
    requires x !in gone
    ensures Lookup(Survivors(msgs, gone), x) == Lookup(msgs, x)
  {
    if |msgs| > 0 {
      var rest := Survivors(msgs[1..], gone);
      SurvivorsLookup(msgs[1..], gone, x);
      if msgs[0].id !in gone {
        var surv := [msgs[0]] + rest;
        assert Survivors(msgs, gone) == surv;
        assert surv[1..] == rest;
      } else {
        assert Survivors(msgs, gone) == rest;
      }
    }
  }

  lemma {:induction false} SurvivorsRootWithin(msgs: seq<Message>, gone: set<Pk>, x: Pk, n: nat)
    requires forall m :: m in msgs && m.parent.Some? && m.parent.value in gone ==> m.id in gone
    requires x !in gone && RootWithin(msgs, x, n)
    ensures RootWithin(Survivors(msgs, gone), x, n)
    decreases n
  {
    SurvivorsLookup(msgs, gone, x);
    var row := Lookup(msgs, x).value;
    if row.parent.Some? {
      SurvivorsRootWithin(msgs, gone, row.parent.value, n - 1);
    }
  }

  /** Deleting a set closed under "replies to" leaves a forest with unique keys. */
  lemma SurvivorsKeepForest(msgs: seq<Message>, gone: set<Pk>)
    requires UniqueIds(msgs) && Forest(msgs)
    requires forall m :: m in msgs && m.parent.Some? && m.parent.value in gone ==> m.id in gone
    ensures UniqueIds(Survivors(msgs, gone)) && Forest(Survivors(msgs, gone))
    ensures Ids(Survivors(msgs, gone)) == Ids(msgs) - gone
  {
    var surv := Survivors(msgs, gone);
    SurvivorsUnique(msgs, gone);
    forall m | m in surv ensures exists n: nat :: RootWithin(surv, m.id, n) {
      var n: nat :| RootWithin(msgs, m.id, n);
      SurvivorsRootWithin(msgs, gone, m.id, n);
    }
    forall x | x in Ids(msgs) - gone ensures x in Ids(surv) {
      var m :| m in msgs && m.id == x;
      assert m in surv;
    }
  }

  // ---------------------------------------------------------------------------
  // Deleting a message

  /** A stored message survives the deletion of `id` exactly when it is not `id` or a transitive reply to it. */
  lemma DeleteMessageRemovesThread(t: Tables, id: Pk, m: Message)
    requires Intact(t) && m in t.messages
    ensures m in DeleteMessage(t, id).messages <==> !Descends(t.messages, m.id, id)
  {
    assert DeleteMessage(t, id).messages == Survivors(t.messages, Closure(t.messages, {id}));
    ClosureOfOne(t.messages, id, m.id);
  }

  /** After deleting a message no surviving row references a deleted one, and the store stays intact. */
  lemma DeleteMessageKeepsIntact(t: Tables, id: Pk)
    requires Intact(t)
    ensures Intact(DeleteMessage(t, id))
  {
    var gone := Closure(t.messages, {id});
    SurvivorsKeepForest(t.messages, gone);
  }

  /**
   * What survives `message.delete()` besides the messages: exactly the
   * notifications and history rows whose message survives, unchanged.
   */
  lemma DeleteMessageSurvivors(t: Tables, id: Pk)
    requires Intact(t)
    ensures forall n :: n in DeleteMessage(t, id).notifications <==>
              n in t.notifications && n.message in Ids(DeleteMessage(t, id).messages)
    ensures forall h :: h in DeleteMessage(t, id).history <==>
              h in t.history && h.message in Ids(DeleteMessage(t, id).messages)
  {
    SurvivorsKeepForest(t.messages, Closure(t.messages, {id}));
  }

  // ---------------------------------------------------------------------------
  // Deleting a user

  /** The surviving messages neither come from nor go to the deleted user, and refer to users that remain. */
  lemma SurvivorsSparedUser(msgs: seq<Message>, users: map<UserId, User>, u: UserId, gone: set<Pk>)
    requires forall m :: m in msgs ==> m.sender in users && m.receiver in users
    requires SentOrReceived(msgs, u) <= gone
    ensures forall m :: m in Survivors(msgs, gone) ==> m.sender in users - {u} && m.receiver in users - {u}
  {
    forall m | m in Survivors(msgs, gone)
      ensures m.sender in users - {u} && m.receiver in users - {u}
    {
      assert m in msgs && m.id !in gone;
      assert (m.sender == u || m.receiver == u) ==> m.id in SentOrReceived(msgs, u);
    }
  }

  lemma KeptHistoryIntact(t: Tables, u: UserId, gone: set<Pk>)
    requires Intact(t)
    ensures var r := ClearEditor(Seqs.Filter(t.history, HistoryKept(gone)), u);
      forall h :: h in r ==>
        h.message in Ids(t.messages) - gone && h.editedBy != Some(u)
        && (h.editedBy.Some? ==> h.editedBy.value in t.users - {u})
  {
    var kept := Seqs.Filter(t.history, HistoryKept(gone));
    var r := ClearEditor(kept, u);
    forall h | h in r
      ensures h.message in Ids(t.messages) - gone && h.editedBy != Some(u)
      ensures h.editedBy.Some? ==> h.editedBy.value in t.users - {u}
    {
      var i :| 0 <= i < |r| && r[i] == h;
      assert kept[i] in kept;
    }
  }

  /** After deleting a user nothing refers to them, and the store stays intact. */
  lemma DeleteUserKeepsIntact(t: Tables, u: UserId)
    requires Intact(t)
    ensures Intact(DeleteUser(t, u))
    ensures u !in DeleteUser(t, u).users
    ensures forall m :: m in DeleteUser(t, u).messages ==> m.sender != u && m.receiver != u
    ensures forall n :: n in DeleteUser(t, u).notifications ==> n.user != u
    ensures forall h :: h in DeleteUser(t, u).history ==> h.editedBy != Some(u)
  {
    var gone := Closure(t.messages, SentOrReceived(t.messages, u));
    var d := DeleteUser(t, u);
    SurvivorsKeepForest(t.messages, gone);
    SurvivorsSparedUser(t.messages, t.users, u, gone);
    KeptHistoryIntact(t, u, gone);
    KeptNotificationsIntact(t, u, gone);
  }

  lemma KeptNotificationsIntact(t: Tables, u: UserId, gone: set<Pk>)
    requires Intact(t)
    ensures forall n :: n in Seqs.Filter(t.notifications, NoteKept(gone, Some(u))) ==>
      n.user in t.users - {u} && n.message in Ids(t.messages) - gone
  {
  }

  /** `x` is a message `u` sent or received, or a transitive reply to one. */
  ghost predicate InvolvesUser(msgs: seq<Message>, x: Pk, u: UserId)
  {
    exists a :: a in msgs && (a.sender == u || a.receiver == u) && Descends(msgs, x, a.id)
  }

  /** The messages the user cascade deletes are exactly those that involve the user. */
  lemma GoneWithUser(msgs: seq<Message>, u: UserId, x: Pk)
    requires UniqueIds(msgs)
    ensures x in Closure(msgs, SentOrReceived(msgs, u)) <==> InvolvesUser(msgs, x, u)
  {
    var s := SentOrReceived(msgs, u);
    if InvolvesUser(msgs, x, u) {
      var a :| a in msgs && (a.sender == u || a.receiver == u) && Descends(msgs, x, a.id);
      var n: nat :| Up(msgs, x, n) == Some(a.id);
      assert a.id in s;
      ClosureComplete(msgs, s, x, n);
    }
    if x in Closure(msgs, s) {
      ClosureSound(msgs, s, x);
      var n: nat :| Up(msgs, x, n).Some? && Up(msgs, x, n).value in s;
      var a :| a in msgs && (a.sender == u || a.receiver == u) && a.id == Up(msgs, x, n).value;
      assert Descends(msgs, x, a.id);
    }
  }

  /**
   * What survives `user.delete()`: a message exactly when it neither involves
   * the user nor replies, transitively, to a message that does; a
   * notification exactly when it is not the user's and its message survives;
   * a history row exactly when its message survives, with `edited_by` nulled
   * where it named the user.
   */
  lemma DeleteUserSurvivors(t: Tables, u: UserId)
    requires Intact(t)
    ensures forall m :: m in DeleteUser(t, u).messages <==> m in t.messages && !InvolvesUser(t.messages, m.id, u)
    ensures forall n :: n in DeleteUser(t, u).notifications <==>
              n in t.notifications && n.user != u && n.message in Ids(DeleteUser(t, u).messages)
    ensures forall h :: h in DeleteUser(t, u).history <==>
              exists g :: g in t.history && g.message in Ids(DeleteUser(t, u).messages) && h == Cleared(g, u)
  {
    var gone := Closure(t.messages, SentOrReceived(t.messages, u));
    SurvivorsKeepForest(t.messages, gone);
    forall m ensures m in DeleteUser(t, u).messages <==> m in t.messages && !InvolvesUser(t.messages, m.id, u) {
      GoneWithUser(t.messages, u, m.id);
    }
    KeptHistoryExact(t.history, Ids(t.messages), u, gone);
  }

  /** The history rows kept and cleared are exactly the cleared rows whose message is not deleted. */
  lemma KeptHistoryExact(hs: seq<HistoryRecord>, ids: set<Pk>, u: UserId, gone: set<Pk>)
    requires forall h :: h in hs ==> h.message in ids
    ensures forall h :: h in ClearEditor(Seqs.Filter(hs, HistoryKept(gone)), u) <==>
              exists g :: g in hs && g.message in ids - gone && h == Cleared(g, u)
  {
    forall h | h in ClearEditor(Seqs.Filter(hs, HistoryKept(gone)), u)
      ensures exists g :: g in hs && g.message in ids - gone && h == Cleared(g, u)
    {
      KeptRowCleared(hs, u, gone, h);
    }
    forall g | g in hs && g.message in ids - gone
      ensures Cleared(g, u) in ClearEditor(Seqs.Filter(hs, HistoryKept(gone)), u)
    {
      ClearedRowKept(hs, u, gone, g);
    }
  }

  /** A row after the history cascade is a cleared row of a message that was not deleted. */
  lemma KeptRowCleared(hs: seq<HistoryRecord>, u: UserId, gone: set<Pk>, h: HistoryRecord)
    requires h in ClearEditor(Seqs.Filter(hs, HistoryKept(gone)), u)
    ensures exists g :: g in hs && g.message !in gone && h == Cleared(g, u)
  {
    var kept := Seqs.Filter(hs, HistoryKept(gone));
    var i :| 0 <= i < |kept| && ClearEditor(kept, u)[i] == h;
    assert kept[i] in kept && h == Cleared(kept[i], u);
  }

  /** A row of a message that was not deleted is kept, cleared. */
  lemma ClearedRowKept(hs: seq<HistoryRecord>, u: UserId, gone: set<Pk>, g: HistoryRecord)
    requires g in hs && g.message !in gone
    ensures Cleared(g, u) in ClearEditor(Seqs.Filter(hs, HistoryKept(gone)), u)
  {
    var kept := Seqs.Filter(hs, HistoryKept(gone));
    assert g in kept;
    var i :| 0 <= i < |kept| && kept[i] == g;
    assert ClearEditor(kept, u)[i] == Cleared(g, u);
  }

  /** A history row of a surviving message outlives its editor, with `edited_by` set to null. */
  lemma DeleteUserKeepsEditedHistory(t: Tables, u: UserId, h: HistoryRecord)
    requires h in t.history && h.editedBy == Some(u)
    requires h.message !in Closure(t.messages, SentOrReceived(t.messages, u))
    ensures h.(editedBy := None) in DeleteUser(t, u).history
  {
    var gone := Closure(t.messages, SentOrReceived(t.messages, u));
    var kept := Seqs.Filter(t.history, HistoryKept(gone));
    var i :| 0 <= i < |kept| && kept[i] == h;
    assert ClearEditor(kept, u)[i] == h.(editedBy := None);
  }

  // ---------------------------------------------------------------------------
  // Updates that keep every reference

  /** Row by row, the same key, parent, sender and receiver: only plain columns differ. */
  ghost predicate SameReferences(a: seq<Message>, b: seq<Message>)
  {
    && |a| == |b|
    && forall i :: 0 <= i < |a| ==>
         a[i].id == b[i].id && a[i].parent == b[i].parent
         && a[i].sender == b[i].sender && a[i].receiver == b[i].receiver
  }

  /** Updating plain columns of messages keeps the store intact and the set of keys. */
  lemma SameReferencesKeepIntact(t: Tables, msgs: seq<Message>)
    requires Intact(t) && SameReferences(t.messages, msgs)
    ensures Intact(t.(messages := msgs)) && Ids(msgs) == Ids(t.messages)
  {
    assert SameLinks(t.messages, msgs);
    SameLinksKeepForest(t.messages, msgs);
    forall m | m in msgs ensures m.sender in t.users && m.receiver in t.users {
      var i :| 0 <= i < |msgs| && msgs[i] == m;
      assert t.messages[i] in t.messages;
    }
  }

  // ---------------------------------------------------------------------------
  // Inserts that keep every reference

  lemma AppendMessageKeepsIntact(t: Tables, m: Message)
    requires Intact(t)
    requires m.id !in Ids(t.messages) && m.sender in t.users && m.receiver in t.users
    requires m.parent.Some? ==> m.parent.value in Ids(t.messages)
    ensures Intact(t.(messages := t.messages + [m]))
    ensures Ids(t.messages + [m]) == Ids(t.messages) + {m.id}
  {
    AppendKeepsForest(t.messages, m);
  }

  lemma AppendNotificationKeepsIntact(t: Tables, n: Notification)
    requires Intact(t) && n.user in t.users && n.message in Ids(t.messages)
    ensures Intact(t.(notifications := t.notifications + [n]))
  {
  }

  lemma AppendHistoryKeepsIntact(t: Tables, h: HistoryRecord)
    requires Intact(t) && h.message in Ids(t.messages)
    requires h.editedBy.Some? ==> h.editedBy.value in t.users
    ensures Intact(t.(history := t.history + [h]))
  {
  }
}
