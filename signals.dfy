/**
 * The signal handlers of the messaging app as explicit operations:
 * `create_message_notification` (post_save), `log_message_edit` (pre_save),
 * and the two ways the app saves a message that run them: inserting a new
 * message, and saving a loaded one.
 */
module Signals {
  import opened Wrappers
  import opened Models
  import opened Replies
  import opened Cascade
  import opened Database
  import Seqs

  /** `create_message_notification`: a created message gets one notification for its receiver. */
  method CreateMessageNotification(db: Store, instance: Message, created: bool, now: int)
    requires db.Valid()
    requires created ==> instance.id in Ids(db.messages) && instance.receiver in db.users
    modifies db`notifications
    ensures db.Valid()
    ensures db.notifications ==
      old(db.notifications) + (if created then [NewNotification(instance.receiver, instance.id, now)] else [])
  {
    if created {
      var n := NewNotification(instance.receiver, instance.id, now);
      ghost var t := db.Snapshot();
      NotifyKeepsConsistent(t, db.nextPk, n);
      db.notifications := db.notifications + [n];
      assert db.Snapshot() == t.(notifications := t.notifications + [n]);
    }
  }

  // ---------------------------------------------------------------------------
  // log_message_edit

  /** The history row `log_message_edit` writes as the code stands: it never fills `edited_by`. */
  function EditRecordAsWritten(stored: Message, now: int): (h: HistoryRecord)
    ensures h.message == stored.id && h.oldContent == stored.content && h.editedAt == now
  {
    HistoryRecord(stored.id, stored.content, now, None)
  }

  /** An edit made through the edit view leaves a history row that does not name its editor. */
  lemma EditorLostAsWritten(stored: Message, editor: UserId, now: int)
    ensures EditRecordAsWritten(stored, now).editedBy != Some(editor)
  {
  }

  /** The history row as intended: it also carries the editor the edit view passes in `_edited_by`. */
  function EditRecord(stored: Message, editor: Option<UserId>, now: int): (h: HistoryRecord)
    ensures h.message == stored.id && h.oldContent == stored.content && h.editedAt == now
    ensures h.editedBy == editor
    ensures h == EditRecordAsWritten(stored, now).(editedBy := editor)
  {
    HistoryRecord(stored.id, stored.content, now, editor)
  }

  /**
   * `log_message_edit` on `instance` (`hasPk` is false for an unsaved
   * instance): the history afterwards and the instance as it will be saved.
   * The logged row is the one the hook writes, without an editor.
   */
  function PreSave(history: seq<HistoryRecord>, msgs: seq<Message>, hasPk: bool, instance: Message,
                   now: int): (r: (seq<HistoryRecord>, Message))
    ensures history <= r.0 && |r.0| <= |history| + 1
    ensures |r.0| == |history| + 1 <==>
              hasPk && Lookup(msgs, instance.id).Some? && Lookup(msgs, instance.id).value.content != instance.content
    ensures |r.0| == |history| + 1 ==> r.0[|history|] == EditRecordAsWritten(Lookup(msgs, instance.id).value, now)
    ensures r.1 == instance.(edited := instance.edited || |r.0| > |history|)
  {
    if !hasPk then (history, instance)
    else
      match Lookup(msgs, instance.id)
      case None => (history, instance)
      case Some(stored) =>
        if stored.content != instance.content then (history + [EditRecordAsWritten(stored, now)], instance.(edited := true))
        else (history, instance)
  }

  /**
   * The hook as intended: the same decision and the same saved instance as
   * `PreSave`, but the logged row names the editor passed in `_edited_by`.
   */
  function PreSaveIntended(history: seq<HistoryRecord>, msgs: seq<Message>, hasPk: bool, instance: Message,
                           editor: Option<UserId>, now: int): (r: (seq<HistoryRecord>, Message))
    ensures r.1 == PreSave(history, msgs, hasPk, instance, now).1
    ensures |r.0| == |PreSave(history, msgs, hasPk, instance, now).0| && history <= r.0
    ensures |r.0| == |history| + 1 ==>
              r.0[|history|] == PreSave(history, msgs, hasPk, instance, now).0[|history|].(editedBy := editor)
              && r.0[|history|].editedBy == editor
  {
    var (h, saved) := PreSave(history, msgs, hasPk, instance, now);
    if |h| == |history| then (h, saved)
    else (history + [EditRecord(Lookup(msgs, instance.id).value, editor, now)], saved)
  }

  /** `log_message_edit`: logs the stored content when the content changes and marks the instance edited. */
  method LogMessageEdit(db: Store, instance: Message, hasPk: bool, now: int)
    returns (saved: Message)
    requires db.Valid()
    modifies db`history
    ensures db.Valid()
    ensures (db.history, saved) == PreSave(old(db.history), db.messages, hasPk, instance, now)
  {
    saved := instance;
    if hasPk {
      var found := Lookup(db.messages, instance.id);
      if found.Some? {
        var stored := found.value;
        if stored.content != instance.content {
          var h := EditRecordAsWritten(stored, now);
          ghost var t := db.Snapshot();
          LogKeepsConsistent(t, db.nextPk, h);
          db.history := db.history + [h];
          assert db.Snapshot() == t.(history := t.history + [h]);
          saved := instance.(edited := true);
        }
      }
    }
  }

  // ---------------------------------------------------------------------------
  // Saving

  /** The row with the key of `row` replaced by `row`: the UPDATE that `save()` issues. */
  function Updated(msgs: seq<Message>, row: Message): (r: seq<Message>)
    ensures |r| == |msgs|
    ensures forall i :: 0 <= i < |msgs| ==> r[i] == if msgs[i].id == row.id then row else msgs[i]
  {
    if |msgs| == 0 then [] else [if msgs[0].id == row.id then row else msgs[0]] + Updated(msgs[1..], row)
  }

  /** `row` replaces a stored row with the same key, parent, sender and receiver. */
  predicate KeepsLinks(msgs: seq<Message>, row: Message)
  {
    && Lookup(msgs, row.id).Some?
    && var stored := Lookup(msgs, row.id).value;
       stored.parent == row.parent && stored.sender == row.sender && stored.receiver == row.receiver
  }

  /** Replacing a row by one with the same key and the same links leaves every reference in place. */
  lemma UpdatedKeepsReferences(msgs: seq<Message>, row: Message)
    requires UniqueIds(msgs) && KeepsLinks(msgs, row)
    ensures SameReferences(msgs, Updated(msgs, row))
  {
    var stored := Lookup(msgs, row.id).value;
    var r := Updated(msgs, row);
    forall i | 0 <= i < |msgs| && msgs[i].id == row.id
      ensures msgs[i] == stored
    {
      var j :| 0 <= j < |msgs| && msgs[j] == stored;
      assert i == j;
    }
  }

  lemma UpdatedKeepsConsistent(t: Tables, next: int, row: Message)
    requires Consistent(t, next) && KeepsLinks(t.messages, row)
    ensures Consistent(t.(messages := Updated(t.messages, row)), next)
  {
    UpdatedKeepsReferences(t.messages, row);
    UpdateKeepsConsistent(t, next, Updated(t.messages, row));
  }

  /** A notification about the message with key `id`. */
  function About(id: Pk): Notification -> bool
  {
    (n: Notification) => n.message == id
  }

  /** `Message.objects.create(...)`: pre_save (nothing to log), INSERT with the next key, post_save (created). */
  method CreateMessage(db: Store, sender: UserId, receiver: UserId, parent: Option<Pk>, content: string, now: int)
    returns (m: Message)
    requires db.Valid()
    requires sender in db.users && receiver in db.users
    requires parent.Some? ==> parent.value in Ids(db.messages)
    modifies db
    ensures db.Valid()
    ensures m == NewMessage(old(db.nextPk), sender, receiver, parent, content, now)
    ensures db.messages == old(db.messages) + [m]
    ensures db.notifications == old(db.notifications) + [NewNotification(receiver, m.id, now)]
    ensures db.nextPk == old(db.nextPk) + 1
    ensures unchanged(db`users, db`history)
  {
    var draft := NewMessage(db.nextPk, sender, receiver, parent, content, now);
    m := LogMessageEdit(db, draft, false, now);
    ghost var t, next := db.Snapshot(), db.nextPk;
    db.messages := db.messages + [m];
    db.nextPk := db.nextPk + 1;
    InsertKeepsConsistent(t, next, m);
    assert db.Snapshot() == t.(messages := t.messages + [m]);
    CreateMessageNotification(db, m, true, now);
  }

  /** Creating a message leaves exactly one notification about it, addressed to its receiver. */
  lemma {:induction false} OneNotificationPerNewMessage(t: Tables, m: Message, now: int)
    requires Intact(t) && m.id !in Ids(t.messages)
    ensures Seqs.Count(t.notifications + [NewNotification(m.receiver, m.id, now)], About(m.id)) == 1
  {
    Seqs.CountAppend(t.notifications, [NewNotification(m.receiver, m.id, now)], About(m.id));
    forall i | 0 <= i < |t.notifications| ensures !About(m.id)(t.notifications[i]) {
      assert t.notifications[i] in t.notifications;
    }
    Seqs.CountNone(t.notifications, About(m.id));
  }

  /** The UPDATE `save()` issues for a row that is already stored, with its links unchanged. */
  method UpdateRow(db: Store, row: Message)
    requires db.Valid()
    requires KeepsLinks(db.messages, row)
    modifies db`messages
    ensures db.Valid()
    ensures db.messages == Updated(old(db.messages), row)
  {
    ghost var t := db.Snapshot();
    db.messages := Updated(db.messages, row);
    UpdatedKeepsConsistent(t, db.nextPk, row);
    assert db.Snapshot() == t.(messages := db.messages);
  }

  /**
   * `message.save()` on a message loaded from the table: pre_save (may log
   * an edit), UPDATE of the row, post_save (not created, no notification).
   */
  method SaveMessage(db: Store, instance: Message, now: int)
    requires db.Valid()
    requires KeepsLinks(db.messages, instance)
    modifies db
    ensures db.Valid()
    ensures db.history == PreSave(old(db.history), old(db.messages), true, instance, now).0
    ensures db.messages == Updated(old(db.messages), PreSave(old(db.history), old(db.messages), true, instance, now).1)
    ensures unchanged(db`users, db`notifications, db`nextPk)
  {
    ghost var r := PreSave(db.history, db.messages, true, instance, now);
    var saved := LogMessageEdit(db, instance, true, now);
    assert db.history == r.0 && saved == r.1;
    UpdateRow(db, saved);
    // post_save runs with created == false: CreateMessageNotification adds nothing.
  }
}
