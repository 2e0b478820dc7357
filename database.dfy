/**
 * The database behind the ORM: the user table, the three message tables in
 * insertion order, and the auto-increment counter of the Message table.
 * The managers, signal handlers and views update it in place.
 */
module Database {
  import opened Wrappers
  import opened Models
  import opened Replies
  import opened Cascade

  /** The tables are intact and every stored key is below the next key to hand out. */
  ghost predicate Consistent(t: Tables, next: int)
  {
    Intact(t) && forall x :: x in Ids(t.messages) ==> x < next
  }

  /** An INSERT under the next key, referring to stored users and an optional stored parent. */
  lemma InsertKeepsConsistent(t: Tables, next: Pk, m: Message)
    requires Consistent(t, next)
    requires m.id == next && m.sender in t.users && m.receiver in t.users
    requires m.parent.Some? ==> m.parent.value in Ids(t.messages)
    ensures Consistent(t.(messages := t.messages + [m]), next + 1)
    ensures Ids(t.messages + [m]) == Ids(t.messages) + {m.id}
  {
    AppendKeysBelow(t.messages, next, m);
    AppendMessageKeepsIntact(t, m);
  }

  /** Appending the row with key `next` keeps every key below the following one. */
  lemma AppendKeysBelow(msgs: seq<Message>, next: Pk, m: Message)
    requires (forall x :: x in Ids(msgs) ==> x < next) && m.id == next
    ensures m.id !in Ids(msgs)
    ensures forall x :: x in Ids(msgs + [m]) ==> x < next + 1
  {
    forall x | x in Ids(msgs + [m]) ensures x < next + 1 {
      var r :| r in msgs + [m] && r.id == x;
      if r != m {
        assert r in msgs && r.id in Ids(msgs);
      }
    }
  }

  lemma NotifyKeepsConsistent(t: Tables, next: int, n: Notification)
    requires Consistent(t, next) && n.user in t.users && n.message in Ids(t.messages)
    ensures Consistent(t.(notifications := t.notifications + [n]), next)
  {
    AppendNotificationKeepsIntact(t, n);
  }

  lemma LogKeepsConsistent(t: Tables, next: int, h: HistoryRecord)
    requires Consistent(t, next) && h.message in Ids(t.messages)
    requires h.editedBy.Some? ==> h.editedBy.value in t.users
    ensures Consistent(t.(history := t.history + [h]), next)
  {
    AppendHistoryKeepsIntact(t, h);
  }

  lemma UpdateKeepsConsistent(t: Tables, next: int, msgs: seq<Message>)
    requires Consistent(t, next) && SameReferences(t.messages, msgs)
    ensures Consistent(t.(messages := msgs), next) && Ids(msgs) == Ids(t.messages)
  {
    SameReferencesKeepIntact(t, msgs);
  }

  class Store {
    var users: map<UserId, User>
    var messages: seq<Message>
    var notifications: seq<Notification>
    var history: seq<HistoryRecord>
    /** The next key AUTO_INCREMENT hands out; keys are never reused. */
    var nextPk: Pk

    function Snapshot(): Tables
      reads this
    {
      Tables(users, messages, notifications, history)
    }

    ghost predicate Valid()
      reads this
    {
      Consistent(Snapshot(), nextPk)
    }

    constructor (users: map<UserId, User>)
      requires forall u :: u in users ==> users[u].id == u
      ensures Valid()
      ensures Snapshot() == Tables(users, [], [], []) && nextPk == 1
    {
      this.users := users;
      messages := [];
      notifications := [];
      history := [];
      nextPk := 1;
    }
  }
}
