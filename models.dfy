/**
 * The three tables of the messaging app (Message, Notification,
 * MessageHistory), their column defaults, `Message.__str__` and the
 * newest-first ordering of edit history.
 */
module Models {
  import opened Wrappers
  import Seqs

  /** Auto-increment primary keys start at 1. */
  type Pk = i: int | 1 <= i witness 1

  type UserId = Pk

  datatype User = User(id: UserId, username: string)

  /** A row of the Message table; `parent` is the nullable `parent_message` foreign key. */
  datatype Message = Message(
    id: Pk,
    sender: UserId,
    receiver: UserId,
    parent: Option<Pk>,
    content: string,
    isRead: bool,
    timestamp: int,
    edited: bool)

  /** A row of the Notification table. */
  datatype Notification = Notification(user: UserId, message: Pk, isRead: bool, createdAt: int)

  /** A row of the MessageHistory table; `editedBy` is nullable (SET_NULL when the editor is deleted). */
  datatype HistoryRecord = HistoryRecord(message: Pk, oldContent: string, editedAt: int, editedBy: Option<UserId>)

  /** The whole store: users by id, and the three tables in insertion order. */
  datatype Tables = Tables(
    users: map<UserId, User>,
    messages: seq<Message>,
    notifications: seq<Notification>,
    history: seq<HistoryRecord>)

  /** A message as inserted: `is_read` and `edited` take their defaults, `timestamp` is the insertion time. */
  function NewMessage(id: Pk, sender: UserId, receiver: UserId, parent: Option<Pk>, content: string, now: int): (m: Message)
    ensures !m.isRead && !m.edited
    ensures m.id == id && m.sender == sender && m.receiver == receiver
    ensures m.parent == parent && m.content == content && m.timestamp == now
  {
    Message(id, sender, receiver, parent, content, false, now, false)
  }

  /** A notification as inserted: unread, stamped with the insertion time. */
  function NewNotification(user: UserId, message: Pk, now: int): (n: Notification)
    ensures !n.isRead && n.user == user && n.message == message && n.createdAt == now
  {
    Notification(user, message, false, now)
  }

  // ---------------------------------------------------------------------------
  // Message.__str__

  function DigitChar(d: nat): char
    requires d < 10
  {
    "0123456789"[d]
  }

  function DigitValue(c: char): nat
  {
    if '0' <= c <= '9' then (c as int - '0' as int) as nat else 0
  }

  /** Decimal rendering of a key, as an f-string renders an int. */
  function DecimalString(n: nat): (s: string)
    ensures |s| >= 1
    ensures forall i :: 0 <= i < |s| ==> '0' <= s[i] <= '9'
  {
    if n < 10 then [DigitChar(n)] else DecimalString(n / 10) + [DigitChar(n % 10)]
  }

  function ParseDecimal(s: string): nat
  {
    if |s| == 0 then 0 else 10 * ParseDecimal(s[..|s| - 1]) + DigitValue(s[|s| - 1])
  }

  /** Reading back a rendered key gives the key: the rendering loses nothing. */
  lemma {:induction false} DecimalRoundTrip(n: nat)
    ensures ParseDecimal(DecimalString(n)) == n
  {
    var s := DecimalString(n);
    if n >= 10 {
      DecimalRoundTrip(n / 10);
      assert s[..|s| - 1] == DecimalString(n / 10);
    }
  }

  function ReadStatus(isRead: bool): string
  {
    if isRead then "Read" else "Unread"
  }

  function Header(m: Message, senderName: string, receiverName: string): string
  {
    "From " + senderName + " to " + receiverName + " (" + ReadStatus(m.isRead) + ")"
  }

  /** `Message.__str__`, given the usernames of the sender and the receiver. */
  function Display(m: Message, senderName: string, receiverName: string): (text: string)
    ensures Header(m, senderName, receiverName) <= text
    ensures text == Header(m, senderName, receiverName) <==> m.parent.None?
  {
    match m.parent
    case None => Header(m, senderName, receiverName)
    case Some(p) => Header(m, senderName, receiverName) + " (in reply to " + DecimalString(p) + ")"
  }

  /** Two messages that differ only in their read flag are displayed differently. */
  lemma DisplayShowsReadStatus(m: Message, senderName: string, receiverName: string)
    ensures Display(m.(isRead := true), senderName, receiverName) != Display(m.(isRead := false), senderName, receiverName)
  {
    var k := |"From " + senderName + " to " + receiverName + " ("|;
    var read := Display(m.(isRead := true), senderName, receiverName);
    var unread := Display(m.(isRead := false), senderName, receiverName);
    assert Header(m.(isRead := true), senderName, receiverName)[k] == 'R';
    assert Header(m.(isRead := false), senderName, receiverName)[k] == 'U';
    assert read[k] != unread[k];
  }

  /** The display determines the parent: equal displays (same users, same read flag) mean the same parent. */
  lemma DisplayShowsParent(m1: Message, m2: Message, senderName: string, receiverName: string)
    requires m1.isRead == m2.isRead
    requires Display(m1, senderName, receiverName) == Display(m2, senderName, receiverName)
    ensures m1.parent == m2.parent
  {
    var h := Header(m1, senderName, receiverName);
    assert h == Header(m2, senderName, receiverName);
    if m1.parent.Some? && m2.parent.Some? {
      var d1 := DecimalString(m1.parent.value);
      var d2 := DecimalString(m2.parent.value);
      var t := Display(m1, senderName, receiverName);
      var n := |h + " (in reply to "|;
      assert t == h + " (in reply to " + d1 + ")";
      assert t == h + " (in reply to " + d2 + ")";
      assert |d1| == |d2|;
      assert d1 == t[n..n + |d1|];
      assert d2 == t[n..n + |d2|];
      DecimalRoundTrip(m1.parent.value);
      DecimalRoundTrip(m2.parent.value);
    }
  }

  // ---------------------------------------------------------------------------
  // MessageHistory ordering

  function EditedAt(h: HistoryRecord): int { h.editedAt }

  /** The `message_id = message` filter of the reverse relation `message.history`. */
  function OfMessage(message: Pk): HistoryRecord -> bool
  {
    (h: HistoryRecord) => h.message == message
  }

  /** The edit history of one message as the `-edited_at` ordering returns it. */
  function HistoryOf(history: seq<HistoryRecord>, message: Pk): (r: seq<HistoryRecord>)
    ensures Seqs.NonIncreasing(r, EditedAt)
    ensures multiset(r) == multiset(Seqs.Filter(history, OfMessage(message)))
    ensures forall h :: h in r <==> h in history && h.message == message
  {
    var mine := Seqs.Filter(history, OfMessage(message));
    var r := Seqs.SortDescending(mine, EditedAt);
    Seqs.SameMembers(r, mine);
    r
  }
}
