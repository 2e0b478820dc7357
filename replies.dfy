/**
 * The reply relation of the Message table: `parent_message` links, the chain
 * of ancestors above a message, the forest condition (every chain ends at a
 * thread root) and the closure of a set of messages under "replies to",
 * which is what the recursive query of the thread view and Django's cascade
 * collector compute.
 */
module Replies {
  import opened Wrappers
  import opened Models

  /** Primary keys are unique. */
  ghost predicate UniqueIds(msgs: seq<Message>)
  {
    forall i, j :: 0 <= i < j < |msgs| ==> msgs[i].id != msgs[j].id
  }

  function Ids(msgs: seq<Message>): set<Pk>
  {
    set m | m in msgs :: m.id
  }

  /** `Message.objects.get(pk=id)`: the row with that key, or None for DoesNotExist. */
  function Lookup(msgs: seq<Message>, id: Pk): (r: Option<Message>)
    ensures r.Some? ==> r.value in msgs && r.value.id == id
    ensures r.None? <==> id !in Ids(msgs)
  {
    if |msgs| == 0 then None
    else if msgs[0].id == id then Some(msgs[0])
    else
      assert msgs == [msgs[0]] + msgs[1..];
      Lookup(msgs[1..], id)
  }

  /** With unique keys, looking up a row's key finds that row. */
  lemma {:induction false} LookupRow(msgs: seq<Message>, m: Message)
    requires UniqueIds(msgs)
    requires m in msgs
    ensures Lookup(msgs, m.id) == Some(m)
  {
    if msgs[0] != m {
      assert m in msgs[1..];
      assert msgs[0].id != m.id by {
        var j :| 1 <= j < |msgs| && msgs[j] == m;
      }
      LookupRow(msgs[1..], m);
    }
  }

  function ParentOf(msgs: seq<Message>, x: Pk): Option<Pk>
  {
    match Lookup(msgs, x)
    case None => None
    case Some(m) => m.parent
  }

  /** The ancestor `n` hops above `x`, following `parent_message`. */
  function Up(msgs: seq<Message>, x: Pk, n: nat): Option<Pk>
    decreases n
  {
    if n == 0 then Some(x)
    else
      match ParentOf(msgs, x)
      case None => None
      case Some(p) => Up(msgs, p, n - 1)
  }

  /** `x` is `a` or a transitive reply to `a`. */
  ghost predicate Descends(msgs: seq<Message>, x: Pk, a: Pk)
  {
    exists n: nat :: Up(msgs, x, n) == Some(a)
  }

  /** `x` is a stored message without a parent: a thread root. */
  predicate IsRoot(msgs: seq<Message>, x: Pk)
  {
    Lookup(msgs, x).Some? && Lookup(msgs, x).value.parent.None?
  }

  /** Following parents from `x` reaches a stored root in at most `n` hops. */
  predicate RootWithin(msgs: seq<Message>, x: Pk, n: nat)
    decreases n
  {
    match Lookup(msgs, x)
    case None => false
    case Some(m) => m.parent.None? || (n > 0 && RootWithin(msgs, m.parent.value, n - 1))
  }

  /** The reply relation is a forest: every parent chain is finite and ends at a stored root. */
  ghost predicate Forest(msgs: seq<Message>)
  {
    forall m :: m in msgs ==> exists n: nat :: RootWithin(msgs, m.id, n)
  }

  lemma {:induction false} UpThenUp(msgs: seq<Message>, x: Pk, n1: nat, n2: nat)
    requires Up(msgs, x, n1).Some?
    ensures Up(msgs, x, n1 + n2) == Up(msgs, Up(msgs, x, n1).value, n2)
    decreases n1
  {
    if n1 > 0 {
      UpThenUp(msgs, ParentOf(msgs, x).value, n1 - 1, n2);
    }
  }

  lemma {:induction false} UpThenParent(msgs: seq<Message>, x: Pk, n: nat, p: Pk)
    requires Up(msgs, x, n).Some? && ParentOf(msgs, Up(msgs, x, n).value) == Some(p)
    ensures Up(msgs, x, n + 1) == Some(p)
  {
    UpThenUp(msgs, x, n, 1);
  }

  /** A chain of `n > 0` hops up from a stored message starts with its parent. */
  lemma UpFirstHop(msgs: seq<Message>, m: Message, n: nat)
    requires Lookup(msgs, m.id) == Some(m)
    requires Up(msgs, m.id, n).Some? && Up(msgs, m.id, n) != Some(m.id)
    ensures n > 0 && m.parent.Some? && Up(msgs, m.parent.value, n - 1) == Up(msgs, m.id, n)
  {
  }

  /** A message has at most one thread root above it. */
  lemma UniqueRoot(msgs: seq<Message>, x: Pk, r1: Pk, r2: Pk)
    requires IsRoot(msgs, r1) && IsRoot(msgs, r2)
    requires Descends(msgs, x, r1) && Descends(msgs, x, r2)
    ensures r1 == r2
  {
    var n1: nat :| Up(msgs, x, n1) == Some(r1);
    var n2: nat :| Up(msgs, x, n2) == Some(r2);
    if n1 <= n2 {
      UpThenUp(msgs, x, n1, n2 - n1);
    } else {
      UpThenUp(msgs, x, n2, n1 - n2);
    }
  }

  // ---------------------------------------------------------------------------
  // Closure under "replies to"

  /** Growing `s` inside `s + u` leaves fewer elements of `u` outside it. */
  lemma GrowthShrinksRest<T>(u: set<T>, s: set<T>, next: set<T>)
    requires s <= next <= s + u && next != s
    ensures |u - next| < |u - s|
  {
    if forall y :: y in next ==> y in s {
      assert false;
    }
    var y :| y in next && y !in s;
    var rest := u - s;
    assert rest == (u - next) + (rest - (u - next));
    assert y in rest - (u - next);
  }

  /** One round of the recursive query: add every message whose parent is already in `s`. */
  function Step(msgs: seq<Message>, s: set<Pk>): set<Pk>
  {
    s + set m | m in msgs && m.parent.Some? && m.parent.value in s :: m.id
  }

  /**
   * `s` together with every message that transitively replies to a member of
   * `s`, computed round by round until a round adds nothing.
   */
  function Closure(msgs: seq<Message>, s: set<Pk>): (c: set<Pk>)
    ensures s <= c <= s + Ids(msgs)
    ensures forall m :: m in msgs && m.parent.Some? && m.parent.value in c ==> m.id in c
    decreases |Ids(msgs) - s|
  {
    var next := Step(msgs, s);
    if next == s then s
    else
      GrowthShrinksRest(Ids(msgs), s, next);
      Closure(msgs, next)
  }

  /** Every member of the closure is a seed or descends from one. */
  lemma {:induction false} ClosureSound(msgs: seq<Message>, s: set<Pk>, x: Pk)
    requires UniqueIds(msgs)
    requires x in Closure(msgs, s)
    ensures exists n: nat :: Up(msgs, x, n).Some? && Up(msgs, x, n).value in s
    decreases |Ids(msgs) - s|
  {
    var next := Step(msgs, s);
    if next == s {
      assert Up(msgs, x, 0) == Some(x);
    } else {
      GrowthShrinksRest(Ids(msgs), s, next);
      ClosureSound(msgs, next, x);
      var n: nat :| Up(msgs, x, n).Some? && Up(msgs, x, n).value in next;
      var a := Up(msgs, x, n).value;
      if a !in s {
        var m :| m in msgs && m.parent.Some? && m.parent.value in s && m.id == a;
        LookupRow(msgs, m);
        UpThenParent(msgs, x, n, m.parent.value);
      }
    }
  }

  /** Every descendant of a seed is in the closure. */
  lemma {:induction false} ClosureComplete(msgs: seq<Message>, s: set<Pk>, x: Pk, n: nat)
    requires Up(msgs, x, n).Some? && Up(msgs, x, n).value in s
    ensures x in Closure(msgs, s)
    decreases n
  {
    if n > 0 {
      var p := ParentOf(msgs, x).value;
      ClosureComplete(msgs, s, p, n - 1);
    }
  }

  /** The closure of one message is that message and its transitive replies. */
  lemma ClosureOfOne(msgs: seq<Message>, a: Pk, x: Pk)
    requires UniqueIds(msgs)
    ensures x in Closure(msgs, {a}) <==> Descends(msgs, x, a)
  {
    if Descends(msgs, x, a) {
      var n: nat :| Up(msgs, x, n) == Some(a);
      ClosureComplete(msgs, {a}, x, n);
    }
    if x in Closure(msgs, {a}) {
      ClosureSound(msgs, {a}, x);
      var n: nat :| Up(msgs, x, n).Some? && Up(msgs, x, n).value in {a};
      assert Up(msgs, x, n) == Some(a);
    }
  }

  // ---------------------------------------------------------------------------
  // What preserves the forest

  /** Two tables whose rows carry the same keys and parent links, position by position. */
  ghost predicate SameLinks(a: seq<Message>, b: seq<Message>)
  {
    |a| == |b| && forall i :: 0 <= i < |a| ==> a[i].id == b[i].id && a[i].parent == b[i].parent
  }

  lemma {:induction false} SameLinksLookup(a: seq<Message>, b: seq<Message>, x: Pk)
    requires SameLinks(a, b)
    ensures Lookup(a, x).Some? == Lookup(b, x).Some?
    ensures Lookup(a, x).Some? ==> Lookup(a, x).value.parent == Lookup(b, x).value.parent
  {
    if |a| > 0 && a[0].id != x {
      assert SameLinks(a[1..], b[1..]);
      SameLinksLookup(a[1..], b[1..], x);
    }
  }

  lemma {:induction false} SameLinksRootWithin(a: seq<Message>, b: seq<Message>, x: Pk, n: nat)
    requires SameLinks(a, b)
    ensures RootWithin(a, x, n) == RootWithin(b, x, n)
    decreases n
  {
    SameLinksLookup(a, b, x);
    if n > 0 && Lookup(a, x).Some? && Lookup(a, x).value.parent.Some? {
      SameLinksRootWithin(a, b, Lookup(a, x).value.parent.value, n - 1);
    }
  }

  /** Changing anything but keys and parent links keeps unique keys and the forest. */
  lemma SameLinksKeepForest(a: seq<Message>, b: seq<Message>)
    requires SameLinks(a, b)
    requires UniqueIds(a) && Forest(a)
    ensures UniqueIds(b) && Forest(b) && Ids(b) == Ids(a)
  {
    forall m | m in b ensures exists n: nat :: RootWithin(b, m.id, n) {
      var i :| 0 <= i < |b| && b[i] == m;
      assert a[i] in a;
      var n: nat :| RootWithin(a, a[i].id, n);
      SameLinksRootWithin(a, b, m.id, n);
    }
    forall x | x in Ids(b) ensures x in Ids(a) {
      var i :| 0 <= i < |b| && b[i].id == x;
      assert a[i] in a;
    }
    forall x | x in Ids(a) ensures x in Ids(b) {
      var i :| 0 <= i < |a| && a[i].id == x;
      assert b[i] in b;
    }
  }

  lemma {:induction false} AppendLookup(msgs: seq<Message>, m: Message, x: Pk)
    requires x in Ids(msgs)
    ensures Lookup(msgs + [m], x) == Lookup(msgs, x)
  {
    if msgs[0].id != x {
      assert (msgs + [m])[1..] == msgs[1..] + [m];
      assert x in Ids(msgs[1..]) by {
        var k :| k in msgs && k.id == x;
        assert k != msgs[0];
      }
      AppendLookup(msgs[1..], m, x);
    }
  }

  lemma {:induction false} AppendRootWithin(msgs: seq<Message>, m: Message, x: Pk, n: nat)
    requires RootWithin(msgs, x, n)
    ensures RootWithin(msgs + [m], x, n)
    decreases n
  {
    AppendLookup(msgs, m, x);
    var row := Lookup(msgs, x).value;
    if row.parent.Some? {
      AppendRootWithin(msgs, m, row.parent.value, n - 1);
    }
  }

  /** Appending a fresh message whose parent is stored keeps unique keys and the forest. */
  lemma AppendKeepsForest(msgs: seq<Message>, m: Message)
    requires UniqueIds(msgs) && Forest(msgs)
    requires m.id !in Ids(msgs)
    requires m.parent.Some? ==> m.parent.value in Ids(msgs)
    ensures UniqueIds(msgs + [m]) && Forest(msgs + [m])
    ensures Ids(msgs + [m]) == Ids(msgs) + {m.id}
  {
    var all := msgs + [m];
    forall i, j | 0 <= i < j < |all| ensures all[i].id != all[j].id {
      if j == |msgs| { assert all[i] in msgs; }
    }
    LookupRow(all, m);
    forall k | k in all ensures exists n: nat :: RootWithin(all, k.id, n) {
      if k in msgs {
        var n: nat :| RootWithin(msgs, k.id, n);
        AppendRootWithin(msgs, m, k.id, n);
      } else {
        assert k == m;
        if m.parent.Some? {
          var p :| p in msgs && p.id == m.parent.value;
          var n: nat :| RootWithin(msgs, p.id, n);
          AppendRootWithin(msgs, m, p.id, n);
          assert RootWithin(all, m.id, n + 1);
        } else {
          assert RootWithin(all, m.id, 0);
        }
      }
    }
  }
}
