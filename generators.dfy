/**
 * The `user_data` generators: offset/limit paging and cursor batching with
 * an age filter. The table is an in-memory sequence of rows in the order the
 * database returns them; each generator becomes a method that returns the
 * whole list of values it would yield.
 */
module Generators {
  import Seqs

  /** A row of `user_data`; `age` is a DECIMAL(3,0), so `int(age)` is its value. */
  datatype UserRow = UserRow(userId: string, name: string, email: string, age: int)

  function Min(a: int, b: int): int
  {
    if a <= b then a else b
  }

  // ---------------------------------------------------------------------------
  // 2-lazy_paginate.py

  /** `paginate_users`: `SELECT * FROM user_data LIMIT pageSize OFFSET offset`. */
  function PaginateUsers(table: seq<UserRow>, pageSize: nat, offset: nat): (page: seq<UserRow>)
    ensures |page| <= pageSize
    ensures |page| == if offset >= |table| then 0 else Min(pageSize, |table| - offset)
    ensures forall i :: 0 <= i < |page| ==> page[i] == table[offset + i]
  {
    if offset >= |table| then [] else table[offset..Min(offset + pageSize, |table|)]
  }

  /** `k` times `n`, by repeated addition: the offset of page `k`. */
  function Times(k: nat, n: nat): nat
  {
    if k == 0 then 0 else Times(k - 1, n) + n
  }

  lemma {:induction false} TimesIsProduct(k: nat, n: nat)
    ensures Times(k, n) == k * n
  {
    if k > 0 {
      TimesIsProduct(k - 1, n);
    }
  }

  lemma {:induction false} TimesMonotone(j: nat, k: nat, n: nat)
    requires j <= k
    ensures Times(j, n) <= Times(k, n)
  {
    if j < k {
      TimesMonotone(j, k - 1, n);
    }
  }

  /** The first `n` pages `lazy_pagination` asks for, at offsets 0, `pageSize`, 2 * `pageSize`, ... */
  function Pages(table: seq<UserRow>, pageSize: nat, n: nat): (r: seq<seq<UserRow>>)
    ensures |r| == n
  {
    if n == 0 then [] else Pages(table, pageSize, n - 1) + [PaginateUsers(table, pageSize, Times(n - 1, pageSize))]
  }

  /** Page `k` is the page at offset `k * pageSize`. */
  lemma {:induction false} PagesAt(table: seq<UserRow>, pageSize: nat, n: nat, k: nat)
    requires k < n
    ensures Pages(table, pageSize, n)[k] == PaginateUsers(table, pageSize, k * pageSize)
  {
    if k < n - 1 {
      PagesAt(table, pageSize, n - 1, k);
    } else {
      TimesIsProduct(k, pageSize);
    }
  }

  /** The first `n` pages put together are the table up to offset `n * pageSize`. */
  lemma {:induction false} PagesFlatten(table: seq<UserRow>, pageSize: nat, n: nat)
    ensures Seqs.Flatten(Pages(table, pageSize, n)) == table[..Min(Times(n, pageSize), |table|)]
  {
    if n > 0 {
      var page := PaginateUsers(table, pageSize, Times(n - 1, pageSize));
      PagesFlatten(table, pageSize, n - 1);
      Seqs.FlattenSnoc(Pages(table, pageSize, n - 1), page);
      var lo := Min(Times(n - 1, pageSize), |table|);
      assert table[..Min(Times(n, pageSize), |table|)] == table[..lo] + page;
    }
  }

  /**
   * When page `n` is the first empty one, the pages before it are non-empty,
   * all but the last are full, and together they are the whole table.
   */
  lemma PagesComplete(table: seq<UserRow>, pageSize: nat, n: nat)
    requires n > 0 ==> PaginateUsers(table, pageSize, Times(n - 1, pageSize)) != []
    requires PaginateUsers(table, pageSize, Times(n, pageSize)) == []
    ensures forall k :: 0 <= k < n ==> Pages(table, pageSize, n)[k] != []
    ensures forall k :: 0 <= k < n - 1 ==> |Pages(table, pageSize, n)[k]| == pageSize
    ensures pageSize > 0 ==> Seqs.Flatten(Pages(table, pageSize, n)) == table
    ensures pageSize == 0 ==> n == 0
  {
    forall k | 0 <= k < n
      ensures Pages(table, pageSize, n)[k] != []
      ensures k < n - 1 ==> |Pages(table, pageSize, n)[k]| == pageSize
    {
      PageBeforeLast(table, pageSize, n, k);
    }
    PagesFlatten(table, pageSize, n);
  }

  /** A page before a non-empty page `n - 1` is non-empty, and full when it is not page `n - 1` itself. */
  lemma PageBeforeLast(table: seq<UserRow>, pageSize: nat, n: nat, k: nat)
    requires k < n
    requires PaginateUsers(table, pageSize, Times(n - 1, pageSize)) != []
    ensures Pages(table, pageSize, n)[k] != []
    ensures k < n - 1 ==> |Pages(table, pageSize, n)[k]| == pageSize
  {
    PagesAt(table, pageSize, n, k);
    TimesIsProduct(k, pageSize);
    TimesMonotone(k, n - 1, pageSize);
    if k < n - 1 {
      TimesMonotone(k + 1, n - 1, pageSize);
      assert Times(k + 1, pageSize) == Times(k, pageSize) + pageSize;
    }
  }

  /**
   * `lazy_pagination`: pages from offset 0, advancing by `pageSize`, until
   * the first empty page. With a positive page size the pages put together
   * are the whole table; every page but the last is full.
   */
  method LazyPagination(table: seq<UserRow>, pageSize: nat) returns (pages: seq<seq<UserRow>>)
    ensures pages == Pages(table, pageSize, |pages|)
    ensures forall k :: 0 <= k < |pages| ==> pages[k] != []
    ensures forall k :: 0 <= k < |pages| - 1 ==> |pages[k]| == pageSize
    ensures pageSize > 0 ==> Seqs.Flatten(pages) == table
    ensures pageSize == 0 ==> pages == []
  {
    pages := [];
    var offset: nat := 0;
    while true
      invariant offset == Times(|pages|, pageSize)
      invariant pages == Pages(table, pageSize, |pages|)
      invariant |pages| > 0 ==> PaginateUsers(table, pageSize, Times(|pages| - 1, pageSize)) != []
      decreases |table| - Min(offset, |table|)
    {
      var page := PaginateUsers(table, pageSize, offset);
      if page == [] {
        break;
      }
      pages := pages + [page];
      offset := offset + pageSize;
    }
    PagesComplete(table, pageSize, |pages|);
  }

  // ---------------------------------------------------------------------------
  // 1-batch_processing.py

  /**
   * `stream_users_in_batches`: `fetchmany(batchSize)` from a cursor over the
   * whole table until it returns nothing.
   */
  method StreamUsersInBatches(table: seq<UserRow>, batchSize: nat) returns (batches: seq<seq<UserRow>>)
    requires batchSize >= 1
    ensures forall k :: 0 <= k < |batches| ==> 0 < |batches[k]| <= batchSize
    ensures forall k :: 0 <= k < |batches| - 1 ==> |batches[k]| == batchSize
    ensures Seqs.Flatten(batches) == table
  {
    batches := [];
    var position := 0;
    while true
      invariant 0 <= position <= |table|
      invariant Seqs.Flatten(batches) == table[..position]
      invariant forall k :: 0 <= k < |batches| ==> 0 < |batches[k]| <= batchSize
      invariant forall k :: 0 <= k < |batches| - 1 ==> |batches[k]| == batchSize
      invariant |batches| > 0 && |batches[|batches| - 1]| < batchSize ==> position == |table|
      decreases |table| - position
    {
      var batch := table[position..Min(position + batchSize, |table|)];
      if batch == [] {
        break;
      }
      Seqs.FlattenSnoc(batches, batch);
      assert table[..position + |batch|] == table[..position] + batch;
      batches := batches + [batch];
      position := position + |batch|;
    }
    assert table[..position] == table;
  }

  function Over25(u: UserRow): bool
  {
    u.age > 25
  }

  /**
   * `batch_processing`: every streamed row with `int(age) > 25`, in stream
   * order; so exactly the table's rows over 25, each as often as it is stored.
   */
  method BatchProcessing(table: seq<UserRow>, batchSize: nat) returns (yielded: seq<UserRow>)
    requires batchSize >= 1
    ensures yielded == Seqs.Filter(table, Over25)
    ensures forall u :: u in yielded <==> u in table && u.age > 25
  {
    var batches := StreamUsersInBatches(table, batchSize);
    yielded := [];
    for i := 0 to |batches|
      invariant yielded == Seqs.Filter(Seqs.Flatten(batches[..i]), Over25)
    {
      var batch := batches[i];
      ghost var seen := Seqs.Flatten(batches[..i]);
      assert seen + batch[..0] == seen;
      for j := 0 to |batch|
        invariant yielded == Seqs.Filter(seen + batch[..j], Over25)
      {
        FilterOneMore(seen, batch, j);
        if batch[j].age > 25 {
          yielded := yielded + [batch[j]];
        }
      }
      FlattenOneMore(batches, i);
    }
    assert batches[..|batches|] == batches;
  }

  /** The filter over one more row of the current batch. */
  lemma FilterOneMore(seen: seq<UserRow>, batch: seq<UserRow>, j: nat)
    requires j < |batch|
    ensures Seqs.Filter(seen + batch[..j + 1], Over25) ==
            Seqs.Filter(seen + batch[..j], Over25) + (if batch[j].age > 25 then [batch[j]] else [])
  {
    assert seen + batch[..j + 1] == (seen + batch[..j]) + [batch[j]];
    Seqs.FilterSnoc(seen + batch[..j], batch[j], Over25);
  }

  /** The rows of one more batch. */
  lemma FlattenOneMore(batches: seq<seq<UserRow>>, i: nat)
    requires i < |batches|
    ensures Seqs.Flatten(batches[..i + 1]) == Seqs.Flatten(batches[..i]) + batches[i][..|batches[i]|]
  {
    assert batches[..i + 1] == batches[..i] + [batches[i]];
    Seqs.FlattenSnoc(batches[..i], batches[i]);
    assert batches[i][..|batches[i]|] == batches[i];
  }
}
