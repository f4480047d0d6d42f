/** The transaction record and the orderings and selections the store
    queries use. */
module Ledger {
  import opened Timestamps

  /** One row of the `transaction` table. `status` is a free label such as
      `completed`, `pending` or `failed`. */
  datatype Transaction = Transaction(
    id: string,
    amountCents: int,
    merchantName: string,
    merchantImage: string,
    date: Timestamp,
    status: string)

  /** The `transaction` table as one query sees it: its rows, or a failure
      of the connection or of the query. */
  datatype Store = Reachable(rows: seq<Transaction>) | Failing

  /** `ORDER BY date DESC`: dates never increase along the sequence. */
  predicate NewestFirst(s: seq<Transaction>) {
    forall i, j | 0 <= i < j < |s| :: Rank(s[i].date) >= Rank(s[j].date)
  }

  function InsertNewestFirst(t: Transaction, s: seq<Transaction>): (r: seq<Transaction>)
    requires NewestFirst(s)
    ensures NewestFirst(r)
    ensures multiset(r) == multiset(s) + multiset{t}
    ensures |r| == |s| + 1
  {
    if s == [] || Rank(t.date) >= Rank(s[0].date) then
      PrependNewestFirst(t, s);
      [t] + s
    else
      var rest := InsertNewestFirst(t, s[1..]);
      assert s == [s[0]] + s[1..];
      AllAtMost(rest, s[1..], t, Rank(s[0].date));
      PrependNewestFirst(s[0], rest);
      [s[0]] + rest
  }

  /** A row no older than every row of a newest-first sequence may go first. */
  lemma PrependNewestFirst(x: Transaction, s: seq<Transaction>)
    requires NewestFirst(s)
    requires forall i | 0 <= i < |s| :: Rank(s[i].date) <= Rank(x.date)
    ensures NewestFirst([x] + s)
  {
    var r := [x] + s;
    forall i, j | 0 <= i < j < |r|
      ensures Rank(r[i].date) >= Rank(r[j].date)
    {
      assert r[j] == s[j - 1];
      if i > 0 {
        assert r[i] == s[i - 1];
      }
    }
  }

  /** A bound on the dates of `s` and of `t` bounds the dates of any
      rearrangement of `s` with `t` added. */
  lemma AllAtMost(r: seq<Transaction>, s: seq<Transaction>, t: Transaction, bound: int)
    requires multiset(r) == multiset(s) + multiset{t}
    requires forall i | 0 <= i < |s| :: Rank(s[i].date) <= bound
    requires Rank(t.date) <= bound
    ensures forall i | 0 <= i < |r| :: Rank(r[i].date) <= bound
  {
    forall i | 0 <= i < |r|
      ensures Rank(r[i].date) <= bound
    {
      assert r[i] in multiset(r);
      if r[i] != t {
        assert r[i] in multiset(s);
        var j :| 0 <= j < |s| && s[j] == r[i];
      }
    }
  }

  /** A stable sort on `date`, newest first. SQL leaves the order of equal
      dates open; the model keeps store order among them, and no property
      below depends on that choice. */
  function SortNewestFirst(s: seq<Transaction>): (r: seq<Transaction>)
    ensures NewestFirst(r)
    ensures multiset(r) == multiset(s)
    ensures |r| == |s|
  {
    if s == [] then []
    else
      assert s == [s[0]] + s[1..];
      InsertNewestFirst(s[0], SortNewestFirst(s[1..]))
  }

  /** `WHERE date < bound`, keeping store order. */
  function OlderThan(s: seq<Transaction>, bound: Timestamp): (r: seq<Transaction>)
    ensures |r| <= |s|
    ensures multiset(r) <= multiset(s)
    ensures forall x | x in r :: Rank(x.date) < Rank(bound)
    ensures forall x | x in s && Rank(x.date) < Rank(bound) :: x in r
  {
    if s == [] then []
    else
      assert s == [s[0]] + s[1..];
      var rest := OlderThan(s[1..], bound);
      if Rank(s[0].date) < Rank(bound) then [s[0]] + rest else rest
  }

  lemma {:induction false} OlderThanAppend(a: seq<Transaction>, b: seq<Transaction>, bound: Timestamp)
    ensures OlderThan(a + b, bound) == OlderThan(a, bound) + OlderThan(b, bound)
  {
    if a != [] {
      assert (a + b)[1..] == a[1..] + b;
      OlderThanAppend(a[1..], b, bound);
    } else {
      assert a + b == b;
    }
  }

  /** Nothing lies below a bound no row is older than. */
  lemma {:induction false} OlderThanNone(s: seq<Transaction>, bound: Timestamp)
    requires forall i | 0 <= i < |s| :: Rank(s[i].date) >= Rank(bound)
    ensures OlderThan(s, bound) == []
  {
    if s != [] {
      OlderThanNone(s[1..], bound);
    }
  }

  /** Filtering twice keeps the stricter bound. */
  lemma {:induction false} OlderThanTwice(s: seq<Transaction>, outer: Timestamp, inner: Timestamp)
    requires Rank(inner) <= Rank(outer)
    ensures OlderThan(OlderThan(s, outer), inner) == OlderThan(s, inner)
  {
    if s != [] {
      OlderThanTwice(s[1..], outer, inner);
    }
  }

  /** Inserting one row adds one to the count below a bound exactly when the
      row is below it. */
  lemma {:induction false} CountOlderAfterInsert(t: Transaction, s: seq<Transaction>, bound: Timestamp)
    requires NewestFirst(s)
    ensures |OlderThan(InsertNewestFirst(t, s), bound)|
         == |OlderThan(s, bound)| + (if Rank(t.date) < Rank(bound) then 1 else 0)
  {
    var r := InsertNewestFirst(t, s);
    if s == [] || Rank(t.date) >= Rank(s[0].date) {
      assert r[0] == t && r[1..] == s;
    } else {
      CountOlderAfterInsert(t, s[1..], bound);
      assert r[0] == s[0] && r[1..] == InsertNewestFirst(t, s[1..]);
    }
  }

  /** Sorting does not change how many rows lie below a bound. */
  lemma {:induction false} CountOlderAfterSort(s: seq<Transaction>, bound: Timestamp)
    ensures |OlderThan(SortNewestFirst(s), bound)| == |OlderThan(s, bound)|
  {
    if s != [] {
      CountOlderAfterSort(s[1..], bound);
      CountOlderAfterInsert(s[0], SortNewestFirst(s[1..]), bound);
    }
  }

  /** A sequence holds no row twice. */
  predicate Distinct(s: seq<Transaction>) {
    forall i, j | 0 <= i < j < |s| :: s[i] != s[j]
  }

  /** No two rows share an `id`, the table's primary key. */
  predicate UniqueIds(s: seq<Transaction>) {
    forall i, j | 0 <= i < j < |s| :: s[i].id != s[j].id
  }

  /** A sequence drawn from a store with unique ids, taking each stored row
      at most as often as it is stored, has unique ids itself. */
  lemma UniqueIdsOfSubMultiset(sub: seq<Transaction>, store: seq<Transaction>)
    requires UniqueIds(store)
    requires multiset(sub) <= multiset(store)
    ensures UniqueIds(sub)
  {
    forall i, j | 0 <= i < j < |sub|
      ensures sub[i].id != sub[j].id
    {
      if sub[i].id == sub[j].id {
        assert sub[i] in multiset(store) && sub[j] in multiset(store);
        var a :| 0 <= a < |store| && store[a] == sub[i];
        var b :| 0 <= b < |store| && store[b] == sub[j];
        assert a == b;
        assert sub[i] == sub[j];
        StoredOnce(store, a);
        TwiceInSequence(sub, i, j);
        assert false;
      }
    }
  }

  lemma StoredOnce(store: seq<Transaction>, a: int)
    requires UniqueIds(store)
    requires 0 <= a < |store|
    ensures multiset(store)[store[a]] == 1
  {
    var x := store[a];
    assert store == store[..a] + [x] + store[a + 1..];
    assert x !in store[..a] && x !in store[a + 1..];
  }

  lemma TwiceInSequence(s: seq<Transaction>, i: int, j: int)
    requires 0 <= i < j < |s| && s[i] == s[j]
    ensures multiset(s)[s[i]] >= 2
  {
    var x := s[i];
    assert s == s[..i] + [x] + s[i + 1..j] + [x] + s[j + 1..];
  }
}
