/** What the SQL fragments of the history queries mean.

    A table is a list of rows in storage order.  `ORDER BY key DESC LIMIT l OFFSET o` is a
    relation (`Page`): any sorted arrangement of the input may be cut, so rows with equal
    keys may come out in any order.  When keys are unique the relation is the function
    `PageOf`. */
module Sql {
  import opened Keyset
  import opened Wrappers

  datatype Row<T> = Row(key: Key, body: T)

  function Keys<T>(rows: seq<Row<T>>): (keys: seq<Key>)
    ensures |keys| == |rows|
    ensures forall i | 0 <= i < |rows| :: keys[i] == rows[i].key
  {
    seq(|rows|, i requires 0 <= i < |rows| => rows[i].key)
  }

  ghost predicate UniqueKeys<T>(rows: seq<Row<T>>) {
    forall i, j | 0 <= i < j < |rows| :: rows[i].key != rows[j].key
  }

  /** `p` lists exactly the rows of `rows`, newest first. */
  ghost predicate Ordering<T>(p: seq<Row<T>>, rows: seq<Row<T>>) {
    multiset(p) == multiset(rows) && Sorted(Keys(p))
  }

  /** `SELECT ... FROM rows ORDER BY created_at DESC, id DESC LIMIT limit OFFSET offset`. */
  ghost predicate Page<T(!new)>(out: seq<Row<T>>, rows: seq<Row<T>>, offset: nat, limit: nat) {
    exists p :: Ordering(p, rows) && out == Take(Drop(p, offset), limit)
  }

  /** `WHERE f`. */
  function Filter<T>(s: seq<T>, f: T -> bool): seq<T> {
    if s == [] then [] else (if f(s[0]) then [s[0]] else []) + Filter(s[1..], f)
  }

  function And<T>(f: T -> bool, g: T -> bool): T -> bool {
    x => f(x) && g(x)
  }

  function AndNot<T>(f: T -> bool, g: T -> bool): T -> bool {
    x => f(x) && !g(x)
  }

  function InsertRow<T>(r: Row<T>, s: seq<Row<T>>): seq<Row<T>> {
    if s == [] || NotAfter(r.key, s[0].key) then [r] + s else [s[0]] + InsertRow(r, s[1..])
  }

  function SortRows<T>(rows: seq<Row<T>>): seq<Row<T>> {
    if rows == [] then [] else InsertRow(rows[0], SortRows(rows[1..]))
  }

  function PageOf<T>(rows: seq<Row<T>>, offset: nat, limit: nat): seq<Row<T>> {
    Take(Drop(SortRows(rows), offset), limit)
  }

  // ---- Joins ---------------------------------------------------------------------------

  function JoinRow<A, B>(r: Row<A>, matches: seq<B>): seq<Row<(A, Option<B>)>> {
    if matches == [] then [Row(r.key, (r.body, None))]
    else seq(|matches|, i requires 0 <= i < |matches| => Row(r.key, (r.body, Some(matches[i]))))
  }

  /** `rows LEFT JOIN LATERAL (sub) ON true`. */
  function LeftJoin<A, B>(rows: seq<Row<A>>, sub: Row<A> -> seq<B>): seq<Row<(A, Option<B>)>> {
    if rows == [] then [] else JoinRow(rows[0], sub(rows[0])) + LeftJoin(rows[1..], sub)
  }

  /** What one row becomes when the subquery yields at most one match. */
  function Joined<A, B>(r: Row<A>, sub: Row<A> -> seq<B>): Row<(A, Option<B>)> {
    Row(r.key, (r.body, if sub(r) == [] then None else Some(sub(r)[0])))
  }

  /** A lateral subquery with `LIMIT 1` neither adds, drops nor reorders rows. */
  lemma {:induction false} LeftJoinKeepsRows<A(!new), B>(rows: seq<Row<A>>, sub: Row<A> -> seq<B>)
    requires forall r :: |sub(r)| <= 1
    ensures |LeftJoin(rows, sub)| == |rows|
    ensures forall i | 0 <= i < |rows| :: LeftJoin(rows, sub)[i] == Joined(rows[i], sub)
  {
    if rows != [] {
      LeftJoinKeepsRows(rows[1..], sub);
      assert JoinRow(rows[0], sub(rows[0])) == [Joined(rows[0], sub)];
    }
  }

  // ---- Filters -------------------------------------------------------------------------

  lemma {:induction false} FilterMember<T(!new)>(s: seq<T>, f: T -> bool)
    ensures forall x :: x in Filter(s, f) <==> x in s && f(x)
  {
    if s != [] {
      FilterMember(s[1..], f);
      assert s == [s[0]] + s[1..];
    }
  }

  lemma {:induction false} FilterAgree<T>(s: seq<T>, f: T -> bool, g: T -> bool)
    requires forall x | x in s :: f(x) == g(x)
    ensures Filter(s, f) == Filter(s, g)
  {
    if s != [] {
      FilterAgree(s[1..], f, g);
    }
  }

  lemma {:induction false} FilterFilter<T>(s: seq<T>, f: T -> bool, g: T -> bool)
    ensures Filter(Filter(s, f), g) == Filter(s, And(f, g))
  {
    if s != [] {
      FilterFilter(s[1..], f, g);
      var (kept, rest) := (Filter(s, f), Filter(s[1..], f));
      assert And(f, g)(s[0]) == (f(s[0]) && g(s[0]));
      if f(s[0]) {
        assert kept == [s[0]] + rest;
        assert kept[1..] == rest;
      } else {
        assert kept == rest;
      }
    }
  }

  /** A filter is the disjoint union of the rows passing `g` and those failing it. */
  lemma {:induction false} FilterSplit<T>(s: seq<T>, f: T -> bool, g: T -> bool)
    ensures multiset(Filter(s, f)) == multiset(Filter(s, And(f, g))) + multiset(Filter(s, AndNot(f, g)))
  {
    if s != [] {
      FilterSplit(s[1..], f, g);
    }
  }

  lemma {:induction false} FilterUnique<T(!new)>(rows: seq<Row<T>>, f: Row<T> -> bool)
    requires UniqueKeys(rows)
    ensures UniqueKeys(Filter(rows, f))
  {
    if rows != [] {
      FilterUnique(rows[1..], f);
      var t := Filter(rows[1..], f);
      FilterMember(rows[1..], f);
      forall j | 0 <= j < |t|
        ensures t[j].key != rows[0].key
      {
        assert t[j] in rows[1..];
      }
    }
  }

  // ---- Sorting rows --------------------------------------------------------------------

  lemma {:induction false} SortedKeysCons<T>(r: Row<T>, s: seq<Row<T>>)
    requires Sorted(Keys(s)) && forall x | x in s :: NotAfter(r.key, x.key)
    ensures Sorted(Keys([r] + s))
  {
  }

  lemma {:induction false} SortedKeysHead<T>(s: seq<Row<T>>)
    requires Sorted(Keys(s)) && s != []
    ensures Sorted(Keys(s[1..])) && forall x | x in s :: NotAfter(s[0].key, x.key)
  {
  }

  lemma {:induction false} InsertedMembers<T>(r: Row<T>, s: seq<Row<T>>, t: seq<Row<T>>)
    requires multiset(t) == multiset(s) + multiset{r}
    ensures forall x | x in t :: x == r || x in s
  {
    forall x | x in t
      ensures x == r || x in s
    {
      assert x in multiset(t);
    }
  }

  lemma {:induction false} InsertRowCorrect<T>(r: Row<T>, s: seq<Row<T>>)
    requires Sorted(Keys(s))
    ensures Sorted(Keys(InsertRow(r, s)))
    ensures multiset(InsertRow(r, s)) == multiset(s) + multiset{r}
  {
    if s != [] {
      SortedKeysHead(s);
      if NotAfter(r.key, s[0].key) {
        forall x | x in s ensures NotAfter(r.key, x.key) { TransNotAfter(r.key, s[0].key, x.key); }
        SortedKeysCons(r, s);
      } else {
        var t := InsertRow(r, s[1..]);
        InsertRowCorrect(r, s[1..]);
        InsertedMembers(r, s[1..], t);
        assert s == [s[0]] + s[1..];
        SortedKeysCons(s[0], t);
      }
    }
  }

  lemma {:induction false} SortRowsCorrect<T>(rows: seq<Row<T>>)
    ensures Ordering(SortRows(rows), rows)
    ensures |SortRows(rows)| == |rows|
  {
    hide InsertRow;
    if rows != [] {
      SortRowsCorrect(rows[1..]);
      InsertRowCorrect(rows[0], SortRows(rows[1..]));
      assert rows == [rows[0]] + rows[1..];
    }
    assert |multiset(SortRows(rows))| == |multiset(rows)|;
  }

  lemma {:induction false} SameRowsSameKeys<T>(a: seq<Row<T>>, b: seq<Row<T>>)
    requires multiset(a) == multiset(b)
    ensures multiset(Keys(a)) == multiset(Keys(b))
  {
    var key := (r: Row<T>) => r.key;
    MapPermutation(key, a, b);
    assert Keys(a) == Map(key, a) && Keys(b) == Map(key, b);
  }

  /** The keys of any ordered arrangement are the sorted keys. */
  lemma {:induction false} OrderingKeys<T>(p: seq<Row<T>>, rows: seq<Row<T>>)
    requires Ordering(p, rows)
    ensures Keys(p) == Sort(Keys(rows))
  {
    SameRowsSameKeys(p, rows);
    SortCorrect(Keys(rows));
    SortedUnique(Keys(p), Sort(Keys(rows)));
  }

  ghost predicate DrawnFrom<T>(part: seq<Row<T>>, rows: seq<Row<T>>) {
    forall r | r in part :: r in rows
  }

  /** Rows drawn from a table with unique keys are determined by their keys. */
  lemma {:induction false} KeysDetermineRows<T>(a: seq<Row<T>>, b: seq<Row<T>>, table: seq<Row<T>>)
    requires UniqueKeys(table) && DrawnFrom(a, table) && DrawnFrom(b, table)
    requires Keys(a) == Keys(b)
    ensures a == b
  {
    assert |a| == |Keys(a)| == |Keys(b)| == |b|;
    forall i | 0 <= i < |a|
      ensures a[i] == b[i]
    {
      assert a[i] in table && b[i] in table && a[i].key == Keys(a)[i] == Keys(b)[i] == b[i].key;
    }
  }

  lemma {:induction false} OrderingDrawn<T>(p: seq<Row<T>>, rows: seq<Row<T>>)
    requires multiset(p) == multiset(rows)
    ensures DrawnFrom(p, rows)
  {
    forall r | r in p
      ensures r in rows
    {
      assert r in multiset(p);
    }
  }

  /** Over rows of a table with unique keys, a page is a function of its input. */
  lemma {:induction false} PageUnique<T(!new)>(out: seq<Row<T>>, rows: seq<Row<T>>, offset: nat, limit: nat, table: seq<Row<T>>)
    requires UniqueKeys(table) && DrawnFrom(rows, table)
    ensures Page(out, rows, offset, limit) <==> out == PageOf(rows, offset, limit)
  {
    SortRowsCorrect(rows);
    forall p | Ordering(p, rows)
      ensures p == SortRows(rows)
    {
      OrderingKeys(p, rows);
      OrderingKeys(SortRows(rows), rows);
      OrderingDrawn(p, rows);
      OrderingDrawn(SortRows(rows), rows);
      KeysDetermineRows(p, SortRows(rows), table);
    }
  }

  lemma {:induction false} PageOfKeys<T>(rows: seq<Row<T>>, offset: nat, limit: nat)
    ensures Keys(PageOf(rows, offset, limit)) == Take(Drop(Sort(Keys(rows)), offset), limit)
    ensures DrawnFrom(PageOf(rows, offset, limit), rows)
  {
    SortRowsCorrect(rows);
    OrderingKeys(SortRows(rows), rows);
    OrderingDrawn(SortRows(rows), rows);
  }
}
