/** Following `next_cursor` from the first page to the last.

    A client asks for a first page and then repeats the request with the cursor it was given.
    The cursor keeps only whole milliseconds, so a row may fall between two pages.  The walk is
    always finite, strictly newest first and free of repetitions; `WalkCompleteIff` says
    exactly when no row is lost. */
module CursorWalk {
  import opened Account
  import opened Cursor
  import opened Keyset
  import opened Sql
  import opened Wrappers

  /** A server answers a cursor with a page; `None` asks for the first one. */
  type Server<T> = Option<string> -> Response<T>

  function ServerFor<T>(rows: seq<Row<T>>, q: Query): Server<T> {
    cursor => Serve(rows, q.(cursor := cursor))
  }

  /** `pages` is what a client sees that starts at `cursor` and follows every next cursor. */
  ghost predicate IsWalk<T>(server: Server<T>, cursor: Option<string>, pages: seq<seq<Row<T>>>)
    decreases |pages|
  {
    pages != [] &&
    match server(cursor)
    case Listing(page, _, next) => page == pages[0] && if next.None? then |pages| == 1 else IsWalk(server, next, pages[1..])
    case _ => false
  }

  function Flatten<T>(pages: seq<seq<T>>): seq<T> {
    if pages == [] then [] else pages[0] + Flatten(pages[1..])
  }

  /** The rows strictly past a key in a sorted list. */
  function SkipTo<T>(s: seq<Row<T>>, k: Key): (rest: seq<Row<T>>)
    ensures |rest| <= |s|
  {
    if s == [] || Before(k, s[0].key) then s else SkipTo(s[1..], k)
  }

  lemma {:induction false} SkipIsSuffix<T>(s: seq<Row<T>>, k: Key)
    ensures
      var rest := SkipTo(s, k);
      rest == s[|s| - |rest|..]
  {
    if s != [] && !Before(k, s[0].key) {
      SkipIsSuffix(s[1..], k);
    }
  }

  function After<T>(s: seq<Row<T>>, c: Option<Key>): seq<Row<T>> {
    if c.Some? then SkipTo(s, c.value) else s
  }

  /** The pages of a walk over the sorted rows `s`. */
  function Pages<T>(s: seq<Row<T>>, size: nat): seq<seq<Row<T>>>
    requires size > 0
    decreases |s|
  {
    if |s| <= size then [s] else [s[..size]] + Pages(SkipTo(s[size..], CursorKey(s[size - 1].key)), size)
  }

  ghost predicate WellFormed<T>(rows: seq<Row<T>>) {
    UniqueKeys(rows) && forall r | r in rows :: Representable(r.key)
  }

  // ---- One request ---------------------------------------------------------------------

  lemma {:induction false} FilterCount<T(!new)>(s: seq<T>, f: T -> bool)
    ensures forall x :: multiset(Filter(s, f))[x] == if f(x) then multiset(s)[x] else 0
  {
    if s != [] {
      FilterCount(s[1..], f);
      assert s == [s[0]] + s[1..];
    }
  }

  lemma {:induction false} SkipIsFilter<T(!new)>(s: seq<Row<T>>, k: Key)
    requires Sorted(Keys(s))
    ensures SkipTo(s, k) == Filter(s, PastCursor(Some(k)))
  {
    if s != [] {
      assert Keys(s)[1..] == Keys(s[1..]);
      if Before(k, s[0].key) {
        forall r | r in s
          ensures PastCursor(Some(k))(r)
        {
          var i :| 0 <= i < |s| && s[i] == r;
          assert NotAfter(Keys(s)[0], Keys(s)[i]) || i == 0;
        }
        KeepAll(s, PastCursor(Some(k)));
      } else {
        SkipIsFilter(s[1..], k);
      }
    }
  }

  /** Over a table with unique keys only one list is an ordering of given rows. */
  lemma {:induction false} OrderingUnique<T>(p: seq<Row<T>>, rows: seq<Row<T>>, table: seq<Row<T>>)
    requires UniqueKeys(table) && DrawnFrom(rows, table) && Ordering(p, rows)
    ensures p == SortRows(rows)
  {
    SortRowsCorrect(rows);
    OrderingKeys(p, rows);
    OrderingKeys(SortRows(rows), rows);
    OrderingDrawn(p, rows);
    OrderingDrawn(SortRows(rows), rows);
    KeysDetermineRows(p, SortRows(rows), table);
  }

  /** Sorting what lies past a cursor is cutting the sorted list at the cursor. */
  lemma {:induction false} SortPastCursor<T(!new)>(rows: seq<Row<T>>, c: Option<Key>)
    requires UniqueKeys(rows)
    ensures SortRows(Filter(rows, PastCursor(c))) == After(SortRows(rows), c)
  {
    var past := PastCursor<T>(c);
    SortRowsCorrect(rows);
    if c.None? {
      KeepAll(rows, past);
    } else {
      FilterDrawn(rows, past);
      SkipOrders(rows, c.value);
      OrderingUnique(SkipTo(SortRows(rows), c.value), Filter(rows, past), rows);
    }
  }

  lemma {:induction false} SkipOrders<T(!new)>(rows: seq<Row<T>>, k: Key)
    ensures Ordering(SkipTo(SortRows(rows), k), Filter(rows, PastCursor(Some(k))))
  {
    hide SortRows, Filter, SkipTo;
    var (s, past) := (SortRows(rows), PastCursor<T>(Some(k)));
    SortRowsCorrect(rows);
    SkipIsFilter(s, k);
    FilterCount(s, past);
    FilterCount(rows, past);
    assert multiset(Filter(s, past)) == multiset(Filter(rows, past));
    SkipIsSuffix(s, k);
    SuffixSorted(s, |s| - |SkipTo(s, k)|);
  }

  lemma {:induction false} SuffixSorted<T>(s: seq<Row<T>>, n: nat)
    requires Sorted(Keys(s)) && n <= |s|
    ensures Sorted(Keys(s[n..]))
  {
  }

  /** The sorted rows a request still has before it: a first one skips `offset` rows. */
  function Rest<T>(rows: seq<Row<T>>, q: Query, cursor: Option<string>): seq<Row<T>>
    requires q.Offset() >= 0
  {
    if cursor.Some? then After(SortRows(rows), ParseCursor(cursor.value)) else Drop(SortRows(rows), q.Offset())
  }

  lemma {:induction false} RestIsSuffix<T>(rows: seq<Row<T>>, q: Query, cursor: Option<string>)
    requires q.Offset() >= 0
    ensures
      var (s, rest) := (SortRows(rows), Rest(rows, q, cursor));
      |rest| <= |s| && rest == s[|s| - |rest|..]
  {
    if cursor.Some? && ParseCursor(cursor.value).Some? { SkipIsSuffix(SortRows(rows), ParseCursor(cursor.value).value); }
    hide SortRows, ParseCursor, SkipTo;
  }

  lemma {:induction false} RestIs<T>(rows: seq<Row<T>>, q: Query, cursor: Option<string>)
    requires q.Offset() >= 0
    ensures Rest(rows, q, cursor)
         == Drop(After(SortRows(rows), if cursor.Some? then ParseCursor(cursor.value) else None),
                 if cursor.Some? then 0 else q.Offset())
  {
    hide SortRows, ParseCursor, SkipTo;
  }

  lemma {:induction false} ServeRest<T(!new)>(rows: seq<Row<T>>, q: Query, cursor: Option<string>)
    requires UniqueKeys(rows) && q.Limit() > 0 && q.Offset() >= 0
    requires cursor.Some? ==> ParseCursor(cursor.value).Some?
    ensures
      var rest := Rest(rows, q, cursor);
      var response := Serve(rows, q.(cursor := cursor));
      && response.Listing? && response.rows == Take(rest, q.Limit())
      && response.next == if |rest| > q.Limit() then Some(BuildCursor(rest[q.Limit() - 1].key)) else None
  {
    var q' := q.(cursor := cursor);
    hide *;
    CursorOnly(q, cursor);
    RestIs(rows, q, cursor);
    var rest := Rest(rows, q, cursor);
    ServeTakes(rows, q', rest);
    RespondTake(rest, q');
  }

  /** Replacing the cursor of a request. */
  lemma {:induction false} CursorOnly(q: Query, cursor: Option<string>)
    requires q.Limit() > 0 && q.Offset() >= 0 && (cursor.Some? ==> ParseCursor(cursor.value).Some?)
    ensures
      var q' := q.(cursor := cursor);
      && !q'.CursorRejected() && !q'.SqlRejected() && q'.Limit() == q.Limit()
      && q'.Skip() == (if cursor.Some? then 0 else q.Offset())
      && q'.CursorPosition() == if cursor.Some? then ParseCursor(cursor.value) else None
  {
  }

  lemma {:induction false} ServeTakes<T(!new)>(rows: seq<Row<T>>, q: Query, rest: seq<Row<T>>)
    requires UniqueKeys(rows) && !q.CursorRejected() && !q.SqlRejected() && q.Limit() > 0
    requires rest == Drop(After(SortRows(rows), q.CursorPosition()), q.Skip())
    ensures Serve(rows, q) == Respond(Take(rest, q.Limit() + 1), q)
  {
    hide Respond, SortRows, Filter, After, Serve;
    ServeUnfold(rows, q);
    SortPastCursor(rows, q.CursorPosition());
  }

  /** One row more than the page was fetched, and is dropped again. */
  lemma {:induction false} RespondTake<T>(rest: seq<Row<T>>, q: Query)
    requires q.Limit() > 0
    ensures
      var response := Respond(Take(rest, q.Limit() + 1), q);
      && response.Listing? && response.rows == Take(rest, q.Limit())
      && response.next == if |rest| > q.Limit() then Some(BuildCursor(rest[q.Limit() - 1].key)) else None
  {
    hide BuildCursor;
    if |rest| > q.Limit() {
      assert rest[..q.Limit() + 1][..q.Limit()] == rest[..q.Limit()];
    }
  }

  // ---- The whole walk ------------------------------------------------------------------

  /** A page's next cursor skips all rows up to the end of that page. */
  lemma {:induction false} SkipPage<T(!new)>(s: seq<Row<T>>, rest: seq<Row<T>>, size: nat)
    requires Sorted(Keys(s)) && 0 < size < |rest| <= |s| && rest == s[|s| - |rest|..]
    ensures SkipTo(s, CursorKey(rest[size - 1].key)) == SkipTo(rest[size..], CursorKey(rest[size - 1].key))
  {
    var k := CursorKey(rest[size - 1].key);
    var n := |s| - |rest| + size;
    assert s[n - 1] == rest[size - 1] && s[n..] == rest[size..];
    forall i | 0 <= i < n
      ensures !Before(k, s[i].key)
    {
      assert i == n - 1 || NotAfter(Keys(s)[i], Keys(s)[n - 1]);
    }
    SkipPrefix(s, n, k);
  }

  lemma {:induction false} SkipPrefix<T>(s: seq<Row<T>>, n: nat, k: Key)
    requires n <= |s| && forall i | 0 <= i < n :: !Before(k, s[i].key)
    ensures SkipTo(s, k) == SkipTo(s[n..], k)
  {
    if n > 0 {
      SkipPrefix(s[1..], n - 1, k);
      assert s[1..][n - 1..] == s[n..];
    }
  }

  lemma {:induction false} RestOfCursor<T>(rows: seq<Row<T>>, q: Query, next: string)
    requires q.Offset() >= 0 && ParseCursor(next).Some?
    ensures Rest(rows, q, Some(next)) == SkipTo(SortRows(rows), ParseCursor(next).value)
  {
  }

  lemma {:induction false} SortedRepresentable<T>(rows: seq<Row<T>>, i: nat)
    requires WellFormed(rows) && i < |SortRows(rows)|
    ensures Sorted(Keys(SortRows(rows))) && Representable(SortRows(rows)[i].key)
  {
    hide Representable;
    SortRowsCorrect(rows);
    OrderingDrawn(SortRows(rows), rows);
    assert SortRows(rows)[i] in SortRows(rows);
  }

  /** What follows a full page is what its next cursor leads to. */
  lemma {:induction false} NextCursor<T(!new)>(rows: seq<Row<T>>, q: Query, cursor: Option<string>)
    requires WellFormed(rows) && q.Offset() >= 0 && 0 < q.Limit() < |Rest(rows, q, cursor)|
    ensures
      var rest := Rest(rows, q, cursor);
      var (last, next) := (rest[q.Limit() - 1].key, BuildCursor(rest[q.Limit() - 1].key));
      && ParseCursor(next).Some? && Rest(rows, q, Some(next)) == SkipTo(rest[q.Limit()..], CursorKey(last))
  {
    var rest := Rest(rows, q, cursor);
    hide *;
    RestIsSuffix(rows, q, cursor);
    AfterSuffix(rows, q, rest, q.Limit());
  }

  lemma {:induction false} AfterSuffix<T(!new)>(rows: seq<Row<T>>, q: Query, rest: seq<Row<T>>, size: nat)
    requires WellFormed(rows) && q.Offset() >= 0 && 0 < size < |rest| <= |SortRows(rows)|
    requires rest == SortRows(rows)[|SortRows(rows)| - |rest|..]
    ensures
      var last := rest[size - 1].key;
      && ParseCursor(BuildCursor(last)).Some?
      && Rest(rows, q, Some(BuildCursor(last))) == SkipTo(rest[size..], CursorKey(last))
  {
    var s := SortRows(rows);
    hide *;
    var n := |s| - |rest| + size - 1;
    assert rest[size - 1] == s[n];
    SortedRepresentable(rows, n);
    NextCursorKey(rows, q, rest[size - 1].key);
    SkipPage(s, rest, size);
  }

  lemma {:induction false} NextCursorKey<T>(rows: seq<Row<T>>, q: Query, k: Key)
    requires Representable(k) && q.Offset() >= 0
    ensures ParseCursor(BuildCursor(k)).Some? && Rest(rows, q, Some(BuildCursor(k))) == SkipTo(SortRows(rows), CursorKey(k))
  {
    hide *;
    CursorRoundTrip(k);
    RestOfCursor(rows, q, BuildCursor(k));
  }

  lemma {:induction false} WalkLastPage<T>(server: Server<T>, size: nat, cursor: Option<string>,
                                           rest: seq<Row<T>>, pages: seq<seq<Row<T>>>)
    requires size > 0 && |rest| <= size && pages != []
    requires server(cursor).Listing? && server(cursor).rows == rest && server(cursor).next == None
    ensures IsWalk(server, cursor, pages) <==> pages == Pages(rest, size)
  {
  }

  lemma {:induction false} WalkStep<T>(server: Server<T>, cursor: Option<string>, pages: seq<seq<Row<T>>>)
    requires pages != [] && server(cursor).Listing? && server(cursor).next.Some?
    ensures IsWalk(server, cursor, pages)
       <==> server(cursor).rows == pages[0] && IsWalk(server, server(cursor).next, pages[1..])
  {
  }

  lemma {:induction false} ConsEqual<T>(list: seq<T>, head: T, tail: seq<T>)
    requires list != []
    ensures list == [head] + tail <==> list[0] == head && list[1..] == tail
  {
    assert list == [list[0]] + list[1..];
    assert ([head] + tail)[0] == head && ([head] + tail)[1..] == tail;
  }

  lemma {:induction false} PagesCons<T>(rest: seq<Row<T>>, size: nat, pages: seq<seq<Row<T>>>)
    requires 0 < size < |rest| && pages != []
    ensures pages == Pages(rest, size)
       <==> pages[0] == rest[..size] && pages[1..] == Pages(SkipTo(rest[size..], CursorKey(rest[size - 1].key)), size)
  {
    hide *;
    PagesStep(rest, size);
    ConsEqual(pages, rest[..size], Pages(SkipTo(rest[size..], CursorKey(rest[size - 1].key)), size));
  }

  lemma {:induction false} WalkNextPage<T>(server: Server<T>, size: nat, cursor: Option<string>, next: string,
                                           rest: seq<Row<T>>, after: seq<Row<T>>, pages: seq<seq<Row<T>>>)
    requires 0 < size < |rest| && pages != []
    requires after == SkipTo(rest[size..], CursorKey(rest[size - 1].key))
    requires server(cursor).Listing? && server(cursor).rows == rest[..size] && server(cursor).next == Some(next)
    requires IsWalk(server, Some(next), pages[1..]) <==> pages[1..] == Pages(after, size)
    ensures IsWalk(server, cursor, pages) <==> pages == Pages(rest, size)
  {
    hide *;
    WalkStep(server, cursor, pages);
    PagesCons(rest, size, pages);
  }

  lemma {:induction false} WalkFrom<T(!new)>(rows: seq<Row<T>>, q: Query, cursor: Option<string>, pages: seq<seq<Row<T>>>)
    requires WellFormed(rows) && q.Limit() > 0 && q.Offset() >= 0
    requires cursor.Some? ==> ParseCursor(cursor.value).Some?
    ensures IsWalk(ServerFor(rows, q), cursor, pages) <==> pages == Pages(Rest(rows, q, cursor), q.Limit())
    decreases |pages|
  {
    hide Rest, SortRows, Pages, SkipTo, ParseCursor, BuildCursor, Serve;
    var rest := Rest(rows, q, cursor);
    ServeRest(rows, q, cursor);
    ServerAnswer(rows, q, cursor);
    TakeShort(rest, q.Limit());
    if pages == [] {
      NoEmptyWalk(ServerFor(rows, q), cursor, rest, q.Limit());
    } else if |rest| <= q.Limit() {
      WalkLastPage(ServerFor(rows, q), q.Limit(), cursor, rest, pages);
    } else {
      NextCursor(rows, q, cursor);
      var next := BuildCursor(rest[q.Limit() - 1].key);
      WalkFrom(rows, q, Some(next), pages[1..]);
      WalkNextPage(ServerFor(rows, q), q.Limit(), cursor, next, rest, Rest(rows, q, Some(next)), pages);
    }
  }

  lemma {:induction false} ServerAnswer<T>(rows: seq<Row<T>>, q: Query, cursor: Option<string>)
    ensures ServerFor(rows, q)(cursor) == Serve(rows, q.(cursor := cursor))
  {
  }

  lemma {:induction false} TakeShort<T>(s: seq<T>, n: nat)
    ensures Take(s, n) == if |s| <= n then s else s[..n]
  {
  }

  lemma {:induction false} NoEmptyWalk<T>(server: Server<T>, cursor: Option<string>, rest: seq<Row<T>>, size: nat)
    requires size > 0
    ensures !IsWalk(server, cursor, []) && Pages(rest, size) != []
  {
  }

  /** There is exactly one walk from the first page, and it is finite. */
  lemma {:induction false} WalkIsPages<T(!new)>(rows: seq<Row<T>>, q: Query, pages: seq<seq<Row<T>>>)
    requires WellFormed(rows) && q.Limit() > 0 && q.Offset() >= 0
    ensures IsWalk(ServerFor(rows, q), None, pages) <==> pages == Pages(Drop(SortRows(rows), q.Offset()), q.Limit())
  {
    WalkFrom(rows, q, None, pages);
  }

  lemma {:induction false} SortRowsDescending<T>(rows: seq<Row<T>>)
    requires UniqueKeys(rows)
    ensures Descending(Keys(SortRows(rows)))
  {
    var s := SortRows(rows);
    SortRowsCorrect(rows);
    forall i, j | 0 <= i < j < |s|
      ensures Before(Keys(s)[i], Keys(s)[j])
    {
      assert NotAfter(Keys(s)[i], Keys(s)[j]);
      OrderingDrawn(s, rows);
      DistinctAfterSort(s, rows, i, j);
      assert s[i] in rows && s[j] in rows;
    }
  }

  lemma {:induction false} DistinctAfterSort<T>(s: seq<Row<T>>, rows: seq<Row<T>>, i: nat, j: nat)
    requires UniqueKeys(rows) && multiset(s) == multiset(rows)
    requires i < j < |s|
    ensures s[i] != s[j]
  {
    AtMostOnce(rows, s[i]);
    assert s == s[..i] + [s[i]] + s[i + 1..j] + [s[j]] + s[j + 1..];
    assert s[i] == s[j] ==> multiset(s)[s[i]] >= 2;
  }

  lemma {:induction false} AtMostOnce<T>(rows: seq<Row<T>>, r: Row<T>)
    requires UniqueKeys(rows)
    ensures multiset(rows)[r] <= 1
  {
    if rows != [] {
      AtMostOnce(rows[1..], r);
      assert rows == [rows[0]] + rows[1..];
      if r == rows[0] {
        assert r !in rows[1..];
      }
    }
  }

  lemma {:induction false} SuffixDescending<T>(s: seq<Row<T>>, n: nat)
    requires Descending(Keys(s)) && n <= |s|
    ensures Descending(Keys(s[n..]))
  {
  }

  /** Rows drawn from a tail of a descending list come after everything before the tail. */
  lemma {:induction false} TailComesAfter<T>(s: seq<Row<T>>, n: nat, tail: seq<Row<T>>)
    requires Descending(Keys(s)) && 0 < n <= |s| && DrawnFrom(tail, s[n..])
    ensures DrawnFrom(tail, s)
    ensures forall j | 0 <= j < |tail| :: Before(s[n - 1].key, tail[j].key)
  {
    forall j | 0 <= j < |tail|
      ensures tail[j] in s && Before(s[n - 1].key, tail[j].key)
    {
      assert tail[j] in s[n..];
      var i :| 0 <= i < |s[n..]| && s[n..][i] == tail[j];
      assert Before(Keys(s)[n - 1], Keys(s)[n + i]);
    }
  }

  /** A page followed by newest-first rows of what remains is newest first. */
  lemma {:induction false} PageThenTail<T>(s: seq<Row<T>>, size: nat, tail: seq<Row<T>>)
    requires Descending(Keys(s)) && 0 < size < |s|
    requires Descending(Keys(tail)) && DrawnFrom(tail, s[size..])
    ensures Descending(Keys(s[..size] + tail)) && DrawnFrom(s[..size] + tail, s)
  {
    TailComesAfter(s, size, tail);
    assert Keys(s[..size]) == Keys(s)[..size];
    ConcatDescending(s[..size], tail);
  }

  /** Every walk is strictly newest first and shows only rows of the table. */
  lemma {:induction false} PagesDescend<T>(s: seq<Row<T>>, size: nat)
    requires Descending(Keys(s)) && size > 0
    ensures Descending(Keys(Flatten(Pages(s, size)))) && DrawnFrom(Flatten(Pages(s, size)), s)
    decreases |s|
  {
    hide Pages, SkipTo, Flatten;
    PagesStep(s, size);
    if |s| > size {
      var rest := SkipTo(s[size..], CursorKey(s[size - 1].key));
      SkipIsSuffix(s[size..], CursorKey(s[size - 1].key));
      SuffixOfTail(s, size, rest);
      SuffixDescending(s, |s| - |rest|);
      PagesDescend(rest, size);
      SuffixDrawn(rest, s[size..]);
      PageThenTail(s, size, Flatten(Pages(rest, size)));
    }
  }

  lemma {:induction false} PageSizes<T>(s: seq<Row<T>>, size: nat)
    requires size > 0
    ensures forall i | 0 <= i < |Pages(s, size)| :: |Pages(s, size)[i]| <= size
    decreases |s|
  {
    if |s| > size {
      PageSizes(SkipTo(s[size..], CursorKey(s[size - 1].key)), size);
    }
  }

  lemma {:induction false} SuffixOfTail<T>(s: seq<T>, n: nat, rest: seq<T>)
    requires n <= |s| && |rest| <= |s| - n && rest == s[n..][|s| - n - |rest|..]
    ensures rest == s[|s| - |rest|..]
  {
  }

  lemma {:induction false} SuffixDrawn<T>(rest: seq<Row<T>>, s: seq<Row<T>>)
    requires |rest| <= |s| && rest == s[|s| - |rest|..]
    ensures DrawnFrom(rest, s)
  {
  }

  lemma {:induction false} PagesStep<T>(s: seq<Row<T>>, size: nat)
    requires size > 0
    ensures |s| <= size ==> Pages(s, size) == [s] && Flatten(Pages(s, size)) == s
    ensures |s| > size ==>
              var rest := SkipTo(s[size..], CursorKey(s[size - 1].key));
              && Pages(s, size) == [s[..size]] + Pages(rest, size)
              && Flatten(Pages(s, size)) == s[..size] + Flatten(Pages(rest, size))
  {
  }

  lemma {:induction false} ConcatDescending<T>(a: seq<Row<T>>, b: seq<Row<T>>)
    requires a != [] && Descending(Keys(a)) && Descending(Keys(b))
    requires forall j | 0 <= j < |b| :: Before(a[|a| - 1].key, b[j].key)
    ensures Descending(Keys(a + b))
  {
  }

  /** At every page break the next row lies past the millisecond cursor of the row before it. */
  ghost predicate BreaksSafe<T>(s: seq<Row<T>>, size: nat)
    requires size > 0
  {
    forall i | 0 < i < |s| && i % size == 0 :: Before(CursorKey(s[i - 1].key), s[i].key)
  }

  lemma {:induction false} ModShift(i: nat, size: nat)
    requires 0 < size <= i
    ensures (i - size) % size == i % size
    ensures (i - size) / size == i / size - 1
  {
    var (q, r) := (i / size, i % size);
    assert i == q * size + r;
    assert i - size == (q - 1) * size + r;
    DivModUnique(i - size, size, q - 1, r);
  }

  lemma {:induction false} DivModUnique(i: nat, size: nat, q: int, r: nat)
    requires size > 0 && r < size && i == q * size + r
    ensures i / size == q && i % size == r
  {
    var (q', r') := (i / size, i % size);
    assert (q - q') * size == r' - r;
    MultipleGrows(q - q', size);
  }

  lemma {:induction false} MultipleGrows(d: int, size: nat)
    ensures d > 0 ==> d * size >= size
    ensures d < 0 ==> d * size <= -(size as int)
  {
  }

  lemma {:induction false} BreaksSafeTail<T>(s: seq<Row<T>>, size: nat)
    requires 0 < size < |s|
    ensures BreaksSafe(s, size) <==> Before(CursorKey(s[size - 1].key), s[size].key) && BreaksSafe(s[size..], size)
  {
    ModShift(size, size);
    if Before(CursorKey(s[size - 1].key), s[size].key) && BreaksSafe(s[size..], size) {
      forall i | 0 < i < |s| && i % size == 0
        ensures Before(CursorKey(s[i - 1].key), s[i].key)
      {
        if i < size {
          DivModUnique(i, size, 0, i);
        } else if i > size {
          ModShift(i, size);
          assert s[size..][i - size] == s[i] && s[size..][i - size - 1] == s[i - 1];
        }
      }
    }
    if BreaksSafe(s, size) {
      forall i | 0 < i < |s[size..]| && i % size == 0
        ensures Before(CursorKey(s[size..][i - 1].key), s[size..][i].key)
      {
        ModShift(i + size, size);
        assert s[size..][i] == s[i + size] && s[size..][i - 1] == s[i + size - 1];
      }
    }
  }

  lemma {:induction false} PagesLength<T>(s: seq<Row<T>>, size: nat)
    requires size > 0
    ensures |Flatten(Pages(s, size))| <= |s|
    decreases |s|
  {
    PagesStep(s, size);
    if |s| > size {
      PagesLength(SkipTo(s[size..], CursorKey(s[size - 1].key)), size);
    }
  }

  lemma {:induction false} SkipNothingIff<T>(tail: seq<Row<T>>, k: Key)
    requires tail != []
    ensures Before(k, tail[0].key) ==> SkipTo(tail, k) == tail
    ensures !Before(k, tail[0].key) ==> |SkipTo(tail, k)| < |tail|
  {
  }

  /** Nothing is lost exactly when no page break splits a millisecond after its cursor. */
  lemma {:induction false} PagesCompleteIff<T>(s: seq<Row<T>>, size: nat)
    requires size > 0
    ensures Flatten(Pages(s, size)) == s <==> BreaksSafe(s, size)
    decreases |s|
  {
    hide *;
    PagesStep(s, size);
    if |s| <= size {
      OnePageSafe(s, size);
    } else {
      BreaksSafeTail(s, size);
      if Before(CursorKey(s[size - 1].key), s[size].key) {
        PagesCompleteIff(s[size..], size);
        NothingSkipped(s, size);
      } else {
        SomethingSkipped(s, size);
      }
    }
  }

  lemma {:induction false} OnePageSafe<T>(s: seq<Row<T>>, size: nat)
    requires 0 < size && |s| <= size
    ensures BreaksSafe(s, size)
  {
    forall i | 0 < i < |s|
      ensures i % size != 0
    {
      DivModUnique(i, size, 0, i);
    }
  }

  lemma {:induction false} NothingSkipped<T>(s: seq<Row<T>>, size: nat)
    requires 0 < size < |s| && Before(CursorKey(s[size - 1].key), s[size].key)
    ensures Flatten(Pages(s, size)) == s <==> Flatten(Pages(s[size..], size)) == s[size..]
  {
  }

  lemma {:induction false} SomethingSkipped<T>(s: seq<Row<T>>, size: nat)
    requires 0 < size < |s| && !Before(CursorKey(s[size - 1].key), s[size].key)
    ensures |Flatten(Pages(s, size))| < |s|
  {
    PagesStep(s, size);
    SkipNothingIff(s[size..], CursorKey(s[size - 1].key));
    PagesLength(SkipTo(s[size..], CursorKey(s[size - 1].key)), size);
  }

  /** Requests of a complete walk over `n` rows: ceil(n / size), and one for an empty result. */
  function PageTotal(n: nat, size: nat): nat
    requires size > 0
  {
    if n == 0 then 1 else (n + size - 1) / size
  }

  lemma {:induction false} TotalStep(n: nat, size: nat)
    requires size > 0
    ensures n <= size ==> PageTotal(n, size) == 1
    ensures n > size ==> PageTotal(n, size) == 1 + PageTotal(n - size, size)
  {
    if n > size {
      ModShift(n + size - 1, size);
    } else if n > 0 {
      DivModUnique(n + size - 1, size, 1, n - 1);
    }
  }

  lemma {:induction false} PageCount<T>(s: seq<Row<T>>, size: nat)
    requires size > 0 && BreaksSafe(s, size)
    ensures |Pages(s, size)| == PageTotal(|s|, size)
    decreases |s|
  {
    hide *;
    PagesStep(s, size);
    TotalStep(|s|, size);
    if |s| > size {
      BreaksSafeTail(s, size);
      SkipNothingIff(s[size..], CursorKey(s[size - 1].key));
      PageCount(s[size..], size);
    }
  }

  // ---- What a client may rely on -------------------------------------------------------

  /** Strictly newest first, so no row appears twice; complete exactly when all page breaks are
      safe; with whole-millisecond timestamps complete, in ceil(n / size) pages. */
  ghost predicate GoodWalk<T>(pages: seq<seq<Row<T>>>, all: seq<Row<T>>, size: nat)
    requires size > 0
  {
    && Descending(Keys(Flatten(pages))) && DrawnFrom(Flatten(pages), all)
    && (forall i | 0 <= i < |pages| :: |pages[i]| <= size)
    && (Flatten(pages) == all <==> BreaksSafe(all, size))
    && (Aligned(all) ==> Flatten(pages) == all && |pages| == PageTotal(|all|, size))
  }

  ghost predicate Aligned<T>(rows: seq<Row<T>>) {
    forall r | r in rows :: r.key.ts % 1000 == 0
  }

  lemma {:induction false} AlignedBreaksSafe<T>(s: seq<Row<T>>, size: nat)
    requires size > 0 && Descending(Keys(s)) && Aligned(s)
    ensures BreaksSafe(s, size)
  {
    forall i | 0 < i < |s| && i % size == 0
      ensures Before(CursorKey(s[i - 1].key), s[i].key)
    {
      assert s[i - 1] in s && Before(Keys(s)[i - 1], Keys(s)[i]);
      CursorAtOrAfter(s[i - 1].key);
    }
  }

  lemma {:induction false} PagesAreGood<T>(all: seq<Row<T>>, size: nat)
    requires size > 0 && Descending(Keys(all))
    ensures GoodWalk(Pages(all, size), all, size)
  {
    hide Pages, Flatten, BreaksSafe, PageTotal;
    PagesDescend(all, size);
    PageSizes(all, size);
    PagesCompleteIff(all, size);
    if Aligned(all) {
      AlignedBreaksSafe(all, size);
      PageCount(all, size);
    }
  }

  /** What a first request with this offset leads through, newest first. */
  lemma {:induction false} RowsFromOffset<T>(rows: seq<Row<T>>, offset: nat)
    requires UniqueKeys(rows)
    ensures
      var all := Drop(SortRows(rows), offset);
      && Descending(Keys(all)) && DrawnFrom(all, rows) && |all| == if offset <= |rows| then |rows| - offset else 0
  {
    SortRowsDescending(rows);
    SortRowsCorrect(rows);
    OrderingDrawn(SortRows(rows), rows);
  }

  /** Any walk, whatever the timestamps: strictly newest first, so no row appears twice. */
  lemma {:induction false} WalkNeverRepeats<T(!new)>(rows: seq<Row<T>>, q: Query, pages: seq<seq<Row<T>>>)
    requires WellFormed(rows) && q.Limit() > 0 && q.Offset() >= 0
    ensures IsWalk(ServerFor(rows, q), None, pages) ==>
              && Descending(Keys(Flatten(pages))) && DrawnFrom(Flatten(pages), rows)
              && forall i | 0 <= i < |pages| :: |pages[i]| <= q.Limit()
  {
    var all := Drop(SortRows(rows), q.Offset());
    WalkIsPages(rows, q, pages);
    RowsFromOffset(rows, q.Offset());
    PagesAreGood(all, q.Limit());
  }

  /** The walk shows the full sorted result exactly when all its page breaks are safe. */
  lemma {:induction false} WalkCompleteIff<T(!new)>(rows: seq<Row<T>>, q: Query, pages: seq<seq<Row<T>>>)
    requires WellFormed(rows) && q.Limit() > 0 && q.Offset() >= 0
    ensures
      var all := Drop(SortRows(rows), q.Offset());
      IsWalk(ServerFor(rows, q), None, pages) ==> (Flatten(pages) == all <==> BreaksSafe(all, q.Limit()))
  {
    WalkIsPages(rows, q, pages);
    PagesCompleteIff(Drop(SortRows(rows), q.Offset()), q.Limit());
  }

  /** With whole-millisecond timestamps every walk is complete, in ceil(n / limit) pages. */
  lemma {:induction false} AlignedWalkComplete<T(!new)>(rows: seq<Row<T>>, q: Query, pages: seq<seq<Row<T>>>)
    requires WellFormed(rows) && Aligned(rows) && q.Limit() > 0 && q.Offset() >= 0
    ensures
      var all := Drop(SortRows(rows), q.Offset());
      IsWalk(ServerFor(rows, q), None, pages) ==> Flatten(pages) == all && |pages| == PageTotal(|all|, q.Limit())
  {
    WalkIsPages(rows, q, pages);
    RowsFromOffset(rows, q.Offset());
    PagesAreGood(Drop(SortRows(rows), q.Offset()), q.Limit());
  }

  lemma {:induction false} SameAnswersSameWalk<T>(a: Server<T>, b: Server<T>, cursor: Option<string>, pages: seq<seq<Row<T>>>)
    requires forall c :: a(c) == b(c)
    ensures IsWalk(a, cursor, pages) <==> IsWalk(b, cursor, pages)
    decreases |pages|
  {
    if pages != [] && a(cursor).Listing? {
      SameAnswersSameWalk(a, b, a(cursor).next, pages[1..]);
    }
  }

  /** Paging through `GET /account/orders` by cursor, for a fixed orders table: there is exactly one
      walk, and none for an unknown status. */
  lemma {:induction false} OrdersWalk(orders: seq<Row<Order>>, labels: set<string>, user: string, q: Query,
                                      server: Server<Order>, pages: seq<seq<Row<Order>>>)
    requires WellFormed(orders) && q.Limit() > 0 && q.Offset() >= 0
    requires forall c :: GetOrders(orders, labels, user, q.(cursor := c), server(c))
    ensures
      var all := Drop(SortRows(Filter(orders, OrderMatches(user, q))), q.Offset());
      && (IsWalk(server, None, pages) <==> !StatusRejected(q, labels) && pages == Pages(all, q.Limit()))
      && GoodWalk(Pages(all, q.Limit()), all, q.Limit())
  {
    var rows := Filter(orders, OrderMatches(user, q));
    FilterDrawn(orders, OrderMatches(user, q));
    FilterUnique(orders, OrderMatches(user, q));
    RowsFromOffset(rows, q.Offset());
    PagesAreGood(Drop(SortRows(rows), q.Offset()), q.Limit());
    if StatusRejected(q, labels) {
      assert !q.(cursor := None).CursorRejected();
      OrdersServePages(orders, labels, user, q.(cursor := None), server(None));
      assert server(None) == FetchFailed;
    } else {
      forall c
        ensures server(c) == ServerFor(rows, q)(c)
      {
        OrdersServePages(orders, labels, user, q.(cursor := c), server(c));
        FilterAgree(orders, OrderMatches(user, q), OrderMatches(user, q.(cursor := c)));
      }
      SameAnswersSameWalk(server, ServerFor(rows, q), None, pages);
      WalkIsPages(rows, q, pages);
    }
  }

  /** Paging through `GET /account/trades` by cursor, for a fixed trades table: there is exactly one walk. */
  lemma {:induction false} TradesWalk(trades: seq<Row<Trade>>, lookup: PnlLookup, user: string, q: Query,
                                      server: Server<(Trade, Option<PnlEvent>)>, pages: seq<seq<TradeRow>>)
    requires WellFormed(trades) && q.Limit() > 0 && q.Offset() >= 0 && forall t :: |lookup(t)| <= 1
    requires forall c :: GetTrades(trades, lookup, user, q.(cursor := c), server(c))
    ensures
      var all := Drop(SortRows(UserTrades(trades, lookup, user, q)), q.Offset());
      && (IsWalk(server, None, pages) <==> pages == Pages(all, q.Limit()))
      && GoodWalk(Pages(all, q.Limit()), all, q.Limit())
  {
    var rows := UserTrades(trades, lookup, user, q);
    UserTradesWellFormed(trades, lookup, user, q);
    RowsFromOffset(rows, q.Offset());
    PagesAreGood(Drop(SortRows(rows), q.Offset()), q.Limit());
    forall c
      ensures server(c) == ServerFor(rows, q)(c)
    {
      var q' := q.(cursor := c);
      TradesServePages(trades, lookup, user, q', server(c));
      FilterAgree(trades, And(Party(user), SymbolMatches(q)), And(Party(user), SymbolMatches(q')));
    }
    SameAnswersSameWalk(server, ServerFor(rows, q), None, pages);
    WalkIsPages(rows, q, pages);
  }

  lemma {:induction false} UserTradesWellFormed(trades: seq<Row<Trade>>, lookup: PnlLookup, user: string, q: Query)
    requires WellFormed(trades) && forall t :: |lookup(t)| <= 1
    ensures WellFormed(UserTrades(trades, lookup, user, q))
  {
    var base := And(Party(user), SymbolMatches(q));
    FilterDrawn(trades, base);
    FilterUnique(trades, base);
    JoinDrawn(Filter(trades, base), Filter(trades, base), lookup);
    LeftJoinKeepsRows(Filter(trades, base), lookup);
    forall r | r in UserTrades(trades, lookup, user, q)
      ensures Representable(r.key)
    {
      var i :| 0 <= i < |Filter(trades, base)| && LeftJoin(Filter(trades, base), lookup)[i] == r;
      assert Filter(trades, base)[i] in trades;
    }
  }

  lemma {:induction false} SecondSkipped<T>(newer: Row<T>, older: Row<T>)
    requires !Before(CursorKey(newer.key), older.key)
    ensures Pages([newer, older], 1) == [[newer], []]
  {
    var s := [newer, older];
    assert s[1..] == [older] && s[..1] == [newer];
    hide *;
    SkipNothingIff([older], CursorKey(newer.key));
    var rest := SkipTo([older], CursorKey(newer.key));
    assert rest == [];
    PagesStep(s, 1);
    PagesStep(rest, 1);
  }

  /** Two rows in one millisecond, one row per page: unless it lies on the full millisecond, the
      older row is never shown: the second page is empty. */
  lemma {:induction false} SubMillisecondRowLost<T(!new)>(newer: Row<T>, older: Row<T>, q: Query, pages: seq<seq<Row<T>>>)
    requires WellFormed([newer, older]) && q.Limit() == 1 && q.Offset() == 0
    requires newer.key.ts > older.key.ts && Millis(newer.key.ts) == Millis(older.key.ts) && older.key.ts % 1000 != 0
    ensures IsWalk(ServerFor([newer, older], q), None, pages) <==> pages == [[newer], []]
  {
    assert !Before(CursorKey(newer.key), older.key);
    SortedPair(newer, older);
    assert Drop([newer, older], 0) == [newer, older];
    hide *;
    SecondSkipped(newer, older);
    WalkIsPages([newer, older], q, pages);
  }

  lemma {:induction false} SortedPair<T>(newer: Row<T>, older: Row<T>)
    requires Before(newer.key, older.key)
    ensures SortRows([newer, older]) == [newer, older]
  {
    assert [newer, older][1..] == [older] && [older][1..] == [];
    assert SortRows([older]) == InsertRow(older, []) == [older];
  }
}
