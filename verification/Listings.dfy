/** What the pages of the history endpoints contain, row by row.

    The statements below spell out the conditions a row must meet, the default and the cap of the
    page size, and the order of the listing, without the functions that compute a page. */
module Listings {
  import opened Account
  import opened Cursor
  import opened CursorWalk
  import opened Keyset
  import opened Sql
  import opened Wrappers

  /** The page size a request asks for: 50 by default, at most 200. */
  function Size(q: Query): int {
    if q.limit.None? then 50 else if q.limit.value <= 200 then q.limit.value else 200
  }

  /** The request starts at the first row, or right behind its cursor. */
  predicate Unskipped(q: Query) {
    q.cursor.Some? || q.offset.None? || q.offset.value == 0
  }

  predicate Newer(a: Key, b: Key) {
    a.ts > b.ts || (a.ts == b.ts && a.id > b.id)
  }

  /** The row of this key lies behind the request's cursor, if it has one. */
  predicate Behind(q: Query, k: Key) {
    q.cursor.Some? && ParseCursor(q.cursor.value).Some? ==> Newer(ParseCursor(q.cursor.value).value, k)
  }

  ghost predicate NewestFirst<T>(rows: seq<Row<T>>) {
    forall i, j | 0 <= i < j < |rows| :: Newer(rows[i].key, rows[j].key)
  }

  /** What matches and is not among the rows is older than all of them, and they fill the page. */
  ghost predicate RestIsOlder<T(!new)>(rows: seq<Row<T>>, size: int, q: Query, matches: Row<T> -> bool) {
    forall r | matches(r) && Behind(q, r.key) && r !in rows :: |rows| == size && forall s | s in rows :: Newer(s.key, r.key)
  }

  ghost predicate SomeLeft<T(!new)>(rows: seq<Row<T>>, q: Query, matches: Row<T> -> bool) {
    exists r :: matches(r) && Behind(q, r.key) && r !in rows
  }

  /** The page shows the newest matching rows behind the cursor, newest first, as many as it may;
      a next cursor appears exactly if one was left out, and names the last row shown. */
  ghost predicate ShowsNewest<T(!new)>(page: Response<T>, q: Query, matches: Row<T> -> bool) {
    page.Listing? &&
    var (rows, size) := (page.rows, Size(q));
    && |rows| <= size && NewestFirst(rows)
    && (forall r | r in rows :: matches(r) && Behind(q, r.key))
    && (Unskipped(q) ==> RestIsOlder(rows, size, q, matches))
    && (Unskipped(q) ==> (page.next.Some? <==> size > 0 && SomeLeft(rows, q, matches)))
    && (page.next.Some? ==> rows != [] && page.next == Some(BuildCursor(rows[|rows| - 1].key)))
    && (q.cursor.Some? ==> page.total == -1)
    && (q.cursor.None? && size > 0 ==> page.total == q.offset.GetOr(0) + |rows| + if page.next.Some? then 1 else 0)
  }

  /** A malformed cursor. */
  predicate BadCursor(q: Query) {
    q.cursor.Some? && ParseCursor(q.cursor.value).None?
  }

  /** A limit below -1, or a negative offset that is sent. */
  predicate BadRange(q: Query) {
    Size(q) < -1 || (q.cursor.None? && q.offset.Some? && q.offset.value < 0)
  }

  lemma {:induction false} QueryMeaning(q: Query)
    ensures q.Limit() == Size(q) && q.Offset() == q.offset.GetOr(0)
    ensures q.CursorRejected() <==> BadCursor(q)
    ensures q.SqlRejected() <==> BadRange(q)
    ensures !q.SqlRejected() && Unskipped(q) ==> q.Skip() == 0
  {
  }

  /** What is answered when `rest` lies before the request and one row more than the page is read. */
  lemma {:induction false} RespondStretch<T>(rest: seq<Row<T>>, q: Query)
    requires q.Limit() >= 0
    ensures
      var (page, size) := (Respond(Take(rest, q.Limit() + 1), q), q.Limit());
      && page.Listing? && page.rows == Take(rest, size)
      && (page.next.Some? <==> |rest| > size > 0)
      && (page.next.Some? ==> page.next == Some(BuildCursor(rest[size - 1].key)))
      && (q.cursor.Some? ==> page.total == -1)
      && (q.cursor.None? && size > 0 ==>
            page.total == q.Offset() + |Take(rest, size)| + if |rest| > size then 1 else 0)
  {
    hide BuildCursor;
    if |rest| > q.Limit() {
      assert rest[..q.Limit() + 1][..q.Limit()] == rest[..q.Limit()];
    }
  }

  lemma {:induction false} PageOfIs<T>(rows: seq<Row<T>>, offset: nat, limit: nat)
    ensures PageOf(rows, offset, limit) == Take(Drop(SortRows(rows), offset), limit)
  {
  }

  /** The rows of a page are a stretch of the sorted rows behind the cursor. */
  lemma {:induction false} PageStretch<T(!new)>(rows: seq<Row<T>>, q: Query)
    requires !BadCursor(q) && !BadRange(q) && Size(q) >= 0
    ensures
      var sorted := SortRows(Filter(rows, PastCursor(q.CursorPosition())));
      var rest := Drop(sorted, q.Skip());
      && Serve(rows, q).Listing? && Serve(rows, q).rows == Take(rest, Size(q))
      && (Serve(rows, q).next.Some? <==> |rest| > Size(q) > 0)
      && (Serve(rows, q).next.Some? ==> Serve(rows, q).next == Some(BuildCursor(rest[Size(q) - 1].key)))
      && (q.cursor.Some? ==> Serve(rows, q).total == -1)
      && (q.cursor.None? && Size(q) > 0 ==>
            Serve(rows, q).total == q.offset.GetOr(0) + |Take(rest, Size(q))| + if |rest| > Size(q) then 1 else 0)
  {
    hide *;
    QueryMeaning(q);
    ServeUnfold(rows, q);
    PageOfIs(Filter(rows, PastCursor(q.CursorPosition())), q.Skip(), q.Limit() + 1);
    RespondStretch(Drop(SortRows(Filter(rows, PastCursor(q.CursorPosition()))), q.Skip()), q);
  }

  lemma {:induction false} SortedMembers<T(!new)>(rows: seq<Row<T>>, q: Query)
    requires UniqueKeys(rows) && !BadCursor(q)
    ensures
      var sorted := SortRows(Filter(rows, PastCursor(q.CursorPosition())));
      && Descending(Keys(sorted))
      && forall r :: r in sorted <==> r in rows && Behind(q, r.key)
  {
    var past := PastCursor<T>(q.CursorPosition());
    var kept := Filter(rows, past);
    FilterUnique(rows, past);
    FilterMember(rows, past);
    SortRowsDescending(kept);
    SortRowsCorrect(kept);
    forall r
      ensures r in SortRows(kept) <==> r in rows && Behind(q, r.key)
    {
      assert r in SortRows(kept) <==> r in multiset(SortRows(kept));
      assert r in kept <==> r in multiset(kept);
    }
  }

  /** `sorted` lists exactly what matches behind the cursor. */
  ghost predicate ListsMatches<T(!new)>(sorted: seq<Row<T>>, q: Query, matches: Row<T> -> bool) {
    Descending(Keys(sorted)) && forall r :: r in sorted <==> matches(r) && Behind(q, r.key)
  }

  lemma {:induction false} LaterIsOlder<T>(sorted: seq<Row<T>>, i: nat, j: nat)
    requires Descending(Keys(sorted)) && i < j < |sorted|
    ensures Newer(sorted[i].key, sorted[j].key) && sorted[i] != sorted[j]
  {
    assert Before(Keys(sorted)[i], Keys(sorted)[j]);
  }

  lemma {:induction false} PrefixShows<T(!new)>(sorted: seq<Row<T>>, size: nat, q: Query, matches: Row<T> -> bool)
    requires ListsMatches(sorted, q, matches)
    ensures RestIsOlder(Take(sorted, size), size, q, matches)
    ensures |sorted| > size <==> SomeLeft(Take(sorted, size), q, matches)
  {
    hide Behind, Newer;
    var rows := Take(sorted, size);
    forall r, s | matches(r) && Behind(q, r.key) && r !in rows && s in rows
      ensures Newer(s.key, r.key)
    {
      var j :| 0 <= j < |sorted| && sorted[j] == r;
      var i :| 0 <= i < |rows| && rows[i] == s;
      assert rows[i] == sorted[i];
      assert i < j;
      LaterIsOlder(sorted, i, j);
    }
    if |sorted| > size {
      var r := sorted[size];
      forall i | 0 <= i < |rows|
        ensures rows[i] != r
      {
        LaterIsOlder(sorted, i, size);
      }
      assert r in sorted && r !in rows;
    }
  }

  lemma {:induction false} StretchOrder<T>(sorted: seq<Row<T>>, skip: nat, size: nat)
    requires Descending(Keys(sorted))
    ensures
      var rows := Take(Drop(sorted, skip), size);
      |rows| <= size && NewestFirst(rows) && forall r | r in rows :: r in sorted
  {
    hide Newer;
    var rows := Take(Drop(sorted, skip), size);
    forall i, j | 0 <= i < j < |rows|
      ensures Newer(rows[i].key, rows[j].key)
    {
      LaterIsOlder(sorted, skip + i, skip + j);
    }
  }

  lemma {:induction false} DropNothing<T>(s: seq<T>)
    ensures Drop(s, 0) == s
  {
  }

  lemma {:induction false} LastShown<T>(rest: seq<T>, size: nat)
    requires |rest| > size > 0
    ensures Take(rest, size) != [] && Take(rest, size)[|Take(rest, size)| - 1] == rest[size - 1]
  {
  }

  lemma {:induction false} SortedMatches<T(!new)>(rows: seq<Row<T>>, q: Query, matches: Row<T> -> bool)
    requires UniqueKeys(rows) && !BadCursor(q) && forall r :: r in rows <==> matches(r)
    ensures ListsMatches(SortRows(Filter(rows, PastCursor(q.CursorPosition()))), q, matches)
  {
    SortedMembers(rows, q);
    hide SortRows, Filter, Behind, Descending, Keys;
  }

  lemma {:induction false} MatchesDescend<T(!new)>(sorted: seq<Row<T>>, q: Query, matches: Row<T> -> bool)
    requires ListsMatches(sorted, q, matches)
    ensures Descending(Keys(sorted))
  {
  }

  /** A page of a list of rows with unique keys. */
  lemma {:induction false} ServeShowsNewest<T(!new)>(rows: seq<Row<T>>, q: Query, matches: Row<T> -> bool)
    requires UniqueKeys(rows) && !BadCursor(q) && !BadRange(q) && Size(q) >= 0
    requires forall r :: r in rows <==> matches(r)
    ensures ShowsNewest(Serve(rows, q), q, matches)
  {
    hide *;
    QueryMeaning(q);
    PageStretch(rows, q);
    SortedMatches(rows, q, matches);
    var (sorted, skip, size) := (SortRows(Filter(rows, PastCursor(q.CursorPosition()))), q.Skip(), Size(q));
    MatchesDescend(sorted, q, matches);
    StretchOrder(sorted, skip, size);
    DropNothing(sorted);
    PrefixShows(sorted, size, q, matches);
    var rest := Drop(sorted, skip);
    if |rest| > size > 0 { LastShown(rest, size); }
    Assembled(Serve(rows, q), q, matches, sorted);
  }

  /** The parts of the statement, put together. */
  lemma {:induction false} Assembled<T(!new)>(page: Response<T>, q: Query, matches: Row<T> -> bool, sorted: seq<Row<T>>)
    requires page.Listing? && |page.rows| <= Size(q) && NewestFirst(page.rows)
    requires (forall r | r in page.rows :: r in sorted) && ListsMatches(sorted, q, matches)
    requires Unskipped(q) ==> RestIsOlder(page.rows, Size(q), q, matches)
    requires Unskipped(q) ==> (page.next.Some? <==> Size(q) > 0 && SomeLeft(page.rows, q, matches))
    requires page.next.Some? ==> page.rows != [] && page.next == Some(BuildCursor(page.rows[|page.rows| - 1].key))
    requires q.cursor.Some? ==> page.total == -1
    requires q.cursor.None? && Size(q) > 0 ==>
               page.total == q.offset.GetOr(0) + |page.rows| + if page.next.Some? then 1 else 0
    ensures ShowsNewest(page, q, matches)
  {
    hide Behind, NewestFirst, RestIsOlder, SomeLeft, BuildCursor, Unskipped;
  }

  lemma {:induction false} ServeErrors<T(!new)>(rows: seq<Row<T>>, q: Query)
    ensures Serve(rows, q) == InvalidCursor <==> BadCursor(q)
    ensures Serve(rows, q) == FetchFailed <==> !BadCursor(q) && BadRange(q)
  {
    QueryMeaning(q);
  }

  /** An order of the user with the symbol and status asked for. */
  ghost predicate IsOwnOrder(r: Row<Order>, orders: seq<Row<Order>>, user: string, q: Query) {
    && r in orders && r.body.user == user
    && (q.symbol.Some? ==> r.body.symbol == q.symbol.value)
    && (q.status.Some? ==> r.body.status == q.status.value)
  }

  lemma {:induction false} OwnOrders(orders: seq<Row<Order>>, user: string, q: Query)
    requires UniqueKeys(orders)
    ensures UniqueKeys(Filter(orders, OrderMatches(user, q)))
    ensures forall r :: r in Filter(orders, OrderMatches(user, q)) <==> IsOwnOrder(r, orders, user, q)
  {
    FilterUnique(orders, OrderMatches(user, q));
    FilterMember(orders, OrderMatches(user, q));
  }

  /** The answer of `GET /account/orders`: errors for a malformed cursor, a bad range and a status
      that is no label; otherwise the newest orders that are the user's own and have the symbol and
      status asked for. */
  lemma {:induction false} OrdersListing(orders: seq<Row<Order>>, labels: set<string>, user: string, q: Query,
                                         response: Response<Order>)
    requires UniqueKeys(orders) && GetOrders(orders, labels, user, q, response)
    ensures response == InvalidCursor <==> BadCursor(q)
    ensures response == FetchFailed <==>
              !BadCursor(q) && (BadRange(q) || (q.status.Some? && q.status.value !in labels))
    ensures response.Listing? && Size(q) >= 0 ==>
              ShowsNewest(response, q, (r: Row<Order>) => IsOwnOrder(r, orders, user, q))
  {
    var rows := Filter(orders, OrderMatches(user, q));
    OrdersServePages(orders, labels, user, q, response);
    QueryMeaning(q);
    ServeErrors(rows, q);
    OwnOrders(orders, user, q);
    if response.Listing? && Size(q) >= 0 {
      ServeShowsNewest(rows, q, (r: Row<Order>) => IsOwnOrder(r, orders, user, q));
    }
  }

  /** A trade of the user as it is shown, with the first row of its PnL lookup. */
  ghost predicate IsShownTrade(r: TradeRow, t: Row<Trade>, trades: seq<Row<Trade>>, lookup: PnlLookup, user: string, q: Query) {
    && t in trades && (t.body.maker == user || t.body.taker == user)
    && (q.symbol.Some? ==> t.body.symbol == q.symbol.value)
    && r.key == t.key && r.body.0 == t.body
    && r.body.1 == if lookup(t) == [] then None else Some(lookup(t)[0])
  }

  lemma {:induction false} UserTradesMembers(trades: seq<Row<Trade>>, lookup: PnlLookup, user: string, q: Query)
    requires UniqueKeys(trades) && forall t :: |lookup(t)| <= 1
    ensures UniqueKeys(UserTrades(trades, lookup, user, q))
    ensures forall r :: r in UserTrades(trades, lookup, user, q)
                   <==> exists t :: IsShownTrade(r, t, trades, lookup, user, q)
  {
    var base := And(Party(user), SymbolMatches(q));
    var (kept, all) := (Filter(trades, base), UserTrades(trades, lookup, user, q));
    FilterUnique(trades, base);
    FilterMember(trades, base);
    FilterDrawn(trades, base);
    LeftJoinKeepsRows(kept, lookup);
    forall r | r in all
      ensures exists t :: IsShownTrade(r, t, trades, lookup, user, q)
    {
      var i :| 0 <= i < |all| && all[i] == r;
      assert kept[i] in kept && IsShownTrade(r, kept[i], trades, lookup, user, q);
    }
    forall r | exists t :: IsShownTrade(r, t, trades, lookup, user, q)
      ensures r in all
    {
      var t :| IsShownTrade(r, t, trades, lookup, user, q);
      assert t in kept;
      var i :| 0 <= i < |kept| && kept[i] == t;
      assert all[i] == r;
    }
  }

  /** The answer of `GET /account/trades`: the newest trades the user is maker or taker of, each once. */
  lemma {:induction false} TradesListing(trades: seq<Row<Trade>>, lookup: PnlLookup, user: string, q: Query,
                                         response: Response<(Trade, Option<PnlEvent>)>)
    requires UniqueKeys(trades) && forall t :: |lookup(t)| <= 1
    requires GetTrades(trades, lookup, user, q, response)
    ensures response == InvalidCursor <==> BadCursor(q)
    ensures response == FetchFailed <==> !BadCursor(q) && BadRange(q)
    ensures response.Listing? && Size(q) >= 0 ==>
              ShowsNewest(response, q, (r: TradeRow) => exists t :: IsShownTrade(r, t, trades, lookup, user, q))
  {
    var rows := UserTrades(trades, lookup, user, q);
    TradesServePages(trades, lookup, user, q, response);
    ServeErrors(rows, q);
    UserTradesMembers(trades, lookup, user, q);
    if response.Listing? && Size(q) >= 0 {
      ServeShowsNewest(rows, q, (r: TradeRow) => exists t :: IsShownTrade(r, t, trades, lookup, user, q));
    }
  }
  // ---- Walks ---------------------------------------------------------------------------

  /** Of two matching rows the older always lies past the cursor built from the newer: it does if
      they lie in different milliseconds. */
  ghost predicate Separated<T(!new)>(matches: Row<T> -> bool) {
    forall a, b | matches(a) && matches(b) && Newer(a.key, b.key) :: Newer(Key(a.key.ts / 1000 * 1000, a.key.id), b.key)
  }

  /** A walk shows only matching rows, newest first, and all of them if none share a millisecond. */
  ghost predicate ShowsAll<T(!new)>(shown: seq<Row<T>>, matches: Row<T> -> bool) {
    NewestFirst(shown) && (forall r | r in shown :: matches(r)) && (Separated(matches) ==> forall r | matches(r) :: r in shown)
  }

  lemma {:induction false} WalkShowsAll<T(!new)>(rows: seq<Row<T>>, size: nat, matches: Row<T> -> bool)
    requires UniqueKeys(rows) && size > 0 && forall r :: r in rows <==> matches(r)
    ensures ShowsAll(Flatten(Pages(SortRows(rows), size)), matches)
  {
    var (sorted, shown) := (SortRows(rows), Flatten(Pages(SortRows(rows), size)));
    RowsFromOffset(rows, 0);
    DropNothing(sorted);
    PagesAreGood(sorted, size);
    MembersOfSorted(rows);
    hide SortRows, Pages, Flatten;
    forall i, j | 0 <= i < j < |shown|
      ensures Newer(shown[i].key, shown[j].key)
    {
      LaterIsOlder(shown, i, j);
    }
    if Separated(matches) {
      forall i | 0 < i < |sorted| && i % size == 0
        ensures Before(CursorKey(sorted[i - 1].key), sorted[i].key)
      {
        LaterIsOlder(sorted, i - 1, i);
        assert matches(sorted[i - 1]) && matches(sorted[i]);
      }
      assert BreaksSafe(sorted, size);
    }
  }

  lemma {:induction false} MembersOfSorted<T>(rows: seq<Row<T>>)
    ensures forall r :: r in SortRows(rows) <==> r in rows
  {
    SortRowsCorrect(rows);
    hide SortRows;
    forall r
      ensures r in SortRows(rows) <==> r in rows
    {
      assert r in rows <==> r in multiset(rows);
      assert r in SortRows(rows) <==> r in multiset(SortRows(rows));
    }
  }

  /** Paging through the orders shows the user's own, and all of them unless a page break falls
      between two of one millisecond. */
  lemma {:induction false} OrdersWalkShowsAll(orders: seq<Row<Order>>, labels: set<string>, user: string, q: Query,
                                              server: Server<Order>, pages: seq<seq<Row<Order>>>)
    requires WellFormed(orders) && Size(q) > 0 && q.offset.GetOr(0) == 0
    requires forall c :: GetOrders(orders, labels, user, q.(cursor := c), server(c))
    requires IsWalk(server, None, pages)
    ensures ShowsAll(Flatten(pages), (r: Row<Order>) => IsOwnOrder(r, orders, user, q))
  {
    var rows := Filter(orders, OrderMatches(user, q));
    QueryMeaning(q);
    OrdersWalk(orders, labels, user, q, server, pages);
    DropNothing(SortRows(rows));
    OwnOrders(orders, user, q);
    WalkShowsAll(rows, Size(q), (r: Row<Order>) => IsOwnOrder(r, orders, user, q));
  }

  /** Paging through the trades, likewise. */
  lemma {:induction false} TradesWalkShowsAll(trades: seq<Row<Trade>>, lookup: PnlLookup, user: string, q: Query,
                                              server: Server<(Trade, Option<PnlEvent>)>, pages: seq<seq<TradeRow>>)
    requires WellFormed(trades) && Size(q) > 0 && q.offset.GetOr(0) == 0 && forall t :: |lookup(t)| <= 1
    requires forall c :: GetTrades(trades, lookup, user, q.(cursor := c), server(c))
    requires IsWalk(server, None, pages)
    ensures ShowsAll(Flatten(pages), (r: TradeRow) => exists t :: IsShownTrade(r, t, trades, lookup, user, q))
  {
    var rows := UserTrades(trades, lookup, user, q);
    QueryMeaning(q);
    TradesWalk(trades, lookup, user, q, server, pages);
    DropNothing(SortRows(rows));
    UserTradesMembers(trades, lookup, user, q);
    WalkShowsAll(rows, Size(q), (r: TradeRow) => exists t :: IsShownTrade(r, t, trades, lookup, user, q));
  }

  // ---- Realised PnL --------------------------------------------------------------------

  /** Events shown for a trade: the user's own, recorded for that trade, or recorded for none, with
      its symbol, within five seconds. */
  ghost predicate Belongs(e: PnlEvent, t: Row<Trade>, events: seq<PnlEvent>, user: string) {
    && e in events && e.user == user
    && (e.tradeId == Some(t.key.id)
        || (e.tradeId.None? && e.symbol == t.body.symbol && t.key.ts - 5_000_000 <= e.ts <= t.key.ts + 5_000_000))
  }

  /** How far apart the event and the trade are. */
  function Gap(e: PnlEvent, t: Row<Trade>): int {
    if e.ts >= t.key.ts then e.ts - t.key.ts else t.key.ts - e.ts
  }

  /** A listed trade shows an event exactly if one belongs to it: one recorded for the trade itself
      if there is any, and the nearest in time among equals. */
  lemma {:induction false} ListedPnl(trades: seq<Row<Trade>>, events: seq<PnlEvent>, lookup: PnlLookup, user: string, q: Query,
                                     response: Response<(Trade, Option<PnlEvent>)>, row: TradeRow)
    requires UniqueKeys(trades) && IsPnlLookup(lookup, events, user)
    requires GetTrades(trades, lookup, user, q, response) && response.Listing? && row in response.rows && Size(q) >= 0
    ensures exists t ::
              && IsShownTrade(row, t, trades, lookup, user, q)
              && (row.body.1.None? <==> forall e :: !Belongs(e, t, events, user))
              && (row.body.1.Some? ==>
                    var shown := row.body.1.value;
                    && Belongs(shown, t, events, user)
                    && forall e | Belongs(e, t, events, user) ::
                         && (e.tradeId.Some? ==> shown.tradeId.Some?)
                         && (e.tradeId.Some? == shown.tradeId.Some? ==> Gap(shown, t) <= Gap(e, t)))
  {
    TradesListing(trades, lookup, user, q, response);
    var t :| IsShownTrade(row, t, trades, lookup, user, q);
    PickedPnl(t, events, lookup, user);
    hide ShowsNewest, GetTrades;
  }

  lemma {:induction false} PickedPnl(t: Row<Trade>, events: seq<PnlEvent>, lookup: PnlLookup, user: string)
    requires IsPnlLookup(lookup, events, user)
    ensures |lookup(t)| <= 1
    ensures lookup(t) == [] <==> forall e :: !Belongs(e, t, events, user)
    ensures lookup(t) != [] ==>
              var shown := lookup(t)[0];
              && Belongs(shown, t, events, user)
              && forall e | Belongs(e, t, events, user) ::
                   && (e.tradeId.Some? ==> shown.tradeId.Some?)
                   && (e.tradeId.Some? == shown.tradeId.Some? ==> Gap(shown, t) <= Gap(e, t))
  {
    assert PicksOne(lookup(t), events, t, user);
    assert forall e | e in events :: Candidate(e, t, user) <==> Belongs(e, t, events, user);
  }
}
