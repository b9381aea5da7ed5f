/** Paged history of one account: `GET /account/orders` and `GET /account/trades`.

    A request either skips `offset` rows or continues after an opaque cursor, and fetches one
    row more than the page holds to learn whether there is a next page.  `Serve` says what a
    page of a list of rows is.  `GetOrders` and `GetTrades` are the queries as written. */
module Account {
  import opened Cursor
  import opened Keyset
  import opened Sql
  import opened Wrappers

  const DEFAULT_LIMIT: int := 50
  const MAX_LIMIT: int := 200
  const PNL_WINDOW_MICROS: int := 5_000_000

  datatype Query = Query(symbol: Option<string>, status: Option<string>, limit: Option<int>,
                         offset: Option<int>, cursor: Option<string>)
  {
    function Limit(): int {
      var l := limit.GetOr(DEFAULT_LIMIT);
      if l <= MAX_LIMIT then l else MAX_LIMIT
    }

    function Offset(): int {
      offset.GetOr(0)
    }

    predicate CursorRejected() {
      cursor.Some? && ParseCursor(cursor.value).None?
    }

    function CursorPosition(): Option<Key> {
      if cursor.Some? then ParseCursor(cursor.value) else None
    }

    /** PostgreSQL rejects a negative LIMIT or OFFSET; OFFSET is only sent without a cursor. */
    predicate SqlRejected() {
      Limit() + 1 < 0 || (cursor.None? && Offset() < 0)
    }

    function Skip(): nat
      requires !SqlRejected()
    {
      if cursor.Some? then 0 else Offset()
    }
  }

  datatype Response<T> =
    | InvalidCursor
    | FetchFailed
    | Listing(rows: seq<Row<T>>, total: int, next: Option<string>)

  /** The response built from the fetched rows: drop the extra row, point at the last kept one. */
  function Respond<T>(fetched: seq<Row<T>>, q: Query): Response<T> {
    var hasMore := |fetched| > q.Limit();
    var rows := if hasMore && fetched != [] then fetched[..|fetched| - 1] else fetched;
    Listing(
      rows,
      if q.cursor.Some? then -1 else if hasMore then q.Offset() + q.Limit() + 1 else q.Offset() + |rows|,
      if hasMore && rows != [] then Some(BuildCursor(rows[|rows| - 1].key)) else None)
  }

  /** `(created_at, id) < cursor`, or no condition without a cursor. */
  function PastCursor<T>(c: Option<Key>): Row<T> -> bool {
    (r: Row<T>) => c.Some? ==> Before(c.value, r.key)
  }

  /** The page of `rows` a request asks for. */
  function Serve<T>(rows: seq<Row<T>>, q: Query): Response<T> {
    if q.CursorRejected() then InvalidCursor
    else if q.SqlRejected() then FetchFailed
    else Respond(PageOf(Filter(rows, PastCursor(q.CursorPosition())), q.Skip(), q.Limit() + 1), q)
  }

  /** A first page in terms of the sorted list: the rows after `offset`, a next cursor exactly if
      rows remain, and a total that is exact up to one row past the page. */
  lemma {:induction false} FirstPageMeaning<T(!new)>(rows: seq<Row<T>>, q: Query)
    requires q.cursor.None? && q.Limit() >= 0 && q.Offset() >= 0
    ensures
      var (n, o, l) := (|rows|, q.Offset(), q.Limit());
      var response := Serve(rows, q);
      && response.Listing? && response.rows == Take(Drop(SortRows(rows), o), l)
      && (response.next.Some? <==> n > o + l && l > 0)
      && response.total == if o > n then o else if n <= o + l then n else o + l + 1
  {
    KeepAll(rows, PastCursor(None));
    assert q.CursorPosition() == None;
    SortRowsCorrect(rows);
    hide SortRows, Filter;
    var fetched := PageOf(rows, q.Offset(), q.Limit() + 1);
    assert |fetched| > q.Limit() ==> fetched[..|fetched| - 1] == Take(Drop(SortRows(rows), q.Offset()), q.Limit());
  }

  lemma {:induction false} KeepAll<T(!new)>(s: seq<T>, f: T -> bool)
    requires forall x | x in s :: f(x)
    ensures Filter(s, f) == s
  {
    if s != [] {
      KeepAll(s[1..], f);
    }
  }

  // ---- Orders --------------------------------------------------------------------------

  datatype Order = Order(user: string, symbol: string, status: string, detail: int)

  function OrderMatches(user: string, q: Query): Row<Order> -> bool {
    (r: Row<Order>) =>
      && r.body.user == user
      && (q.symbol.Some? ==> r.body.symbol == q.symbol.value)
      && (q.status.Some? ==> r.body.status == q.status.value)
  }

  /** The text is cast to the database's `order_status` enum, whose labels are given. */
  predicate StatusRejected(q: Query, labels: set<string>) {
    q.status.Some? && q.status.value !in labels
  }

  ghost predicate GetOrders(orders: seq<Row<Order>>, labels: set<string>, user: string, q: Query, response: Response<Order>) {
    if q.CursorRejected() then response == InvalidCursor
    else if q.SqlRejected() || StatusRejected(q, labels) then response == FetchFailed
    else
      exists fetched ::
        && Page(fetched, Filter(orders, And(OrderMatches(user, q), PastCursor(q.CursorPosition()))),
                q.Skip(), q.Limit() + 1)
        && response == Respond(fetched, q)
  }

  /** The orders endpoint serves pages of the user's matching orders, unless the status is unknown. */
  lemma {:induction false} OrdersServePages(orders: seq<Row<Order>>, labels: set<string>, user: string, q: Query,
                                            response: Response<Order>)
    requires UniqueKeys(orders)
    ensures GetOrders(orders, labels, user, q, response)
       <==> response == if !q.CursorRejected() && StatusRejected(q, labels) then FetchFailed
                        else Serve(Filter(orders, OrderMatches(user, q)), q)
  {
    if !q.CursorRejected() && !q.SqlRejected() && !StatusRejected(q, labels) {
      var past := PastCursor(q.CursorPosition());
      var rows := Filter(orders, And(OrderMatches(user, q), past));
      FilterFilter(orders, OrderMatches(user, q), past);
      FilterDrawn(orders, And(OrderMatches(user, q), past));
      PageUniqueAll(rows, q.Skip(), q.Limit() + 1, orders);
    }
  }

  // ---- Trades --------------------------------------------------------------------------

  datatype Trade = Trade(symbol: string, maker: string, taker: string, detail: int)

  /** One row per side of a trade in `realized_pnl_events`. */
  datatype PnlEvent = PnlEvent(user: string, tradeId: Option<nat>, symbol: string, ts: int, pnl: int)

  type PnlLookup = Row<Trade> -> seq<PnlEvent>
  type TradeRow = Row<(Trade, Option<PnlEvent>)>

  predicate ExactHit(e: PnlEvent, t: Row<Trade>) {
    e.tradeId == Some(t.key.id)
  }

  function Distance(e: PnlEvent, t: Row<Trade>): nat {
    if e.ts < t.key.ts then t.key.ts - e.ts else e.ts - t.key.ts
  }

  predicate Candidate(e: PnlEvent, t: Row<Trade>, user: string) {
    e.user == user &&
    (ExactHit(e, t) || (e.tradeId.None? && e.symbol == t.body.symbol && Distance(e, t) <= PNL_WINDOW_MICROS))
  }

  /** Exact hits first, then the nearest in time. */
  predicate Preferred(e: PnlEvent, f: PnlEvent, t: Row<Trade>) {
    (ExactHit(e, t) && !ExactHit(f, t)) ||
    (ExactHit(e, t) == ExactHit(f, t) && Distance(e, t) < Distance(f, t))
  }

  /** The subquery `... ORDER BY ... LIMIT 1`: any candidate no other is preferred to. */
  ghost predicate PicksOne(picked: seq<PnlEvent>, events: seq<PnlEvent>, t: Row<Trade>, user: string) {
    && |picked| <= 1
    && (picked == [] ==> forall e | e in events :: !Candidate(e, t, user))
    && (picked != [] ==>
          && picked[0] in events && Candidate(picked[0], t, user)
          && forall e | e in events && Candidate(e, t, user) :: !Preferred(e, picked[0], t))
  }

  ghost predicate IsPnlLookup(lookup: PnlLookup, events: seq<PnlEvent>, user: string) {
    forall t :: PicksOne(lookup(t), events, t, user)
  }

  function SymbolMatches(q: Query): Row<Trade> -> bool {
    (r: Row<Trade>) => q.symbol.Some? ==> r.body.symbol == q.symbol.value
  }

  function MakerIs(user: string): Row<Trade> -> bool {
    (r: Row<Trade>) => r.body.maker == user
  }

  function TakerOnly(user: string): Row<Trade> -> bool {
    (r: Row<Trade>) => r.body.taker == user && r.body.maker != user
  }

  /** `maker_address = user OR taker_address = user`. */
  function Party(user: string): Row<Trade> -> bool {
    (r: Row<Trade>) => r.body.maker == user || r.body.taker == user
  }

  /** Rows each UNION ALL branch must contribute. */
  function BranchLimit(q: Query): nat
    requires !q.SqlRejected()
  {
    if q.cursor.Some? then q.Limit() + 1 else q.Offset() + (q.Limit() + 1)
  }

  /** The query as written: two limited branches, UNION ALL, lateral join, outer page. */
  ghost predicate GetTrades(trades: seq<Row<Trade>>, lookup: PnlLookup, user: string, q: Query,
                            response: Response<(Trade, Option<PnlEvent>)>)
  {
    if q.CursorRejected() then response == InvalidCursor
    else if q.SqlRejected() then response == FetchFailed
    else
      var inner := And(SymbolMatches(q), PastCursor(q.CursorPosition()));
      exists made, taken, fetched ::
        && Page(made, Filter(trades, And(MakerIs(user), inner)), 0, BranchLimit(q))
        && Page(taken, Filter(trades, And(TakerOnly(user), inner)), 0, BranchLimit(q))
        && Page(fetched, LeftJoin(made + taken, lookup), q.Skip(), q.Limit() + 1)
        && response == Respond(fetched, q)
  }

  /** All rows the single-query form `maker = user OR taker = user` ranges over. */
  function UserTrades(trades: seq<Row<Trade>>, lookup: PnlLookup, user: string, q: Query): seq<TradeRow> {
    LeftJoin(Filter(trades, And(Party(user), SymbolMatches(q))), lookup)
  }

  lemma {:induction false} FilterDrawn<T(!new)>(rows: seq<Row<T>>, f: Row<T> -> bool)
    ensures DrawnFrom(Filter(rows, f), rows)
  {
    FilterMember(rows, f);
  }

  lemma {:induction false} JoinDrawn<A(!new), B>(part: seq<Row<A>>, table: seq<Row<A>>, sub: Row<A> -> seq<B>)
    requires DrawnFrom(part, table) && forall r :: |sub(r)| <= 1
    ensures DrawnFrom(LeftJoin(part, sub), LeftJoin(table, sub))
    ensures Keys(LeftJoin(part, sub)) == Keys(part)
    ensures UniqueKeys(table) ==> UniqueKeys(LeftJoin(table, sub))
  {
    LeftJoinKeepsRows(part, sub);
    LeftJoinKeepsRows(table, sub);
    forall r | r in LeftJoin(part, sub)
      ensures r in LeftJoin(table, sub)
    {
      var i :| 0 <= i < |part| && LeftJoin(part, sub)[i] == r;
      assert part[i] in table;
      var j :| 0 <= j < |table| && table[j] == part[i];
      assert LeftJoin(table, sub)[j] == r;
    }
  }

  lemma {:induction false} TakeDrop<T>(s: seq<T>, o: nat, l: nat)
    ensures Take(Drop(s, o), l) == Drop(Take(s, o + l), o)
  {
  }

  /** The two branches together hold each of the user's trades exactly once. */
  lemma {:induction false} BranchesPartition(trades: seq<Row<Trade>>, user: string, inner: Row<Trade> -> bool)
    ensures Sort(Keys(Filter(trades, And(MakerIs(user), inner))) + Keys(Filter(trades, And(TakerOnly(user), inner))))
         == Sort(Keys(Filter(trades, And(Party(user), inner))))
  {
    var all := And(Party(user), inner);
    var (made, taken) := (And(MakerIs(user), inner), And(TakerOnly(user), inner));
    FilterSplit(trades, all, MakerIs(user));
    FilterAgree(trades, And(all, MakerIs(user)), made);
    FilterAgree(trades, AndNot(all, MakerIs(user)), taken);
    SameElementsSameOrder(Filter(trades, made) + Filter(trades, taken), Filter(trades, all));
    assert Keys(Filter(trades, made) + Filter(trades, taken)) == Keys(Filter(trades, made)) + Keys(Filter(trades, taken));
  }

  lemma {:induction false} SameElementsSameOrder<T>(a: seq<Row<T>>, b: seq<Row<T>>)
    requires multiset(a) == multiset(b)
    ensures Sort(Keys(a)) == Sort(Keys(b))
  {
    SameRowsSameKeys(a, b);
    SortCorrect(Keys(a));
    SortCorrect(Keys(b));
    SortedUnique(Sort(Keys(a)), Sort(Keys(b)));
  }

  /** Cutting both branches to `offset + limit` keys before the union loses nothing. */
  lemma {:induction false} UnionKeys(a: seq<Key>, b: seq<Key>, all: seq<Key>, offset: nat, limit: nat)
    requires Sort(a + b) == Sort(all)
    ensures
      var (x, y) := (Take(Drop(Sort(a), 0), offset + limit), Take(Drop(Sort(b), 0), offset + limit));
      Take(Drop(Sort(x + y), offset), limit) == Take(Drop(Sort(all), offset), limit)
  {
    var n := offset + limit;
    assert Drop(Sort(a), 0) == Sort(a) && Drop(Sort(b), 0) == Sort(b);
    TopOfTop(a, n, n);
    TopOfTop(b, n, n);
    TopCongruence(Take(Sort(a), n), Take(Sort(b), n), a, b, n);
    TakeDrop(Sort(Take(Sort(a), n) + Take(Sort(b), n)), offset, limit);
    TakeDrop(Sort(all), offset, limit);
  }

  /** The first rows of the two branches, together. */
  function BranchRows(trades: seq<Row<Trade>>, user: string, inner: Row<Trade> -> bool, n: nat): seq<Row<Trade>> {
    PageOf(Filter(trades, And(MakerIs(user), inner)), 0, n) + PageOf(Filter(trades, And(TakerOnly(user), inner)), 0, n)
  }

  lemma {:induction false} ConcatRows<T>(a: seq<Row<T>>, b: seq<Row<T>>, table: seq<Row<T>>)
    requires DrawnFrom(a, table) && DrawnFrom(b, table)
    ensures DrawnFrom(a + b, table) && Keys(a + b) == Keys(a) + Keys(b)
  {
  }

  lemma {:induction false} FilterPage(trades: seq<Row<Trade>>, f: Row<Trade> -> bool, n: nat)
    ensures DrawnFrom(PageOf(Filter(trades, f), 0, n), trades)
    ensures Keys(PageOf(Filter(trades, f), 0, n)) == Take(Drop(Sort(Keys(Filter(trades, f))), 0), n)
  {
    FilterDrawn(trades, f);
    PageOfKeys(Filter(trades, f), 0, n);
  }

  lemma {:induction false} BranchRowsKeys(trades: seq<Row<Trade>>, user: string, inner: Row<Trade> -> bool, n: nat)
    ensures DrawnFrom(BranchRows(trades, user, inner, n), trades)
    ensures Keys(BranchRows(trades, user, inner, n))
         == Take(Drop(Sort(Keys(Filter(trades, And(MakerIs(user), inner)))), 0), n)
          + Take(Drop(Sort(Keys(Filter(trades, And(TakerOnly(user), inner)))), 0), n)
  {
    FilterPage(trades, And(MakerIs(user), inner), n);
    FilterPage(trades, And(TakerOnly(user), inner), n);
    ConcatRows(PageOf(Filter(trades, And(MakerIs(user), inner)), 0, n),
               PageOf(Filter(trades, And(TakerOnly(user), inner)), 0, n), trades);
  }

  /** The outer page over the two cut branches is the page over all of the user's trades. */
  lemma {:induction false} UnionPage(trades: seq<Row<Trade>>, lookup: PnlLookup, user: string, inner: Row<Trade> -> bool,
                  offset: nat, limit: nat)
    requires UniqueKeys(trades) && forall t :: |lookup(t)| <= 1
    ensures PageOf(LeftJoin(BranchRows(trades, user, inner, offset + limit), lookup), offset, limit)
         == PageOf(LeftJoin(Filter(trades, And(Party(user), inner)), lookup), offset, limit)
  {
    var (both, all) := (BranchRows(trades, user, inner, offset + limit), Filter(trades, And(Party(user), inner)));
    BranchRowsKeys(trades, user, inner, offset + limit);
    FilterDrawn(trades, And(Party(user), inner));
    JoinDrawn(both, trades, lookup);
    JoinDrawn(all, trades, lookup);
    var (left, right) := (LeftJoin(both, lookup), LeftJoin(all, lookup));
    PageOfKeys(left, offset, limit);
    PageOfKeys(right, offset, limit);
    BranchesPartition(trades, user, inner);
    UnionKeys(Keys(Filter(trades, And(MakerIs(user), inner))), Keys(Filter(trades, And(TakerOnly(user), inner))),
              Keys(all), offset, limit);
    KeysDetermineRows(PageOf(left, offset, limit), PageOf(right, offset, limit), LeftJoin(trades, lookup));
  }

  lemma {:induction false} LeftJoinFilter<A(!new), B>(rows: seq<Row<A>>, sub: Row<A> -> seq<B>, c: Option<Key>)
    requires forall r :: |sub(r)| <= 1
    ensures LeftJoin(Filter(rows, PastCursor(c)), sub) == Filter(LeftJoin(rows, sub), PastCursor(c))
  {
    if rows != [] {
      LeftJoinFilter(rows[1..], sub, c);
      LeftJoinKeepsRows([rows[0]], sub);
      var j := JoinRow(rows[0], sub(rows[0]));
      assert j == [Joined(rows[0], sub)];
      assert LeftJoin(rows, sub)[1..] == LeftJoin(rows[1..], sub);
      var kept := Filter(rows[1..], PastCursor(c));
      if PastCursor(c)(rows[0]) {
        assert Filter(rows, PastCursor(c)) == [rows[0]] + kept;
        assert ([rows[0]] + kept)[1..] == kept;
      } else {
        assert Filter(rows, PastCursor(c)) == kept;
      }
    }
  }

  lemma {:induction false} PageUniqueAll<T(!new)>(rows: seq<Row<T>>, offset: nat, limit: nat, table: seq<Row<T>>)
    requires UniqueKeys(table) && DrawnFrom(rows, table)
    ensures forall out :: Page(out, rows, offset, limit) <==> out == PageOf(rows, offset, limit)
  {
    forall out
      ensures Page(out, rows, offset, limit) <==> out == PageOf(rows, offset, limit)
    {
      PageUnique(out, rows, offset, limit, table);
    }
  }

  /** Neither the branches nor the outer page of the query leave a choice of rows. */
  lemma {:induction false} TradesDetermined(trades: seq<Row<Trade>>, lookup: PnlLookup, user: string, q: Query,
                         response: Response<(Trade, Option<PnlEvent>)>)
    requires UniqueKeys(trades) && forall t :: |lookup(t)| <= 1
    requires !q.CursorRejected() && !q.SqlRejected()
    ensures
      var both := BranchRows(trades, user, And(SymbolMatches(q), PastCursor(q.CursorPosition())), BranchLimit(q));
      GetTrades(trades, lookup, user, q, response)
      <==> response == Respond(PageOf(LeftJoin(both, lookup), q.Skip(), q.Limit() + 1), q)
  {
    var inner := And(SymbolMatches(q), PastCursor(q.CursorPosition()));
    var n := BranchLimit(q);
    BranchRowsKeys(trades, user, inner, n);
    FilterDrawn(trades, And(MakerIs(user), inner));
    FilterDrawn(trades, And(TakerOnly(user), inner));
    PageUniqueAll(Filter(trades, And(MakerIs(user), inner)), 0, n, trades);
    PageUniqueAll(Filter(trades, And(TakerOnly(user), inner)), 0, n, trades);
    var both := BranchRows(trades, user, inner, n);
    JoinDrawn(both, trades, lookup);
    PageUniqueAll(LeftJoin(both, lookup), q.Skip(), q.Limit() + 1, LeftJoin(trades, lookup));
  }

  /** The cursor condition may be applied to the joined rows instead of inside the branches. */
  lemma {:induction false} CursorCommutes(trades: seq<Row<Trade>>, lookup: PnlLookup, base: Row<Trade> -> bool, c: Option<Key>)
    requires forall t :: |lookup(t)| <= 1
    ensures Filter(LeftJoin(Filter(trades, base), lookup), PastCursor(c))
         == LeftJoin(Filter(trades, And(base, PastCursor(c))), lookup)
  {
    LeftJoinFilter(Filter(trades, base), lookup, c);
    FilterFilter(trades, base, PastCursor(c));
  }

  /** Page by page: the branches against the single query with the cursor applied last. */
  lemma {:induction false} PagesAgree(trades: seq<Row<Trade>>, lookup: PnlLookup, user: string, symbol: Row<Trade> -> bool,
                                      c: Option<Key>, offset: nat, limit: nat)
    requires UniqueKeys(trades) && forall t :: |lookup(t)| <= 1
    ensures
      var both := BranchRows(trades, user, And(symbol, PastCursor(c)), offset + limit);
      var all := LeftJoin(Filter(trades, And(Party(user), symbol)), lookup);
      PageOf(LeftJoin(both, lookup), offset, limit) == PageOf(Filter(all, PastCursor(c)), offset, limit)
  {
    UnionPage(trades, lookup, user, And(symbol, PastCursor(c)), offset, limit);
    CursorCommutes(trades, lookup, And(Party(user), symbol), c);
    FilterAgree(trades, And(And(Party(user), symbol), PastCursor(c)), And(Party(user), And(symbol, PastCursor(c))));
  }

  lemma {:induction false} BranchesServe(trades: seq<Row<Trade>>, lookup: PnlLookup, user: string, q: Query)
    requires UniqueKeys(trades) && forall t :: |lookup(t)| <= 1
    requires !q.CursorRejected() && !q.SqlRejected()
    ensures
      var both := BranchRows(trades, user, And(SymbolMatches(q), PastCursor(q.CursorPosition())), BranchLimit(q));
      Respond(PageOf(LeftJoin(both, lookup), q.Skip(), q.Limit() + 1), q) == Serve(UserTrades(trades, lookup, user, q), q)
  {
    hide *;
    ServeUnfold(UserTrades(trades, lookup, user, q), q);
    BranchLimitIs(q);
    PagesAgree(trades, lookup, user, SymbolMatches(q), q.CursorPosition(), q.Skip(), q.Limit() + 1);
    UserTradesIs(trades, lookup, user, q);
  }

  lemma {:induction false} UserTradesIs(trades: seq<Row<Trade>>, lookup: PnlLookup, user: string, q: Query)
    ensures UserTrades(trades, lookup, user, q) == LeftJoin(Filter(trades, And(Party(user), SymbolMatches(q))), lookup)
  {
  }

  lemma {:induction false} BranchLimitIs(q: Query)
    requires !q.SqlRejected()
    ensures q.Limit() + 1 >= 0 && BranchLimit(q) == q.Skip() + (q.Limit() + 1)
  {
  }

  lemma {:induction false} ServeUnfold<T>(rows: seq<Row<T>>, q: Query)
    requires !q.CursorRejected() && !q.SqlRejected()
    ensures q.Limit() + 1 >= 0
    ensures Serve(rows, q) == Respond(PageOf(Filter(rows, PastCursor(q.CursorPosition())), q.Skip(), q.Limit() + 1), q)
  {
  }

  /** The rewritten trades query answers exactly as the single `maker OR taker` query would:
      same rows, same total, same next cursor, for every limit, offset, symbol and cursor. */
  lemma {:induction false} TradesServePages(trades: seq<Row<Trade>>, lookup: PnlLookup, user: string, q: Query,
                         response: Response<(Trade, Option<PnlEvent>)>)
    requires UniqueKeys(trades) && forall t :: |lookup(t)| <= 1
    ensures GetTrades(trades, lookup, user, q, response)
       <==> response == Serve(UserTrades(trades, lookup, user, q), q)
  {
    if !q.CursorRejected() && !q.SqlRejected() {
      TradesDetermined(trades, lookup, user, q, response);
      BranchesServe(trades, lookup, user, q);
    }
  }

  lemma {:induction false} ServedRowsDrawn<T(!new)>(rows: seq<Row<T>>, q: Query)
    requires Serve(rows, q).Listing?
    ensures DrawnFrom(Serve(rows, q).rows, rows)
  {
    var page := Filter(rows, PastCursor(q.CursorPosition()));
    FilterDrawn(rows, PastCursor(q.CursorPosition()));
    PageOfKeys(page, q.Skip(), q.Limit() + 1);
  }

  /** A trade is never shown with another account's realised PnL, and an event recorded for
      that very trade wins over one matched by time. */
  lemma {:induction false} TradesShowOwnPnl(trades: seq<Row<Trade>>, events: seq<PnlEvent>, lookup: PnlLookup, user: string, q: Query,
                         response: Response<(Trade, Option<PnlEvent>)>, row: TradeRow)
    requires UniqueKeys(trades) && IsPnlLookup(lookup, events, user)
    requires GetTrades(trades, lookup, user, q, response) && response.Listing? && row in response.rows
    ensures
      var (trade, pnl) := (Row(row.key, row.body.0), row.body.1);
      && trade in trades && Party(user)(trade)
      && (pnl.Some? ==> pnl.value.user == user)
      && forall e | e in events && e.user == user && ExactHit(e, trade) :: pnl.Some? && ExactHit(pnl.value, trade)
  {
    TradesServePages(trades, lookup, user, q, response);
    var base := Filter(trades, And(Party(user), SymbolMatches(q)));
    ServedRowsDrawn(UserTrades(trades, lookup, user, q), q);
    FilterMember(trades, And(Party(user), SymbolMatches(q)));
    LeftJoinKeepsRows(base, lookup);
    var i :| 0 <= i < |base| && UserTrades(trades, lookup, user, q)[i] == row;
    assert base[i] in base;
    JoinedPnl(base[i], events, lookup, user);
  }

  lemma {:induction false} JoinedPnl(t: Row<Trade>, events: seq<PnlEvent>, lookup: PnlLookup, user: string)
    requires IsPnlLookup(lookup, events, user)
    ensures
      var pnl := Joined(t, lookup).body.1;
      && (pnl.Some? ==> pnl.value.user == user)
      && forall e | e in events && e.user == user && ExactHit(e, t) :: pnl.Some? && ExactHit(pnl.value, t)
  {
  }
}
