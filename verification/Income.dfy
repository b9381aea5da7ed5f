/** `GET /fapi/v1/income`: realised PnL, funding fees and commissions in one newest-first list.

    Each stream is queried with its own `ORDER BY created_at DESC LIMIT`, the commission stream
    as a UNION ALL of two such legs cut once more; a failed query contributes nothing.  These
    queries order by time alone, so every row carries the sort key `(time, 0)` and `Page` leaves
    the order of simultaneous rows open. */
module Income {
  import opened Cursor
  import opened Keyset
  import opened Sql
  import opened Wrappers

  const DEFAULT_LIMIT: int := 100
  const MAX_LIMIT: int := 1000
  const MAX_END_MILLIS: int := 253_402_300_799_000

  datatype Kind = REALIZED_PNL | FUNDING_FEE | COMMISSION

  function KindName(k: Kind): string {
    match k
    case REALIZED_PNL => "REALIZED_PNL"
    case FUNDING_FEE => "FUNDING_FEE"
    case COMMISSION => "COMMISSION"
  }

  /** `incomeType` is any text; one that names no kind selects nothing. `now` stands for the clock
      read when an end time does not denote a date. */
  datatype Query = Query(symbol: Option<string>, incomeType: Option<string>, startMillis: Option<int>,
                         endMillis: Option<int>, limit: Option<int>, now: int)
  {
    function Limit(): int {
      var l := limit.GetOr(DEFAULT_LIMIT);
      if l <= MAX_LIMIT then l else MAX_LIMIT
    }

    /** Rows the response may hold; PostgreSQL rejects a negative LIMIT. */
    function Allowed(): nat {
      if Limit() < 0 then 0 else Limit()
    }

    predicate Wants(k: Kind) {
      incomeType.None? || incomeType.value == KindName(k)
    }

    function Start(): int {
      var s := startMillis.GetOr(0);
      if MIN_MILLIS <= s <= MAX_MILLIS then s * 1000 else 0
    }

    function End(): int {
      var e := endMillis.GetOr(I64_MAX);
      var capped := if e <= MAX_END_MILLIS then e else MAX_END_MILLIS;
      if MIN_MILLIS <= capped <= MAX_MILLIS then capped * 1000 else now
    }
  }

  /** A row of `realized_pnl_events` or `funding_settlements`. */
  datatype Entry = Entry(user: string, symbol: string, amount: int, ts: int, id: nat)

  datatype Fill = Fill(symbol: string, maker: string, taker: string, makerFee: int, takerFee: int, ts: int, id: nat)

  datatype Income = Income(symbol: string, kind: Kind, amount: int, tranId: nat)

  /** One element of the response; `time` in milliseconds. */
  datatype Item = Item(time: int, income: Income)

  type Stream = seq<Row<Income>>

  datatype Tables = Tables(pnl: seq<Entry>, funding: seq<Entry>, trades: seq<Fill>)

  function EntryRow(kind: Kind): Entry -> Row<Income> {
    (e: Entry) => Row(Key(e.ts, 0), Income(e.symbol, kind, e.amount, e.id))
  }

  /** The symbol is a condition on PnL and funding only. */
  function EntryMatches(user: string, q: Query): Entry -> bool {
    (e: Entry) => e.user == user && (q.symbol.Some? ==> e.symbol == q.symbol.value)
  }

  function EntryStream(kind: Kind, entries: seq<Entry>, user: string, q: Query): Stream {
    Map(EntryRow(kind), Filter(entries, EntryMatches(user, q)))
  }

  /** The time window is a condition on commissions only. */
  function InWindow(q: Query): Fill -> bool {
    (f: Fill) => q.Start() <= f.ts <= q.End()
  }

  function MakerLeg(trades: seq<Fill>, user: string, q: Query): Stream {
    Map((f: Fill) => Row(Key(f.ts, 0), Income(f.symbol, COMMISSION, -f.makerFee, f.id)),
        Filter(trades, And((f: Fill) => f.maker == user, InWindow(q))))
  }

  function TakerLeg(trades: seq<Fill>, user: string, q: Query): Stream {
    Map((f: Fill) => Row(Key(f.ts, 0), Income(f.symbol, COMMISSION, -f.takerFee, f.id)),
        Filter(trades, And((f: Fill) => f.taker == user, InWindow(q))))
  }

  /** What the three queries may return; a stream that is not wanted or fails is empty. */
  ghost predicate Fetched(pnl: Stream, funding: Stream, fees: Stream, up: set<Kind>, t: Tables, user: string, q: Query) {
    var live := (k: Kind) => q.Wants(k) && k in up && q.Limit() >= 0;
    && (if live(REALIZED_PNL) then Page(pnl, EntryStream(REALIZED_PNL, t.pnl, user, q), 0, q.Limit()) else pnl == [])
    && (if live(FUNDING_FEE) then Page(funding, EntryStream(FUNDING_FEE, t.funding, user, q), 0, q.Limit()) else funding == [])
    && (if live(COMMISSION) then CommissionPage(fees, t.trades, user, q) else fees == [])
  }

  ghost predicate CommissionPage(fees: Stream, trades: seq<Fill>, user: string, q: Query)
    requires q.Limit() >= 0
  {
    exists made, taken ::
      && Page(made, MakerLeg(trades, user, q), 0, q.Limit())
      && Page(taken, TakerLeg(trades, user, q), 0, q.Limit())
      && Page(fees, made + taken, 0, q.Limit())
  }

  /** Everything the wanted and answering streams hold, uncut. */
  function FullUnion(up: set<Kind>, t: Tables, user: string, q: Query): Stream {
    (if q.Wants(REALIZED_PNL) && REALIZED_PNL in up then EntryStream(REALIZED_PNL, t.pnl, user, q) else [])
    + (if q.Wants(FUNDING_FEE) && FUNDING_FEE in up then EntryStream(FUNDING_FEE, t.funding, user, q) else [])
    + (if q.Wants(COMMISSION) && COMMISSION in up then MakerLeg(t.trades, user, q) + TakerLeg(t.trades, user, q) else [])
  }

  function ToItem(r: Row<Income>): Item {
    Item(Millis(r.key.ts), r.body)
  }

  function Items(rows: Stream): (items: seq<Item>)
    ensures |items| == |rows|
  {
    Map(ToItem, rows)
  }

  /** The times of a list of items, as keys. */
  function Times(items: seq<Item>): (times: seq<Key>)
    ensures |times| == |items|
  {
    Map((i: Item) => Key(i.time, 0), items)
  }

  function InsertItem(x: Item, s: seq<Item>): seq<Item> {
    if s == [] || x.time >= s[0].time then [x] + s else [s[0]] + InsertItem(x, s[1..])
  }

  /** `sort_by(|a, b| b.time.cmp(&a.time))`, which is stable. */
  function SortItems(s: seq<Item>): seq<Item> {
    if s == [] then [] else InsertItem(s[0], SortItems(s[1..]))
  }

  /** `truncate(limit as usize)`: a negative limit becomes a huge length. */
  function Truncate(items: seq<Item>, limit: int): seq<Item> {
    if limit < 0 then items else Take(items, limit)
  }

  /** Push the rows of the three answers, sort, truncate. */
  method Assemble(pnl: Stream, funding: Stream, fees: Stream, limit: int) returns (items: seq<Item>)
    ensures items == Truncate(SortItems(Items(pnl + funding + fees)), limit)
  {
    items := [];
    for i := 0 to |pnl|
      invariant items == Items(pnl[..i])
    {
      items := items + [ToItem(pnl[i])];
    }
    assert pnl[..|pnl|] == pnl;
    for i := 0 to |funding|
      invariant items == Items(pnl + funding[..i])
    {
      items := items + [ToItem(funding[i])];
    }
    assert funding[..|funding|] == funding;
    for i := 0 to |fees|
      invariant items == Items(pnl + funding + fees[..i])
    {
      items := items + [ToItem(fees[i])];
    }
    assert fees[..|fees|] == fees;
    items := Truncate(SortItems(items), limit);
  }

  // ---- Proofs --------------------------------------------------------------------------

  lemma {:induction false} SortedTimesCons(x: Item, s: seq<Item>)
    requires Sorted(Times(s)) && forall y | y in s :: x.time >= y.time
    ensures Sorted(Times([x] + s))
  {
  }

  lemma {:induction false} SortedTimesHead(s: seq<Item>)
    requires Sorted(Times(s)) && s != []
    ensures Sorted(Times(s[1..])) && forall y | y in s :: s[0].time >= y.time
  {
  }

  lemma {:induction false} InsertItemCorrect(x: Item, s: seq<Item>)
    requires Sorted(Times(s))
    ensures Sorted(Times(InsertItem(x, s)))
    ensures multiset(InsertItem(x, s)) == multiset(s) + multiset{x}
  {
    if s == [] {
    } else {
      SortedTimesHead(s);
      if x.time >= s[0].time {
        SortedTimesCons(x, s);
      } else {
        InsertItemCorrect(x, s[1..]);
        var t := InsertItem(x, s[1..]);
        assert s == [s[0]] + s[1..];
        forall y | y in t ensures s[0].time >= y.time { assert y in multiset(t); assert y == x || y in s[1..]; }
        SortedTimesCons(s[0], t);
      }
    }
  }

  lemma {:induction false} SortItemsCorrect(s: seq<Item>)
    ensures Sorted(Times(SortItems(s))) && multiset(SortItems(s)) == multiset(s)
  {
    if s != [] {
      SortItemsCorrect(s[1..]);
      InsertItemCorrect(s[0], SortItems(s[1..]));
      assert s == [s[0]] + s[1..];
    }
  }

  /** Cutting a key to milliseconds. */
  function MsKey(k: Key): Key {
    Key(Millis(k.ts), 0)
  }

  predicate ByTime(keys: seq<Key>) {
    forall k | k in keys :: k.id == 0
  }

  /** Milliseconds keep the order of times, so they commute with sorting. */
  lemma {:induction false} SortMs(keys: seq<Key>)
    requires ByTime(keys)
    ensures Sort(Map(MsKey, keys)) == Map(MsKey, Sort(keys))
  {
    var s := Sort(keys);
    SortCorrect(keys);
    MapPermutation(MsKey, s, keys);
    forall i, j | 0 <= i < j < |s|
      ensures NotAfter(Map(MsKey, s)[i], Map(MsKey, s)[j])
    {
      assert NotAfter(s[i], s[j]);
      assert s[i] in multiset(keys) && s[j] in multiset(keys);
      assert s[i].id == 0 && s[j].id == 0;
      assert s[i].ts >= s[j].ts;
    }
    SortCorrect(Map(MsKey, keys));
    SortedUnique(Sort(Map(MsKey, keys)), Map(MsKey, s));
  }

  lemma {:induction false} TakeMs(keys: seq<Key>, n: nat)
    ensures Take(Map(MsKey, keys), n) == Map(MsKey, Take(keys, n))
  {
  }

  /** `cut` comes from `all` and has the same newest `n` times. */
  ghost predicate SameTop(cut: Stream, all: Stream, n: nat) {
    Take(Sort(Keys(cut)), n) == Take(Sort(Keys(all)), n) && multiset(cut) <= multiset(all)
  }

  lemma {:induction false} PageTop(out: Stream, rows: Stream, n: nat)
    requires Page(out, rows, 0, n)
    ensures SameTop(out, rows, n)
  {
    hide Sort;
    var p :| Ordering(p, rows) && out == Take(Drop(p, 0), n);
    OrderingKeys(p, rows);
    TopOfTop(Keys(rows), n, n);
    assert Keys(out) == Take(Keys(p), n);
    assert p == out + p[|out|..];
  }

  lemma {:induction false} ConcatTop(a: Stream, b: Stream, x: Stream, y: Stream, n: nat)
    requires SameTop(a, x, n) && SameTop(b, y, n)
    ensures SameTop(a + b, x + y, n)
  {
    TopCongruence(Keys(a), Keys(b), Keys(x), Keys(y), n);
    assert Keys(a + b) == Keys(a) + Keys(b) && Keys(x + y) == Keys(x) + Keys(y);
  }

  lemma {:induction false} TransTop(a: Stream, b: Stream, c: Stream, n: nat)
    requires SameTop(a, b, n) && SameTop(b, c, n)
    ensures SameTop(a, c, n)
  {
  }

  lemma {:induction false} CommissionTop(fees: Stream, trades: seq<Fill>, user: string, q: Query)
    requires q.Limit() >= 0 && CommissionPage(fees, trades, user, q)
    ensures SameTop(fees, MakerLeg(trades, user, q) + TakerLeg(trades, user, q), q.Limit())
  {
    var n := q.Limit();
    var (m, t) := (MakerLeg(trades, user, q), TakerLeg(trades, user, q));
    var made, taken :| Page(made, m, 0, n) && Page(taken, t, 0, n) && Page(fees, made + taken, 0, n);
    PageTop(made, m, n);
    PageTop(taken, t, n);
    PageTop(fees, made + taken, n);
    ConcatTop(made, taken, m, t, n);
    TransTop(fees, made + taken, m + t, n);
  }

  /** The cut streams together have the newest times of the uncut union. */
  lemma {:induction false} FetchedTop(pnl: Stream, funding: Stream, fees: Stream, up: set<Kind>,
                                      t: Tables, user: string, q: Query)
    requires q.Limit() >= 0 && Fetched(pnl, funding, fees, up, t, user, q)
    ensures SameTop(pnl + funding + fees, FullUnion(up, t, user, q), q.Limit())
  {
    var n := q.Limit();
    var p := if q.Wants(REALIZED_PNL) && REALIZED_PNL in up then EntryStream(REALIZED_PNL, t.pnl, user, q) else [];
    var f := if q.Wants(FUNDING_FEE) && FUNDING_FEE in up then EntryStream(FUNDING_FEE, t.funding, user, q) else [];
    var c := if q.Wants(COMMISSION) && COMMISSION in up then MakerLeg(t.trades, user, q) + TakerLeg(t.trades, user, q) else [];
    assert SameTop(pnl, p, n) by {
      if q.Wants(REALIZED_PNL) && REALIZED_PNL in up { PageTop(pnl, p, n); }
    }
    assert SameTop(funding, f, n) by {
      if q.Wants(FUNDING_FEE) && FUNDING_FEE in up { PageTop(funding, f, n); }
    }
    assert SameTop(fees, c, n) by {
      if q.Wants(COMMISSION) && COMMISSION in up { CommissionTop(fees, t.trades, user, q); }
    }
    ConcatTop(pnl, funding, p, f, n);
    ConcatTop(pnl + funding, fees, p + f, c, n);
  }

  lemma {:induction false} TimesOfItems(rows: Stream)
    ensures Times(Items(rows)) == Map(MsKey, Keys(rows))
  {
  }

  lemma {:induction false} UnionByTime(up: set<Kind>, t: Tables, user: string, q: Query)
    ensures ByTime(Keys(FullUnion(up, t, user, q)))
  {
  }

  /** Sorting and truncating items keeps the newest times. */
  lemma {:induction false} TruncatedTimes(rows: Stream, n: nat)
    ensures Times(Truncate(SortItems(Items(rows)), n)) == Take(Sort(Times(Items(rows))), n)
    ensures multiset(Truncate(SortItems(Items(rows)), n)) <= multiset(Items(rows))
  {
    hide Sort, SortItems;
    var s := SortItems(Items(rows));
    var key := (i: Item) => Key(i.time, 0);
    SortItemsCorrect(Items(rows));
    MapPermutation(key, s, Items(rows));
    assert Times(s) == Map(key, s) && Times(Items(rows)) == Map(key, Items(rows));
    SortCorrect(Times(Items(rows)));
    SortedUnique(Times(s), Sort(Times(Items(rows))));
    assert Times(Truncate(s, n)) == Take(Times(s), n);
    assert s == Truncate(s, n) + s[|Truncate(s, n)|..];
  }

  /** The newest millisecond times are the newest times, cut to milliseconds. */
  lemma {:induction false} TopTimes(rows: Stream, n: nat)
    requires ByTime(Keys(rows))
    ensures Take(Sort(Times(Items(rows))), n) == Map(MsKey, Take(Sort(Keys(rows)), n))
  {
    TimesOfItems(rows);
    SortMs(Keys(rows));
    TakeMs(Sort(Keys(rows)), n);
  }

  lemma {:induction false} CutByTime(cut: Stream, all: Stream)
    requires multiset(cut) <= multiset(all) && ByTime(Keys(all))
    ensures ByTime(Keys(cut))
  {
    forall k | k in Keys(cut)
      ensures k.id == 0
    {
      var i :| 0 <= i < |cut| && cut[i].key == k;
      assert cut[i] in multiset(cut) && cut[i] in multiset(all);
      var j :| 0 <= j < |all| && all[j] == cut[i];
      assert Keys(all)[j] in Keys(all);
    }
  }

  /** A negative limit makes every query fail, and the response is empty. */
  lemma {:induction false} NegativeLimitIsEmpty(pnl: Stream, funding: Stream, fees: Stream, up: set<Kind>,
                                                t: Tables, user: string, q: Query)
    requires q.Limit() < 0 && Fetched(pnl, funding, fees, up, t, user, q)
    ensures Truncate(SortItems(Items(pnl + funding + fees)), q.Limit()) == []
  {
  }

  /** For every limit and every income type: although every stream was cut to `limit`, the response
      is newest first, its times are those of the newest items of the uncut union, as many as the
      limit allows, and its items come from there. */
  lemma {:induction false} IncomeIsTopOfUnion(pnl: Stream, funding: Stream, fees: Stream, up: set<Kind>,
                                              t: Tables, user: string, q: Query, items: seq<Item>)
    requires Fetched(pnl, funding, fees, up, t, user, q)
    requires items == Truncate(SortItems(Items(pnl + funding + fees)), q.Limit())
    ensures
      var all := Items(FullUnion(up, t, user, q));
      && Sorted(Times(items)) && Times(items) == Take(Sort(Times(all)), q.Allowed())
      && multiset(items) <= multiset(all)
  {
    var (cut, all) := (pnl + funding + fees, FullUnion(up, t, user, q));
    SortCorrect(Times(Items(all)));
    if q.Limit() < 0 {
      NegativeLimitIsEmpty(pnl, funding, fees, up, t, user, q);
    } else {
      FetchedTop(pnl, funding, fees, up, t, user, q);
      UnionByTime(up, t, user, q);
      CutByTime(cut, all);
      TruncatedTimes(cut, q.Limit());
      TopTimes(cut, q.Limit());
      TopTimes(all, q.Limit());
      MapSubset(ToItem, cut, all);
    }
  }
  // ---- What the response may hold ------------------------------------------------------

  /** The row of an event of the user, with the symbol asked for. */
  ghost predicate IsOwnEntry(r: Row<Income>, e: Entry, kind: Kind, entries: seq<Entry>, user: string, q: Query) {
    && e in entries && e.user == user && (q.symbol.Some? ==> e.symbol == q.symbol.value)
    && r.key.ts == e.ts && r.body == Income(e.symbol, kind, e.amount, e.id)
  }

  /** The time window in microseconds: from the epoch, to the end of the year 9999, by default; a
      start that is no date counts as the epoch, an end that is none as the clock. */
  predicate Inside(q: Query, ts: int) {
    && (if q.startMillis.Some? && -8_334_601_228_800_000 <= q.startMillis.value <= 8_210_266_876_799_999
        then q.startMillis.value * 1000 <= ts else 0 <= ts)
    && (if q.endMillis.None? || q.endMillis.value >= 253_402_300_799_000 then ts <= 253_402_300_799_000_000
        else if q.endMillis.value >= -8_334_601_228_800_000 then ts <= q.endMillis.value * 1000
        else ts <= q.now)
  }

  /** The row of a trade in the window of which the user was the maker. */
  ghost predicate IsMakerFee(r: Row<Income>, f: Fill, trades: seq<Fill>, user: string, q: Query) {
    && f in trades && Inside(q, f.ts) && f.maker == user
    && r.key.ts == f.ts && r.body == Income(f.symbol, COMMISSION, -f.makerFee, f.id)
  }

  /** The row of a trade in the window of which the user was the taker. */
  ghost predicate IsTakerFee(r: Row<Income>, f: Fill, trades: seq<Fill>, user: string, q: Query) {
    && f in trades && Inside(q, f.ts) && f.taker == user
    && r.key.ts == f.ts && r.body == Income(f.symbol, COMMISSION, -f.takerFee, f.id)
  }

  predicate Asked(q: Query, name: string) {
    q.incomeType.None? || q.incomeType.value == name
  }

  lemma {:induction false} EntryMembers(kind: Kind, entries: seq<Entry>, user: string, q: Query, r: Row<Income>)
    ensures r in EntryStream(kind, entries, user, q) <==> r.key.id == 0 && exists e :: IsOwnEntry(r, e, kind, entries, user, q)
  {
    var kept := Filter(entries, EntryMatches(user, q));
    FilterMember(entries, EntryMatches(user, q));
    if r in EntryStream(kind, entries, user, q) {
      var i :| 0 <= i < |kept| && EntryStream(kind, entries, user, q)[i] == r;
      assert kept[i] in kept && IsOwnEntry(r, kept[i], kind, entries, user, q);
    }
    if r.key.id == 0 && exists e :: IsOwnEntry(r, e, kind, entries, user, q) {
      var e :| IsOwnEntry(r, e, kind, entries, user, q);
      assert e in kept;
      var i :| 0 <= i < |kept| && kept[i] == e;
      assert EntryStream(kind, entries, user, q)[i] == r;
    }
  }

  lemma {:induction false} WindowMeaning(q: Query, f: Fill)
    ensures InWindow(q)(f) <==> Inside(q, f.ts)
  {
  }

  lemma {:induction false} LegMembers(rows: seq<Fill>, keep: Fill -> bool, row: Fill -> Row<Income>, r: Row<Income>)
    ensures r in Map(row, Filter(rows, keep)) <==> exists f | f in rows :: keep(f) && row(f) == r
  {
    var kept := Filter(rows, keep);
    FilterMember(rows, keep);
    if r in Map(row, kept) {
      var i :| 0 <= i < |kept| && Map(row, kept)[i] == r;
      assert kept[i] in kept;
    }
    if exists f | f in rows :: keep(f) && row(f) == r {
      var f :| f in rows && keep(f) && row(f) == r;
      assert f in kept;
      var i :| 0 <= i < |kept| && kept[i] == f;
      assert Map(row, kept)[i] == r;
    }
  }

  lemma {:induction false} MakerMembers(trades: seq<Fill>, user: string, q: Query, r: Row<Income>)
    ensures r in MakerLeg(trades, user, q) <==> r.key.id == 0 && exists f :: IsMakerFee(r, f, trades, user, q)
  {
    var keep := And((f: Fill) => f.maker == user, InWindow(q));
    var row := (f: Fill) => Row(Key(f.ts, 0), Income(f.symbol, COMMISSION, -f.makerFee, f.id));
    assert MakerLeg(trades, user, q) == Map(row, Filter(trades, keep));
    LegMembers(trades, keep, row, r);
    forall f
      ensures f in trades && keep(f) && row(f) == r <==> r.key.id == 0 && IsMakerFee(r, f, trades, user, q)
    {
      WindowMeaning(q, f);
    }
    hide MakerLeg, InWindow, Inside, IsMakerFee;
  }

  lemma {:induction false} TakerMembers(trades: seq<Fill>, user: string, q: Query, r: Row<Income>)
    ensures r in TakerLeg(trades, user, q) <==> r.key.id == 0 && exists f :: IsTakerFee(r, f, trades, user, q)
  {
    var keep := And((f: Fill) => f.taker == user, InWindow(q));
    var row := (f: Fill) => Row(Key(f.ts, 0), Income(f.symbol, COMMISSION, -f.takerFee, f.id));
    assert TakerLeg(trades, user, q) == Map(row, Filter(trades, keep));
    LegMembers(trades, keep, row, r);
    forall f
      ensures f in trades && keep(f) && row(f) == r <==> r.key.id == 0 && IsTakerFee(r, f, trades, user, q)
    {
      WindowMeaning(q, f);
    }
    hide TakerLeg, InWindow, Inside, IsTakerFee;
  }

  /** The uncut union holds exactly the user's PnL and funding events with the symbol asked for, and
      the fees of its trades in the time window, as far as their kind is asked for and answers. */
  lemma {:induction false} UnionMeaning(up: set<Kind>, t: Tables, user: string, q: Query, r: Row<Income>)
    ensures r in FullUnion(up, t, user, q)
       <==> r.key.id == 0
            && ((Asked(q, "REALIZED_PNL") && REALIZED_PNL in up && exists e :: IsOwnEntry(r, e, REALIZED_PNL, t.pnl, user, q))
                || (Asked(q, "FUNDING_FEE") && FUNDING_FEE in up && exists e :: IsOwnEntry(r, e, FUNDING_FEE, t.funding, user, q))
                || (Asked(q, "COMMISSION") && COMMISSION in up
                    && ((exists f :: IsMakerFee(r, f, t.trades, user, q)) || exists f :: IsTakerFee(r, f, t.trades, user, q))))
  {
    EntryMembers(REALIZED_PNL, t.pnl, user, q, r);
    EntryMembers(FUNDING_FEE, t.funding, user, q, r);
    MakerMembers(t.trades, user, q, r);
    TakerMembers(t.trades, user, q, r);
    hide EntryStream, MakerLeg, TakerLeg, IsOwnEntry, IsMakerFee, IsTakerFee;
  }

  /** The page size: 100 by default, at most 1000, none for a negative one. */
  lemma {:induction false} AllowedRows(q: Query)
    ensures q.limit.None? ==> q.Allowed() == 100
    ensures q.limit.Some? && 0 <= q.limit.value <= 1000 ==> q.Allowed() == q.limit.value
    ensures q.limit.Some? && q.limit.value > 1000 ==> q.Allowed() == 1000
    ensures q.limit.Some? && q.limit.value < 0 ==> q.Allowed() == 0
  {
  }

  /** The response as a client sees it: newest first by whole milliseconds, at most the page size, only
      items of the union; and if it is not full, all of them. */
  lemma {:induction false} ResponseMeaning(pnl: Stream, funding: Stream, fees: Stream, up: set<Kind>,
                                           t: Tables, user: string, q: Query, items: seq<Item>)
    requires Fetched(pnl, funding, fees, up, t, user, q)
    requires items == Truncate(SortItems(Items(pnl + funding + fees)), q.Limit())
    ensures
      var size := if q.limit.None? then 100 else if q.limit.value > 1000 then 1000 else q.limit.value;
      var all := Items(FullUnion(up, t, user, q));
      && (forall i, j | 0 <= i < j < |items| :: items[i].time >= items[j].time)
      && (size >= 0 ==> |items| <= size) && (size < 0 ==> items == [])
      && multiset(items) <= multiset(all) && (|items| < size ==> multiset(items) == multiset(all))
  {
    var all := Items(FullUnion(up, t, user, q));
    IncomeIsTopOfUnion(pnl, funding, fees, up, t, user, q, items);
    AllowedRows(q);
    hide Fetched, Sort, SortItems, FullUnion, Items;
    SortCorrect(Times(all));
    NewestItems(items, all, q.Allowed());
  }

  lemma {:induction false} NewestItems(items: seq<Item>, all: seq<Item>, size: nat)
    requires Sorted(Times(items)) && Times(items) == Take(Sort(Times(all)), size) && multiset(items) <= multiset(all)
    ensures forall i, j | 0 <= i < j < |items| :: items[i].time >= items[j].time
    ensures |items| <= size && (|items| < size ==> multiset(items) == multiset(all))
  {
    hide Sort;
    SortCorrect(Times(all));
    assert |items| == |Times(items)|;
    forall i, j | 0 <= i < j < |items|
      ensures items[i].time >= items[j].time
    {
      assert NotAfter(Times(items)[i], Times(items)[j]);
    }
    if |items| < size {
      assert |multiset(items)| == |items| == |all| == |multiset(all)|;
      SameSize(multiset(items), multiset(all));
    }
  }

  lemma {:induction false} SameSize<T>(a: multiset<T>, b: multiset<T>)
    requires a <= b && |a| == |b|
    ensures a == b
  {
    assert b == a + (b - a);
    assert |b - a| == 0;
  }

  /** The items of one moment, in order. */
  function OfTime(s: seq<Item>, time: int): seq<Item> {
    if s == [] then [] else (if s[0].time == time then [s[0]] else []) + OfTime(s[1..], time)
  }

  lemma {:induction false} InsertKeepsOrder(x: Item, s: seq<Item>, time: int)
    ensures OfTime(InsertItem(x, s), time) == OfTime([x] + s, time)
  {
    assert ([x] + s)[1..] == s;
    if s != [] && x.time < s[0].time {
      InsertKeepsOrder(x, s[1..], time);
      assert ([x] + s[1..])[1..] == s[1..];
      assert InsertItem(x, s)[1..] == InsertItem(x, s[1..]);
    }
  }

  /** Sorting is stable: simultaneous items stay in the order they were collected in. */
  lemma {:induction false} SortIsStable(s: seq<Item>, time: int)
    ensures OfTime(SortItems(s), time) == OfTime(s, time)
  {
    if s != [] {
      SortIsStable(s[1..], time);
      InsertKeepsOrder(s[0], SortItems(s[1..]), time);
      assert ([s[0]] + SortItems(s[1..]))[1..] == SortItems(s[1..]);
    }
  }
}
