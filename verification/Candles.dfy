/** One-minute candles kept by an upsert for every internal trade.

    Prices and amounts are reals; symbols are already normalised.  A trade is refused for a bad
    side, price or amount or when its own insert fails; a failed candle upsert is ignored. */
module Candles {
  import opened Wrappers

  datatype Order = Order(symbol: string, price: real, amount: real, side: string, timestamp: Option<int>)

  datatype Candle = Candle(open: real, high: real, low: real, close: real, volume: real)

  type Key = (string, int)

  type Table = map<Key, Candle>

  /** A trade whose candle upsert succeeded, at `ts` seconds. */
  datatype Trade = Trade(symbol: string, price: real, amount: real, ts: int)

  /** `i64` division truncates towards zero. */
  function Truncated(a: int, b: int): int
    requires b > 0
  {
    if a >= 0 then a / b else -(-a / b)
  }

  function Minute(ts: int): int {
    Truncated(ts, 60) * 60
  }

  function KeyOf(t: Trade): Key {
    (t.symbol, Minute(t.ts))
  }

  function Max(a: real, b: real): real {
    if a >= b then a else b
  }

  function Min(a: real, b: real): real {
    if a <= b then a else b
  }

  /** `INSERT ... ON CONFLICT (symbol, period, time) DO UPDATE`. */
  function Upsert(table: Table, t: Trade): Table {
    var k := KeyOf(t);
    if k in table then
      var c := table[k];
      table[k := c.(high := Max(c.high, t.price), low := Min(c.low, t.price), close := t.price, volume := c.volume + t.amount)]
    else
      table[k := Candle(t.price, t.price, t.price, t.price, t.amount)]
  }

  function UpsertAll(table: Table, trades: seq<Trade>): Table
    decreases |trades|
  {
    if trades == [] then table else Upsert(UpsertAll(table, trades[..|trades| - 1]), trades[|trades| - 1])
  }

  /** The candle table and the trades behind it. */
  class KlineStore {
    var table: Table
    ghost var trades: seq<Trade>

    ghost predicate Valid()
      reads this
    {
      table == UpsertAll(map[], trades)
    }

    constructor ()
      ensures Valid() && trades == []
    {
      table, trades := map[], [];
    }

    /** `process_internal_trade`; the flags say whether the two statements succeed. */
    method ProcessInternalTrade(o: Order, now: int, insertOk: bool, upsertOk: bool) returns (ok: bool)
      requires Valid()
      modifies this
      ensures Valid()
      ensures ok <==> (o.side == "buy" || o.side == "sell") && o.price > 0.0 && o.amount > 0.0 && insertOk
      ensures ok && upsertOk ==> exists ts ::
                && (o.timestamp == Some(ts) || (o.timestamp == None && ts == now))
                && trades == old(trades) + [Trade(o.symbol, o.price, o.amount, ts)]
      ensures !(ok && upsertOk) ==> trades == old(trades) && table == old(table)
    {
      if o.side != "buy" && o.side != "sell" {
        return false;
      }
      if o.price <= 0.0 {
        return false;
      }
      if o.amount <= 0.0 {
        return false;
      }
      var ts := o.timestamp.GetOr(now);
      if !insertOk {
        return false;
      }
      if upsertOk {
        var k := (o.symbol, Truncated(ts, 60) * 60);
        if k in table {
          var c := table[k];
          table := table[k := Candle(c.open, if c.high >= o.price then c.high else o.price,
                                     if c.low <= o.price then c.low else o.price, o.price, c.volume + o.amount)];
        } else {
          table := table[k := Candle(o.price, o.price, o.price, o.price, o.amount)];
        }
        assert (trades + [Trade(o.symbol, o.price, o.amount, ts)])[..|trades|] == trades;
        trades := trades + [Trade(o.symbol, o.price, o.amount, ts)];
      }
      return true;
    }
  }

  // ---- What a candle is ----------------------------------------------------------------

  /** The trades of one candle, in call order. */
  function Bucket(trades: seq<Trade>, k: Key): seq<Trade> {
    if trades == [] then []
    else Bucket(trades[..|trades| - 1], k) + (if KeyOf(trades[|trades| - 1]) == k then [trades[|trades| - 1]] else [])
  }

  function Volume(trades: seq<Trade>): real {
    if trades == [] then 0.0 else Volume(trades[..|trades| - 1]) + trades[|trades| - 1].amount
  }

  /** `c` sums up the non-empty list: first, highest, lowest and last price, total amount. */
  ghost predicate Summarises(c: Candle, trades: seq<Trade>) {
    && trades != [] && c.open == trades[0].price && c.close == trades[|trades| - 1].price
    && (forall t | t in trades :: c.low <= t.price <= c.high)
    && (exists t | t in trades :: c.high == t.price) && (exists t | t in trades :: c.low == t.price)
    && c.volume == Volume(trades)
  }

  lemma {:induction false} SummaryGrows(c: Candle, trades: seq<Trade>, t: Trade)
    requires Summarises(c, trades)
    ensures Summarises(c.(high := Max(c.high, t.price), low := Min(c.low, t.price), close := t.price, volume := c.volume + t.amount),
                       trades + [t])
  {
  }

  lemma {:induction false} FirstSummary(t: Trade)
    ensures Summarises(Candle(t.price, t.price, t.price, t.price, t.amount), [t])
  {
  }

  lemma {:induction false} BucketStep(trades: seq<Trade>, k: Key)
    requires trades != []
    ensures
      var (init, t) := (trades[..|trades| - 1], trades[|trades| - 1]);
      Bucket(trades, k) == if KeyOf(t) == k then Bucket(init, k) + [t] else Bucket(init, k)
  {
  }

  /** Each candle sums up exactly the trades of its symbol and minute, and there is a candle for
      each such pair and no other. */
  lemma {:induction false} CandlesAreExact(trades: seq<Trade>, k: Key)
    ensures
      var table := UpsertAll(map[], trades);
      && (k in table <==> Bucket(trades, k) != [])
      && (k in table ==> Summarises(table[k], Bucket(trades, k)))
    decreases |trades|
  {
    if trades != [] {
      var (init, t) := (trades[..|trades| - 1], trades[|trades| - 1]);
      var table := UpsertAll(map[], init);
      CandlesAreExact(init, k);
      BucketStep(trades, k);
      assert UpsertAll(map[], trades) == Upsert(table, t);
      UpsertSummary(table, Bucket(init, k), t, k);
    }
  }

  /** One upsert keeps what the candle of `k` sums up. */
  lemma {:induction false} UpsertSummary(table: Table, bucket: seq<Trade>, t: Trade, k: Key)
    requires k in table <==> bucket != []
    requires k in table ==> Summarises(table[k], bucket)
    ensures
      var after := if KeyOf(t) == k then bucket + [t] else bucket;
      && (k in Upsert(table, t) <==> after != [])
      && (k in Upsert(table, t) ==> Summarises(Upsert(table, t)[k], after))
  {
    if KeyOf(t) == k {
      if bucket == [] {
        FirstSummary(t);
        assert bucket + [t] == [t];
      } else {
        SummaryGrows(table[k], bucket, t);
      }
    }
  }

  // ---- Conservation --------------------------------------------------------------------

  ghost function TotalVolume(table: Table): real {
    if table == map[] then 0.0 else var k :| k in table; table[k].volume + TotalVolume(table - {k})
  }

  lemma {:induction false} TotalVolumeWithout(table: Table, k: Key)
    requires k in table
    ensures TotalVolume(table) == table[k].volume + TotalVolume(table - {k})
    decreases |table|
  {
    var j :| j in table && TotalVolume(table) == table[j].volume + TotalVolume(table - {j});
    if j != k {
      TotalVolumeWithout(table - {j}, k);
      TotalVolumeWithout(table - {k}, j);
      assert table - {j} - {k} == table - {k} - {j};
    }
  }

  lemma {:induction false} TotalVolumeUpsert(table: Table, t: Trade)
    ensures TotalVolume(Upsert(table, t)) == TotalVolume(table) + t.amount
  {
    var k := KeyOf(t);
    TotalVolumeWithout(Upsert(table, t), k);
    assert Upsert(table, t) - {k} == table - {k};
    if k in table {
      TotalVolumeWithout(table, k);
    } else {
      assert table - {k} == table;
    }
  }

  /** The volumes of all candles add up to the total traded amount. */
  lemma {:induction false} VolumeIsConserved(trades: seq<Trade>)
    ensures TotalVolume(UpsertAll(map[], trades)) == Volume(trades)
    decreases |trades|
  {
    if trades != [] {
      VolumeIsConserved(trades[..|trades| - 1]);
      TotalVolumeUpsert(UpsertAll(map[], trades[..|trades| - 1]), trades[|trades| - 1]);
    }
  }

  // ---- Minutes -------------------------------------------------------------------------

  /** The trades of a symbol between a minute and the next one, in call order. */
  function MinuteTrades(trades: seq<Trade>, symbol: string, minute: int): seq<Trade> {
    if trades == [] then []
    else
      var t := trades[|trades| - 1];
      MinuteTrades(trades[..|trades| - 1], symbol, minute)
      + (if t.symbol == symbol && minute <= t.ts < minute + 60 then [t] else [])
  }

  predicate RightMinute(ts: int) {
    ts >= 0 || ts % 60 == 0
  }

  lemma {:induction false} MinuteContainsIff(ts: int)
    ensures Minute(ts) <= ts < Minute(ts) + 60 <==> RightMinute(ts)
    ensures Minute(ts) % 60 == 0
  {
  }

  lemma {:induction false} MinuteIff(ts: int, minute: int)
    requires minute % 60 == 0 && RightMinute(ts)
    ensures Minute(ts) == minute <==> minute <= ts < minute + 60
  {
  }

  lemma {:induction false} BucketIsMinute(trades: seq<Trade>, symbol: string, minute: int)
    requires minute % 60 == 0 && forall t | t in trades :: RightMinute(t.ts)
    ensures Bucket(trades, (symbol, minute)) == MinuteTrades(trades, symbol, minute)
    decreases |trades|
  {
    hide Minute, RightMinute;
    if trades != [] {
      var t := trades[|trades| - 1];
      assert trades == trades[..|trades| - 1] + [t] && t in trades;
      MinuteIff(t.ts, minute);
      BucketIsMinute(trades[..|trades| - 1], symbol, minute);
    }
  }

  lemma {:induction false} BucketMembers(trades: seq<Trade>, k: Key)
    ensures forall t :: t in Bucket(trades, k) <==> t in trades && KeyOf(t) == k
    ensures forall t | t in MinuteTrades(trades, k.0, k.1) :: k.1 <= t.ts < k.1 + 60
    decreases |trades|
  {
    if trades != [] {
      BucketMembers(trades[..|trades| - 1], k);
      assert trades == trades[..|trades| - 1] + [trades[|trades| - 1]];
    }
  }

  /** All candles sum up true calendar minutes exactly when no trade has a negative time off a
      full minute: before 1970 the division rounds the wrong way. */
  lemma {:induction false} BucketsAreMinutesIff(trades: seq<Trade>)
    ensures (forall symbol, minute | minute % 60 == 0 ::
               Bucket(trades, (symbol, minute)) == MinuteTrades(trades, symbol, minute))
       <==> forall t | t in trades :: RightMinute(t.ts)
  {
    if forall t | t in trades :: RightMinute(t.ts) {
      forall symbol, minute | minute % 60 == 0
        ensures Bucket(trades, (symbol, minute)) == MinuteTrades(trades, symbol, minute)
      {
        BucketIsMinute(trades, symbol, minute);
      }
    } else {
      var t :| t in trades && !RightMinute(t.ts);
      MinuteContainsIff(t.ts);
      BucketMembers(trades, KeyOf(t));
      assert Bucket(trades, (t.symbol, Minute(t.ts))) != MinuteTrades(trades, t.symbol, Minute(t.ts));
    }
  }
}
