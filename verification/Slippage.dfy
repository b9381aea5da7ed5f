/** Simulated sweep of one side of an order book.

    A level is a pair of strings; `px` and `sz` hold what parsing them gives, None for text that
    is not a decimal.  Decimals are reals: rounding is not modelled. */
module Slippage {
  import opened Wrappers

  datatype Level = Level(px: Option<real>, sz: Option<real>) {
    predicate Usable() {
      px.Some? && sz.Some? && sz.value > 0.0
    }
  }

  type Book = seq<Level>

  datatype Fill = Fill(filled: real, notional: real) {
    function Average(): Option<real> {
      if filled > 0.0 then Some(notional / filled) else None
    }

    function SlippageVs(reference: real): real {
      if Average().Some? && reference != 0.0 then Abs(Average().value - reference) / reference else 0.0
    }
  }

  function Abs(x: real): real {
    if x < 0.0 then -x else x
  }

  function Min(x: real, y: real): real {
    if x <= y then x else y
  }

  /** Levels are consumed in order until the amount is used up. */
  function Sweep(book: Book, amount: real): Fill
    decreases |book|
  {
    if book == [] || amount <= 0.0 then Fill(0.0, 0.0)
    else if !book[0].Usable() then Sweep(book[1..], amount)
    else
      var take := Min(book[0].sz.value, amount);
      var rest := Sweep(book[1..], amount - take);
      Fill(take + rest.filled, take * book[0].px.value + rest.notional)
  }

  lemma {:induction false} SweepNothing(book: Book, amount: real)
    requires amount <= 0.0
    ensures Sweep(book, amount) == Fill(0.0, 0.0)
  {
  }

  /** One usable level of a sweep. */
  lemma {:induction false} SweepHead(book: Book, amount: real)
    requires book != [] && book[0].Usable() && amount >= 0.0
    ensures
      var take := Min(book[0].sz.value, amount);
      && Sweep(book, amount).filled == take + Sweep(book[1..], amount - take).filled
      && Sweep(book, amount).notional == take * book[0].px.value + Sweep(book[1..], amount - take).notional
  {
  }

  /** The loop of the simulation. */
  method SimulateFill(book: Book, amount: real) returns (fill: Fill)
    ensures fill == Sweep(book, amount)
  {
    var remaining, filled, notional := amount, 0.0, 0.0;
    var i := 0;
    while i < |book|
      invariant 0 <= i <= |book|
      invariant filled + Sweep(book[i..], remaining).filled == Sweep(book, amount).filled
      invariant notional + Sweep(book[i..], remaining).notional == Sweep(book, amount).notional
    {
      if remaining <= 0.0 {
        break;
      }
      var level := book[i];
      assert book[i..][0] == level && book[i..][1..] == book[i + 1..];
      i := i + 1;
      if level.px.None? || level.sz.None? {
        continue;
      }
      if level.sz.value <= 0.0 {
        continue;
      }
      var take := if level.sz.value >= remaining then remaining else level.sz.value;
      filled := filled + take;
      notional := notional + take * level.px.value;
      remaining := remaining - take;
    }
    fill := Fill(filled, notional);
  }

  // ---- How much is filled --------------------------------------------------------------

  function Depth(book: Book): (d: real)
    ensures d >= 0.0
  {
    if book == [] then 0.0 else (if book[0].Usable() then book[0].sz.value else 0.0) + Depth(book[1..])
  }

  /** The fill is the amount, or the whole depth if that is less. */
  lemma {:induction false} FilledIsMin(book: Book, amount: real)
    ensures Sweep(book, amount).filled == if amount <= 0.0 then 0.0 else Min(amount, Depth(book))
    decreases |book|
  {
    if book != [] && amount > 0.0 {
      if book[0].Usable() {
        FilledIsMin(book[1..], amount - Min(book[0].sz.value, amount));
      } else {
        FilledIsMin(book[1..], amount);
      }
    }
  }

  /** Asking for more than the depth changes nothing. */
  lemma {:induction false} SweepSaturates(book: Book, amount: real)
    requires amount >= Depth(book)
    ensures Sweep(book, amount) == Sweep(book, Depth(book))
    decreases |book|
  {
    if book != [] && amount > 0.0 {
      if book[0].Usable() {
        SweepSaturates(book[1..], amount - book[0].sz.value);
      } else {
        SweepSaturates(book[1..], amount);
      }
    }
  }

  // ---- Optimality ----------------------------------------------------------------------

  /** All usable prices are at least `p`. */
  ghost predicate PricesFrom(book: Book, p: real) {
    forall i | 0 <= i < |book| && book[i].Usable() :: p <= book[i].px.value
  }

  ghost predicate Ascending(book: Book) {
    forall i, j | 0 <= i < j < |book| && book[i].Usable() && book[j].Usable() :: book[i].px.value <= book[j].px.value
  }

  ghost predicate Descending(book: Book) {
    forall i, j | 0 <= i < j < |book| && book[i].Usable() && book[j].Usable() :: book[i].px.value >= book[j].px.value
  }

  lemma {:induction false} AscendingTail(book: Book)
    requires book != [] && Ascending(book)
    ensures Ascending(book[1..])
    ensures book[0].Usable() ==> PricesFrom(book[1..], book[0].px.value)
  {
  }

  lemma {:induction false} PricesTail(book: Book, p: real)
    requires book != [] && PricesFrom(book, p)
    ensures PricesFrom(book[1..], p) && (book[0].Usable() ==> p <= book[0].px.value)
  {
  }

  function Times(a: real, b: real): real {
    a * b
  }

  lemma {:induction false} MarginalStep(p: real, p0: real, x: real, y: real, x0: real, y0: real, x1: real, y1: real)
    requires p <= p0 && x0 <= y0 && y1 - x1 >= Times(p, (y - y0) - (x - x0))
    ensures (Times(y0, p0) + y1) - (Times(x0, p0) + x1) >= Times(p, y - x)
  {
    assert (y0 - x0) * (p0 - p) >= 0.0;
  }

  /** What remains of two amounts after the first level. */
  lemma {:induction false} PastFirstLevel(book: Book, x: real, y: real)
    requires book != [] && book[0].Usable() && 0.0 <= x <= y <= Depth(book)
    ensures
      var (x0, y0) := (Min(book[0].sz.value, x), Min(book[0].sz.value, y));
      0.0 <= x0 <= y0 && 0.0 <= x - x0 <= y - y0 <= Depth(book[1..])
  {
  }

  lemma {:induction false} HeadTimes(book: Book, amount: real)
    requires book != [] && book[0].Usable() && amount >= 0.0
    ensures
      var take := Min(book[0].sz.value, amount);
      Sweep(book, amount).notional == Times(take, book[0].px.value) + Sweep(book[1..], amount - take).notional
  {
    hide Sweep;
    SweepHead(book, amount);
  }

  lemma {:induction false} MarginalTail(book: Book, p: real, x: real, y: real)
    requires PricesFrom(book, p) && 0.0 <= x <= y <= Depth(book)
    ensures Sweep(book, y).notional - Sweep(book, x).notional >= Times(p, y - x)
    decreases |book|, 2
  {
    hide Sweep, Depth, PricesFrom;
    MarginalCost(book, p, x, y);
  }

  lemma {:induction false} MarginalUsable(book: Book, p: real, x: real, y: real)
    requires book != [] && book[0].Usable() && PricesFrom(book, p) && 0.0 <= x <= y <= Depth(book)
    ensures Sweep(book, y).notional - Sweep(book, x).notional >= Times(p, y - x)
    decreases |book|, 0
  {
    var (s, p0) := (book[0].sz.value, book[0].px.value);
    hide *;
    var (x0, y0) := (Min(s, x), Min(s, y));
    PricesTail(book, p);
    PastFirstLevel(book, x, y);
    MarginalTail(book[1..], p, x - x0, y - y0);
    HeadTimes(book, x);
    HeadTimes(book, y);
    MarginalStep(p, p0, x, y, x0, y0, Sweep(book[1..], x - x0).notional, Sweep(book[1..], y - y0).notional);
  }

  /** Buying from `x` up to `y` costs at least the lowest price for each unit. */
  lemma {:induction false} MarginalCost(book: Book, p: real, x: real, y: real)
    requires PricesFrom(book, p) && 0.0 <= x <= y <= Depth(book)
    ensures Sweep(book, y).notional - Sweep(book, x).notional >= p * (y - x)
    decreases |book|, 1
  {
    if book == [] {
      assert x == y == 0.0;
    } else if book[0].Usable() {
      MarginalUsable(book, p, x, y);
    } else {
      PricesTail(book, p);
      MarginalCost(book[1..], p, x, y);
      assert Sweep(book, x) == Sweep(book[1..], x) && Sweep(book, y) == Sweep(book[1..], y);
    }
  }

  /** Amounts taken from the levels, in book order. */
  ghost predicate Feasible(book: Book, alloc: seq<real>) {
    |alloc| == |book| &&
    forall i | 0 <= i < |book| :: 0.0 <= alloc[i] <= (if book[i].Usable() then book[i].sz.value else 0.0)
  }

  function Amount(alloc: seq<real>): real {
    if alloc == [] then 0.0 else alloc[0] + Amount(alloc[1..])
  }

  function Cost(book: Book, alloc: seq<real>): real
    requires |alloc| == |book|
  {
    if book == [] then 0.0
    else (if book[0].px.Some? then alloc[0] * book[0].px.value else 0.0) + Cost(book[1..], alloc[1..])
  }

  lemma {:induction false} FeasibleTail(book: Book, alloc: seq<real>)
    requires book != [] && Feasible(book, alloc)
    ensures Feasible(book[1..], alloc[1..])
  {
  }

  lemma {:induction false} FeasibleAmount(book: Book, alloc: seq<real>)
    requires Feasible(book, alloc)
    ensures 0.0 <= Amount(alloc) <= Depth(book)
  {
    if book != [] {
      FeasibleTail(book, alloc);
      FeasibleAmount(book[1..], alloc[1..]);
    }
  }

  lemma {:induction false} ExchangeStep(p: real, take: real, a: real, n: real, m: real, c: real)
    requires m - n >= Times(p, take - a) && c >= m
    ensures Times(take, p) + n <= Times(a, p) + c
  {
  }

  lemma {:induction false} CostHead(book: Book, alloc: seq<real>)
    requires book != [] && Feasible(book, alloc)
    ensures Amount(alloc) == alloc[0] + Amount(alloc[1..])
    ensures book[0].Usable() ==>
              && 0.0 <= alloc[0] <= book[0].sz.value
              && Cost(book, alloc) == Times(alloc[0], book[0].px.value) + Cost(book[1..], alloc[1..])
    ensures !book[0].Usable() ==> alloc[0] == 0.0 && Cost(book, alloc) == Cost(book[1..], alloc[1..])
  {
    if !book[0].Usable() {
      assert alloc[0] == 0.0;
      if book[0].px.Some? { assert alloc[0] * book[0].px.value == 0.0; }
    }
  }

  /** On ascending levels nothing that takes the same amount costs less than the sweep. */
  lemma {:induction false} SweepIsCheapest(book: Book, alloc: seq<real>)
    requires Ascending(book) && Feasible(book, alloc)
    ensures Sweep(book, Amount(alloc)).notional <= Cost(book, alloc)
    decreases |book|
  {
    if book != [] {
      AscendingTail(book);
      FeasibleTail(book, alloc);
      FeasibleAmount(book[1..], alloc[1..]);
      SweepIsCheapest(book[1..], alloc[1..]);
      if book[0].Usable() {
        CheapestHead(book, alloc);
      } else {
        CostHead(book, alloc);
        SkipUsedUp(book, Amount(alloc));
      }
      hide Sweep, Cost;
    }
  }

  lemma {:induction false} CheapestHead(book: Book, alloc: seq<real>)
    requires book != [] && Feasible(book, alloc) && book[0].Usable() && PricesFrom(book[1..], book[0].px.value)
    requires 0.0 <= Amount(alloc[1..]) <= Depth(book[1..])
    requires Sweep(book[1..], Amount(alloc[1..])).notional <= Cost(book[1..], alloc[1..])
    ensures Sweep(book, Amount(alloc)).notional <= Cost(book, alloc)
  {
    var (q, a, p, s) := (Amount(alloc), alloc[0], book[0].px.value, book[0].sz.value);
    var take := Min(s, q);
    CostHead(book, alloc);
    assert a <= take && q - take <= q - a;
    hide *;
    HeadTimes(book, q);
    MarginalTail(book[1..], p, q - take, q - a);
    assert (q - a) - (q - take) == take - a;
    ExchangeStep(p, take, a, Sweep(book[1..], q - take).notional, Sweep(book[1..], q - a).notional,
                 Cost(book[1..], alloc[1..]));
  }

  function Negate(book: Book): Book {
    if book == [] then []
    else [Level(if book[0].px.Some? then Some(-book[0].px.value) else None, book[0].sz)] + Negate(book[1..])
  }

  lemma {:induction false} NegateLevels(book: Book)
    ensures |Negate(book)| == |book|
    ensures forall i | 0 <= i < |book| ::
              && Negate(book)[i].sz == book[i].sz && Negate(book)[i].Usable() == book[i].Usable()
              && (book[i].Usable() ==> Negate(book)[i].px.value == -book[i].px.value)
  {
    if book != [] {
      NegateLevels(book[1..]);
    }
  }

  lemma {:induction false} NegateSweep(book: Book, amount: real)
    ensures Sweep(Negate(book), amount).notional == -Sweep(book, amount).notional
    decreases |book|
  {
    if book != [] && amount > 0.0 {
      assert Negate(book)[1..] == Negate(book[1..]);
      if book[0].Usable() {
        NegateSweep(book[1..], amount - Min(book[0].sz.value, amount));
      } else {
        NegateSweep(book[1..], amount);
      }
    }
  }

  lemma {:induction false} NegateCost(book: Book, alloc: seq<real>)
    requires |alloc| == |book|
    ensures |Negate(book)| == |alloc| && Cost(Negate(book), alloc) == -Cost(book, alloc)
  {
    NegateLevels(book);
    if book != [] {
      assert Negate(book)[1..] == Negate(book[1..]);
      NegateCost(book[1..], alloc[1..]);
    }
  }

  /** On descending levels nothing that sells the same amount earns more. */
  lemma {:induction false} SweepEarnsMost(book: Book, alloc: seq<real>)
    requires Descending(book) && Feasible(book, alloc)
    ensures Sweep(book, Amount(alloc)).notional >= Cost(book, alloc)
  {
    NegateLevels(book);
    SweepIsCheapest(Negate(book), alloc);
    NegateSweep(book, Amount(alloc));
    NegateCost(book, alloc);
  }

  // ---- Sweeping in two parts -----------------------------------------------------------

  /** What a sweep leaves of the book; a used-up level stays with size zero. */
  function Residual(book: Book, amount: real): Book
    decreases |book|
  {
    if book == [] || amount <= 0.0 then book
    else if !book[0].Usable() then [book[0]] + Residual(book[1..], amount)
    else
      var take := Min(book[0].sz.value, amount);
      [book[0].(sz := Some(book[0].sz.value - take))] + Residual(book[1..], amount - take)
  }

  lemma {:induction false} ResidualHead(book: Book, a: real)
    requires book != [] && book[0].Usable() && a > 0.0
    ensures
      var take := Min(book[0].sz.value, a);
      && Residual(book, a) != [] && Residual(book, a)[1..] == Residual(book[1..], a - take)
      && Residual(book, a)[0] == book[0].(sz := Some(book[0].sz.value - take))
  {
  }

  /** Sweeping a + b is sweeping a and then b on what is left. */
  lemma {:induction false} SweepInParts(book: Book, a: real, b: real)
    requires a >= 0.0 && b >= 0.0
    ensures
      var (first, second) := (Sweep(book, a), Sweep(Residual(book, a), b));
      && Sweep(book, a + b).filled == first.filled + second.filled
      && Sweep(book, a + b).notional == first.notional + second.notional
    decreases |book|, 1
  {
    if book == [] || a == 0.0 || b == 0.0 {
    } else if !book[0].Usable() {
      SweepInParts(book[1..], a, b);
      assert Residual(book, a)[1..] == Residual(book[1..], a);
    } else if a >= book[0].sz.value {
      PartsPastLevel(book, a, b);
    } else {
      PartsInOneLevel(book, a, b);
    }
  }

  lemma {:induction false} SkipUsedUp(book: Book, amount: real)
    requires book != [] && !book[0].Usable()
    ensures Sweep(book, amount) == Sweep(book[1..], amount)
  {
  }

  lemma {:induction false} PartsPastLevel(book: Book, a: real, b: real)
    requires book != [] && book[0].Usable() && a >= book[0].sz.value && b > 0.0
    ensures
      var (first, second) := (Sweep(book, a), Sweep(Residual(book, a), b));
      && Sweep(book, a + b).filled == first.filled + second.filled
      && Sweep(book, a + b).notional == first.notional + second.notional
    decreases |book|, 0
  {
    hide Sweep, Residual;
    var s := book[0].sz.value;
    ResidualHead(book, a);
    SkipUsedUp(Residual(book, a), b);
    SweepHead(book, a);
    SweepHead(book, a + b);
    assert a + b - s == a - s + b;
    SweepInParts(book[1..], a - s, b);
  }

  lemma {:induction false} PartsInOneLevel(book: Book, a: real, b: real)
    requires book != [] && book[0].Usable() && 0.0 < a < book[0].sz.value && b > 0.0
    ensures
      var (first, second) := (Sweep(book, a), Sweep(Residual(book, a), b));
      && Sweep(book, a + b).filled == first.filled + second.filled
      && Sweep(book, a + b).notional == first.notional + second.notional
  {
  }

  // ---- Average price and slippage ------------------------------------------------------

  lemma {:induction false} NothingToSweep(book: Book, x: real)
    requires book == [] || x == 0.0
    ensures Sweep(book, x) == Fill(0.0, 0.0)
  {
  }

  /** The total cost grows at least in proportion to the amount. */
  lemma {:induction false} CostPerUnitGrows(book: Book, x: real, y: real)
    requires Ascending(book) && 0.0 <= x <= y <= Depth(book)
    ensures Sweep(book, x).notional * y <= Sweep(book, y).notional * x
    decreases |book|, 2
  {
    hide Sweep;
    if book == [] || x == 0.0 {
      NothingToSweep(book, x);
      if book == [] { NothingToSweep(book, y); }
    } else {
      AscendingTail(book);
      if book[0].Usable() {
        PerUnitUsable(book, x, y);
      } else {
        SkipUsedUp(book, x);
        SkipUsedUp(book, y);
        CostPerUnitGrows(book[1..], x, y);
      }
    }
  }

  /** The notional of what a sweep takes behind the first level. */
  function Behind(book: Book, x: real): real
    requires book != [] && book[0].Usable()
  {
    Sweep(book[1..], x - Min(book[0].sz.value, x)).notional
  }

  lemma {:induction false} BehindMarginal(book: Book, x: real, y: real)
    requires book != [] && book[0].Usable() && PricesFrom(book[1..], book[0].px.value)
    requires 0.0 <= x <= y <= Depth(book)
    ensures
      var (x0, y0) := (Min(book[0].sz.value, x), Min(book[0].sz.value, y));
      Behind(book, y) - Behind(book, x) >= book[0].px.value * ((y - y0) - (x - x0))
  {
    PastFirstLevel(book, x, y);
    var (x0, y0) := (Min(book[0].sz.value, x), Min(book[0].sz.value, y));
    hide Sweep, Depth;
    MarginalCost(book[1..], book[0].px.value, x - x0, y - y0);
  }

  lemma {:induction false} BehindPerUnit(book: Book, x: real, y: real)
    requires book != [] && book[0].Usable() && Ascending(book[1..])
    requires 0.0 <= x <= y <= Depth(book)
    ensures
      var (x0, y0) := (Min(book[0].sz.value, x), Min(book[0].sz.value, y));
      Behind(book, x) * (y - y0) <= Behind(book, y) * (x - x0)
    decreases |book|, 0
  {
    PastFirstLevel(book, x, y);
    var (x0, y0) := (Min(book[0].sz.value, x), Min(book[0].sz.value, y));
    hide Sweep, Depth;
    CostPerUnitGrows(book[1..], x - x0, y - y0);
  }

  lemma {:induction false} PerUnitUsable(book: Book, x: real, y: real)
    requires book != [] && book[0].Usable() && Ascending(book[1..]) && PricesFrom(book[1..], book[0].px.value)
    requires 0.0 <= x <= y <= Depth(book)
    ensures Sweep(book, x).notional * y <= Sweep(book, y).notional * x
    decreases |book|, 1
  {
    hide *;
    UsableSize(book[0]);
    BehindMarginal(book, x, y);
    BehindPerUnit(book, x, y);
    HeadAndBehind(book, x);
    HeadAndBehind(book, y);
    AnyCaseStep(book[0].px.value, book[0].sz.value, x, y, Sweep(book, x).notional, Sweep(book, y).notional,
                Behind(book, x), Behind(book, y));
  }

  lemma {:induction false} HeadAndBehind(book: Book, x: real)
    requires book != [] && book[0].Usable() && x >= 0.0
    ensures Sweep(book, x).notional == Min(book[0].sz.value, x) * book[0].px.value + Behind(book, x)
    ensures x <= book[0].sz.value ==> Behind(book, x) == 0.0
  {
  }

  lemma {:induction false} UsableSize(l: Level)
    requires l.Usable()
    ensures l.px.Some? && l.sz.Some? && l.sz.value > 0.0
  {
  }

  lemma {:induction false} AnyCaseStep(p: real, s: real, x: real, y: real, nx: real, ny: real, x1: real, y1: real)
    requires s > 0.0 && 0.0 <= x <= y
    requires
      var (x0, y0) := (Min(s, x), Min(s, y));
      && x1 * (y - y0) <= y1 * (x - x0) && y1 - x1 >= p * ((y - y0) - (x - x0))
      && nx == x0 * p + x1 && ny == y0 * p + y1
    requires (x <= s ==> x1 == 0.0) && (y <= s ==> y1 == 0.0)
    ensures nx * y <= ny * x
  {
  }

  /** On ascending levels a larger order has no better average price. */
  lemma {:induction false} AverageIsMonotone(book: Book, a: real, b: real)
    requires Ascending(book) && a <= b && Sweep(book, a).filled > 0.0
    ensures Sweep(book, b).filled > 0.0
    ensures Sweep(book, a).Average().value <= Sweep(book, b).Average().value
  {
    hide Sweep, Depth;
    FilledIsMin(book, a);
    FilledIsMin(book, b);
    var (f, g) := (Sweep(book, a), Sweep(book, b));
    assert 0.0 < f.filled <= g.filled <= Depth(book);
    SweepOfFilled(book, a);
    SweepOfFilled(book, b);
    assert f.notional * g.filled <= g.notional * f.filled by {
      CostPerUnitGrows(book, f.filled, g.filled);
    }
    CompareQuotients(f.notional, f.filled, g.notional, g.filled);
  }

  lemma {:induction false} SweepOfFilled(book: Book, amount: real)
    requires amount > 0.0
    ensures Sweep(book, Sweep(book, amount).filled) == Sweep(book, amount)
  {
    FilledIsMin(book, amount);
    if amount > Depth(book) {
      SweepSaturates(book, amount);
    }
  }

  lemma {:induction false} CompareQuotients(n: real, x: real, m: real, y: real)
    requires x > 0.0 && y > 0.0 && n * y <= m * x
    ensures n / x <= m / y
  {
  }

  /** The price of the first usable level. */
  function BestPrice(book: Book): Option<real> {
    if book == [] then None else if book[0].Usable() then book[0].px else BestPrice(book[1..])
  }

  /** The price of the last level a sweep touches. */
  function WorstTouched(book: Book, amount: real): Option<real>
    decreases |book|
  {
    if book == [] || amount <= 0.0 then None
    else if !book[0].Usable() then WorstTouched(book[1..], amount)
    else
      var deeper := WorstTouched(book[1..], amount - Min(book[0].sz.value, amount));
      if deeper.Some? then deeper else book[0].px
  }

  lemma {:induction false} BestIsLeast(book: Book)
    requires Ascending(book)
    ensures BestPrice(book).Some? ==> PricesFrom(book, BestPrice(book).value)
    ensures BestPrice(book).None? ==> Depth(book) == 0.0
  {
    if book != [] {
      AscendingTail(book);
      BestIsLeast(book[1..]);
    }
  }

  lemma {:induction false} WorstStep(p: real, w: real, take: real, n: real, f: real)
    requires p <= w && take >= 0.0 && n <= f * w
    ensures take * p + n <= (take + f) * w
  {
  }

  lemma {:induction false} WorstBounds(book: Book, amount: real, p: real)
    requires Ascending(book) && PricesFrom(book, p)
    ensures
      var (fill, worst) := (Sweep(book, amount), WorstTouched(book, amount));
      && (worst.Some? ==> fill.filled > 0.0 && p <= worst.value && fill.notional <= fill.filled * worst.value)
      && (worst.None? ==> fill == Fill(0.0, 0.0))
    decreases |book|
  {
    if book != [] && amount > 0.0 {
      AscendingTail(book);
      PricesTail(book, p);
      if !book[0].Usable() {
        WorstBounds(book[1..], amount, p);
      } else {
        var (p0, take) := (book[0].px.value, Min(book[0].sz.value, amount));
        var (deeper, rest) := (WorstTouched(book[1..], amount - take), Sweep(book[1..], amount - take));
        SweepHead(book, amount);
        WorstBounds(book[1..], amount - take, p0);
        WorstStep(p0, if deeper.Some? then deeper.value else p0, take, rest.notional, rest.filled);
      }
    }
  }

  /** The average price lies between the best price and the worst touched one. */
  lemma {:induction false} AverageInRange(book: Book, amount: real)
    requires Ascending(book) && Sweep(book, amount).filled > 0.0
    ensures BestPrice(book).Some? && WorstTouched(book, amount).Some?
    ensures BestPrice(book).value <= Sweep(book, amount).Average().value <= WorstTouched(book, amount).value
  {
    hide Sweep, Depth;
    FilledIsMin(book, amount);
    BestIsLeast(book);
    var (fill, best) := (Sweep(book, amount), BestPrice(book).value);
    WorstBounds(book, amount, best);
    SweepOfFilled(book, amount);
    SweepNothing(book, 0.0);
    assert fill.notional >= best * fill.filled by {
      MarginalCost(book, best, 0.0, fill.filled);
    }
    QuotientBounds(best, fill.notional, fill.filled, WorstTouched(book, amount).value);
  }

  lemma {:induction false} QuotientBounds(lo: real, n: real, x: real, hi: real)
    requires x > 0.0 && lo * x <= n <= x * hi
    ensures lo <= n / x <= hi
  {
  }

  /** Against a positive reference at or below the best ask, slippage never falls as the order
      grows: an order rejected for its slippage stays rejected when it is made larger. */
  lemma {:induction false} SlippageIsMonotone(book: Book, a: real, b: real, reference: real)
    requires Ascending(book) && a <= b && reference > 0.0
    requires BestPrice(book).Some? ==> reference <= BestPrice(book).value
    ensures 0.0 <= Sweep(book, a).SlippageVs(reference) <= Sweep(book, b).SlippageVs(reference)
  {
    hide Sweep, Depth, BestPrice;
    FilledIsMin(book, a);
    FilledIsMin(book, b);
    if Sweep(book, b).filled > 0.0 {
      AverageInRange(book, b);
      var v := Sweep(book, b).Average().value;
      if Sweep(book, a).filled > 0.0 {
        AverageInRange(book, a);
        AverageIsMonotone(book, a, b);
        var u := Sweep(book, a).Average().value;
        CompareQuotients(u - reference, reference, v - reference, reference);
        CompareQuotients(0.0, 1.0, u - reference, reference);
      } else {
        CompareQuotients(0.0, 1.0, v - reference, reference);
      }
    }
  }
  /** What slippage is: the distance of the average from the reference, without its sign, relative to
      the reference; nothing filled and a zero reference count as none. */
  lemma {:induction false} SlippageIsDistance(book: Book, amount: real, reference: real)
    ensures
      var (fill, slippage) := (Sweep(book, amount), Sweep(book, amount).SlippageVs(reference));
      && (fill.filled <= 0.0 || reference == 0.0 ==> slippage == 0.0)
      && (reference > 0.0 ==> slippage >= 0.0) && (reference < 0.0 ==> slippage <= 0.0)
      && (fill.filled > 0.0 && reference != 0.0 ==>
            slippage * reference * fill.filled ==
            if fill.notional >= reference * fill.filled then fill.notional - reference * fill.filled
            else reference * fill.filled - fill.notional)
  {
    hide Sweep;
    DistanceOf(Sweep(book, amount), reference);
  }

  lemma {:induction false} DistanceOf(fill: Fill, reference: real)
    ensures fill.filled <= 0.0 || reference == 0.0 ==> fill.SlippageVs(reference) == 0.0
    ensures (reference > 0.0 ==> fill.SlippageVs(reference) >= 0.0) && (reference < 0.0 ==> fill.SlippageVs(reference) <= 0.0)
    ensures fill.filled > 0.0 && reference != 0.0 ==>
              fill.SlippageVs(reference) * reference * fill.filled ==
              if fill.notional >= reference * fill.filled then fill.notional - reference * fill.filled
              else reference * fill.filled - fill.notional
  {
    if fill.filled > 0.0 && reference != 0.0 {
      var (q, d) := (fill.notional / fill.filled, fill.SlippageVs(reference));
      QuotientSign(Abs(q - reference), reference);
      assert q * fill.filled == fill.notional;
      assert d * reference == Abs(q - reference);
      if q >= reference {
        assert q * fill.filled >= reference * fill.filled;
        assert (d * reference) * fill.filled == (q - reference) * fill.filled;
      } else {
        assert q * fill.filled < reference * fill.filled;
        assert (d * reference) * fill.filled == (reference - q) * fill.filled;
      }
    }
  }

  lemma {:induction false} QuotientSign(n: real, r: real)
    requires n >= 0.0 && r != 0.0
    ensures (r > 0.0 ==> n / r >= 0.0) && (r < 0.0 ==> n / r <= 0.0)
  {
  }

  lemma {:induction false} NegateUsableOrder(book: Book)
    ensures Descending(book) ==> Ascending(Negate(book))
    ensures Sweep(Negate(book), 0.0) == Fill(0.0, 0.0)
  {
    NegateLevels(book);
  }

  lemma {:induction false} NegateFilled(book: Book, amount: real)
    ensures Sweep(Negate(book), amount).filled == Sweep(book, amount).filled
    decreases |book|
  {
    if book != [] && amount > 0.0 {
      assert Negate(book)[1..] == Negate(book[1..]);
      NegateFilled(book[1..], if book[0].Usable() then amount - Min(book[0].sz.value, amount) else amount);
    }
  }

  /** On descending levels a larger sale has no better average price. */
  lemma {:induction false} SaleAverageFalls(book: Book, a: real, b: real)
    requires Descending(book) && a <= b && Sweep(book, a).filled > 0.0
    ensures Sweep(book, b).filled > 0.0
    ensures Sweep(book, a).Average().value >= Sweep(book, b).Average().value
  {
    hide Sweep, Negate;
    NegateUsableOrder(book);
    NegateFilled(book, a);
    NegateFilled(book, b);
    NegateSweep(book, a);
    NegateSweep(book, b);
    AverageIsMonotone(Negate(book), a, b);
    OppositeQuotient(Sweep(book, a).notional, Sweep(book, a).filled);
    OppositeQuotient(Sweep(book, b).notional, Sweep(book, b).filled);
  }

  lemma {:induction false} OppositeQuotient(n: real, x: real)
    requires x > 0.0
    ensures -n / x == -(n / x)
  {
  }

  lemma {:induction false} NegateBest(book: Book)
    ensures BestPrice(book).Some? <==> BestPrice(Negate(book)).Some?
    ensures BestPrice(book).Some? ==> BestPrice(Negate(book)).value == -BestPrice(book).value
  {
    if book != [] {
      assert Negate(book)[1..] == Negate(book[1..]);
      NegateBest(book[1..]);
    }
  }

  lemma {:induction false} SaleAverageBelowBest(book: Book, amount: real)
    requires Descending(book) && Sweep(book, amount).filled > 0.0
    ensures BestPrice(book).Some? && Sweep(book, amount).Average().value <= BestPrice(book).value
  {
    hide Sweep, Negate, BestPrice;
    NegateUsableOrder(book);
    NegateFilled(book, amount);
    NegateSweep(book, amount);
    NegateBest(book);
    AverageInRange(Negate(book), amount);
    OppositeQuotient(Sweep(book, amount).notional, Sweep(book, amount).filled);
  }

  /** Against a reference at or above the best bid, a sale's slippage never falls as it grows. */
  lemma {:induction false} SaleSlippageIsMonotone(book: Book, a: real, b: real, reference: real)
    requires Descending(book) && a <= b && reference > 0.0
    requires BestPrice(book).Some? ==> reference >= BestPrice(book).value
    ensures 0.0 <= Sweep(book, a).SlippageVs(reference) <= Sweep(book, b).SlippageVs(reference)
  {
    hide Sweep, BestPrice;
    if Sweep(book, a).filled > 0.0 {
      SaleAverageFalls(book, a, b);
      SaleAverageBelowBest(book, a);
      SaleAverageBelowBest(book, b);
      var (u, v) := (Sweep(book, a).Average().value, Sweep(book, b).Average().value);
      CompareQuotients(reference - u, reference, reference - v, reference);
      CompareQuotients(0.0, 1.0, reference - u, reference);
    } else if Sweep(book, b).filled > 0.0 {
      SaleAverageBelowBest(book, b);
      CompareQuotients(0.0, 1.0, reference - Sweep(book, b).Average().value, reference);
    }
  }
  // ---- Level by level ------------------------------------------------------------------

  /** What an order takes of level `i`: what the levels before it leave of the order, at most the
      level's size. */
  function Taken(book: Book, amount: real, i: nat): real
    requires i < |book|
  {
    var left := amount - Depth(book[..i]);
    if book[i].px.None? || book[i].sz.None? || book[i].sz.value <= 0.0 || left <= 0.0 then 0.0
    else if book[i].sz.value <= left then book[i].sz.value else left
  }

  function AllTaken(book: Book, amount: real): (taken: seq<real>)
    ensures |taken| == |book|
  {
    seq(|book|, i requires 0 <= i < |book| => Taken(book, amount, i))
  }

  lemma {:induction false} TakenBehind(book: Book, amount: real)
    requires book != []
    ensures AllTaken(book, amount)[1..] == AllTaken(book[1..], amount - Depth(book[..1]))
    ensures Depth(book[..1]) == if book[0].Usable() then book[0].sz.value else 0.0
  {
    assert book[..1][1..] == [];
    forall i | 0 < i < |book|
      ensures Taken(book, amount, i) == Taken(book[1..], amount - Depth(book[..1]), i - 1)
    {
      assert book[..i][0] == book[0] && book[..i][1..] == book[1..][..i - 1];
    }
  }

  /** Nothing is taken of an order that is used up. */
  lemma {:induction false} NothingTaken(book: Book, amount: real)
    requires amount <= 0.0
    ensures Cost(book, AllTaken(book, amount)) == 0.0
    decreases |book|
  {
    if book != [] {
      TakenBehind(book, amount);
      assert book[..0] == [];
      NothingTaken(book[1..], amount - Depth(book[..1]));
    }
  }

  /** In every book, sorted or not, the notional is what the levels charge for what the order takes
      of each in turn. */
  lemma {:induction false} SweepChargesLevels(book: Book, amount: real)
    ensures Sweep(book, amount).notional == Cost(book, AllTaken(book, amount))
    decreases |book|
  {
    if book == [] {
    } else if amount <= 0.0 {
      NothingTaken(book, amount);
    } else {
      TakenBehind(book, amount);
      assert book[..0] == [];
      SweepChargesLevels(book[1..], amount - Depth(book[..1]));
      if book[0].Usable() && book[0].sz.value >= amount {
        SweepNothing(book[1..], amount - amount);
        SweepNothing(book[1..], amount - book[0].sz.value);
      }
    }
  }
}
