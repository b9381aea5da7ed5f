/** The order-book cache over two Redis sorted sets per symbol.

    A member is a text, as a rule the JSON of a whole price level; bids are scored by the negated
    price, asks by the price.  Prices are reals: the rounding of scores to doubles
    is not modelled, and members with equal scores may be listed in any order.  `set_orderbook`
    clears both sets and then adds level by level, each command atomic, while readers run. */
module OrderbookCache {
  import opened Wrappers

  datatype Level = Level(price: real, amount: real)

  /** A member's text: a JSON level, or a bare price, which no reader can parse. */
  datatype Member = Json(level: Level) | Bare(price: real)

  type SortedSet = map<Member, real>

  datatype Cache = Cache(bids: SortedSet, asks: SortedSet)

  datatype Side = Bids | Asks

  /** `Zrem` names the member to remove by a bare price. */
  datatype Command = Del(side: Side) | Zadd(side: Side, level: Level) | Zrem(side: Side, price: real)

  const NO_LEVELS: Cache := Cache(map[], map[])

  function Score(side: Side, level: Level): real {
    if side == Bids then -level.price else level.price
  }

  function Get(c: Cache, side: Side): SortedSet {
    if side == Bids then c.bids else c.asks
  }

  function Put(c: Cache, side: Side, s: SortedSet): Cache {
    if side == Bids then c.(bids := s) else c.(asks := s)
  }

  function Apply(c: Cache, cmd: Command): Cache {
    match cmd
    case Del(side) => Put(c, side, map[])
    case Zadd(side, level) => Put(c, side, Get(c, side)[Json(level) := Score(side, level)])
    case Zrem(side, price) => Put(c, side, Get(c, side) - {Bare(price)})
  }

  function ApplyAll(c: Cache, cmds: seq<Command>): Cache
    decreases |cmds|
  {
    if cmds == [] then c else ApplyAll(Apply(c, cmds[0]), cmds[1..])
  }

  /** `set_bid` / `set_ask`. */
  function SetLevel(side: Side, level: Level): Command {
    if level.amount == 0.0 then Zrem(side, level.price) else Zadd(side, level)
  }

  function SetLevels(side: Side, levels: seq<Level>): seq<Command> {
    if levels == [] then [] else [SetLevel(side, levels[0])] + SetLevels(side, levels[1..])
  }

  /** The commands of `set_orderbook`, in order. */
  function Replace(bids: seq<Level>, asks: seq<Level>): seq<Command> {
    [Del(Bids), Del(Asks)] + SetLevels(Bids, bids) + SetLevels(Asks, asks)
  }

  function NonZero(levels: seq<Level>): set<Level> {
    set l | l in levels && l.amount != 0.0
  }

  function JsonOf(levels: set<Level>): set<Member> {
    set l | l in levels :: Json(l)
  }

  /** The members that parse as levels, in order. */
  function Parsed(members: seq<Member>): seq<Level> {
    if members == [] then []
    else (if members[0].Json? then [members[0].level] else []) + Parsed(members[1..])
  }

  /** `ZRANGE 0 limit-1` of a listing. A limit of zero wraps to -1, the last index. */
  function Range(all: seq<Member>, limit: nat): seq<Member> {
    if limit == 0 || limit > |all| then all else all[..limit]
  }

  /** `get_bids` / `get_asks`: the first members by score, as far as they parse. */
  ghost predicate Read(out: seq<Level>, c: Cache, side: Side, limit: nat) {
    exists all :: Listing(all, Get(c, side)) && out == Parsed(Range(all, limit))
  }

  /** Every member once, scores ascending. */
  ghost predicate Listing(all: seq<Member>, s: SortedSet) {
    && (forall m :: m in all <==> m in s)
    && (forall i, j | 0 <= i < j < |all| :: all[i] != all[j])
    && (forall i, j | 0 <= i < j < |all| && all[i] in s && all[j] in s :: s[all[i]] <= s[all[j]])
  }

  /** The caches after each of the commands. */
  function Trace(c: Cache, cmds: seq<Command>): (caches: seq<Cache>)
    ensures |caches| == |cmds|
    ensures forall i | 0 <= i < |cmds| :: caches[i] == ApplyAll(c, cmds[..i + 1])
    decreases |cmds|
  {
    if cmds == [] then []
    else
      var after := Apply(c, cmds[0]);
      assert forall i | 0 < i < |cmds| :: cmds[..i + 1][1..] == cmds[1..][..i];
      [after] + Trace(after, cmds[1..])
  }

  // ---- Writing -------------------------------------------------------------------------

  /** The sets of one symbol. `history` lists the cache after every executed command. */
  class Books {
    var cache: Cache
    ghost var history: seq<Cache>

    constructor ()
      ensures cache == NO_LEVELS && history == []
    {
      cache := NO_LEVELS;
      history := [];
    }

    /** One Redis command; a failed one changes nothing. */
    method Send(cmd: Command, fails: bool) returns (ok: bool)
      modifies this
      ensures ok == !fails
      ensures cache == if fails then old(cache) else Apply(old(cache), cmd)
      ensures history == if fails then old(history) else old(history) + [cache]
    {
      if fails {
        return false;
      }
      match cmd {
        case Del(side) =>
          if side == Bids { cache := cache.(bids := map[]); } else { cache := cache.(asks := map[]); }
        case Zadd(side, level) =>
          if side == Bids {
            cache := cache.(bids := cache.bids[Json(level) := -level.price]);
          } else {
            cache := cache.(asks := cache.asks[Json(level) := level.price]);
          }
        case Zrem(side, price) =>
          if side == Bids {
            cache := cache.(bids := cache.bids - {Bare(price)});
          } else {
            cache := cache.(asks := cache.asks - {Bare(price)});
          }
      }
      history := history + [cache];
      return true;
    }

    /** Sends commands until one fails; `failing` gives the position of a failing command. */
    method SendAll(cmds: seq<Command>, failing: Option<nat>) returns (ok: bool)
      modifies this
      ensures ok <==> failing.None? || failing.value >= |cmds|
      ensures cache == ApplyAll(old(cache), cmds[..if ok then |cmds| else failing.value])
      ensures history == old(history) + Trace(old(cache), cmds[..if ok then |cmds| else failing.value])
    {
      var i := 0;
      while i < |cmds|
        invariant 0 <= i <= |cmds|
        invariant failing.Some? ==> i <= failing.value
        invariant cache == ApplyAll(old(cache), cmds[..i])
        invariant history == old(history) + Trace(old(cache), cmds[..i])
      {
        ApplyNext(old(cache), cmds, i);
        TraceNext(old(cache), cmds, i);
        var sent := Send(cmds[i], failing == Some(i));
        if !sent {
          return false;
        }
        i := i + 1;
      }
      return true;
    }

    /** `set_orderbook`. */
    method SetOrderbook(bids: seq<Level>, asks: seq<Level>, failing: Option<nat>) returns (ok: bool)
      modifies this
      ensures ok <==> failing.None? || failing.value >= |Replace(bids, asks)|
      ensures ok ==> cache == ApplyAll(old(cache), Replace(bids, asks))
      ensures !ok ==> cache == ApplyAll(old(cache), Replace(bids, asks)[..failing.value])
      ensures history == old(history)
                         + Trace(old(cache), if ok then Replace(bids, asks) else Replace(bids, asks)[..failing.value])
    {
      var cmds := Replace(bids, asks);
      ok := SendAll(cmds, failing);
      assert cmds[..|cmds|] == cmds;
    }
  }

  lemma {:induction false} TraceNext(c: Cache, cmds: seq<Command>, n: nat)
    requires n < |cmds|
    ensures Trace(c, cmds[..n + 1]) == Trace(c, cmds[..n]) + [ApplyAll(c, cmds[..n + 1])]
  {
    forall i | 0 <= i < n
      ensures Trace(c, cmds[..n + 1])[i] == Trace(c, cmds[..n])[i]
    {
      assert cmds[..n + 1][..i + 1] == cmds[..n][..i + 1];
    }
    assert cmds[..n + 1][..n + 1] == cmds[..n + 1];
  }

  lemma {:induction false} ApplyNext(c: Cache, cmds: seq<Command>, n: nat)
    requires n < |cmds|
    ensures ApplyAll(c, cmds[..n + 1]) == Apply(ApplyAll(c, cmds[..n]), cmds[n])
    decreases n
  {
    if n == 0 {
      assert ApplyAll(Apply(c, cmds[0]), cmds[..1][1..]) == Apply(c, cmds[0]);
    } else {
      ApplyNext(Apply(c, cmds[0]), cmds[1..], n - 1);
      assert cmds[1..][..n] == cmds[..n + 1][1..] && cmds[1..][..n - 1] == cmds[..n][1..];
    }
  }

  // ---- What a reader may see -----------------------------------------------------------

  /** The levels a list of commands adds to a side after the side was last cleared. */
  function Added(cmds: seq<Command>, side: Side): set<Level> {
    if cmds == [] then {}
    else
      var (init, last) := (cmds[..|cmds| - 1], cmds[|cmds| - 1]);
      if last.Del? && last.side == side then {}
      else if last.Zadd? && last.side == side then Added(init, side) + {last.level}
      else Added(init, side)
  }

  predicate Cleared(cmds: seq<Command>, side: Side) {
    Del(side) in cmds
  }

  ghost predicate Scored(s: SortedSet, side: Side) {
    forall m | m in s && m.Json? :: s[m] == Score(side, m.level)
  }

  ghost predicate HoldsAdded(s: SortedSet, cmds: seq<Command>, side: Side) {
    s.Keys == JsonOf(Added(cmds, side)) && Scored(s, side)
  }

  lemma {:induction false} SideStep(c: Cache, init: seq<Command>, last: Command, side: Side)
    requires HoldsAdded(Get(c, side), init, side) || last == Del(side)
    ensures HoldsAdded(Get(Apply(c, last), side), init + [last], side)
  {
    var cmds := init + [last];
    assert cmds[..|cmds| - 1] == init && cmds[|cmds| - 1] == last;
  }

  /** Once cleared, a side holds exactly what was added since. */
  lemma {:induction false} SideAfter(c: Cache, cmds: seq<Command>, side: Side)
    ensures Cleared(cmds, side) ==> HoldsAdded(Get(ApplyAll(c, cmds), side), cmds, side)
    ensures (forall x | x in cmds :: x.side != side) ==> Get(ApplyAll(c, cmds), side) == Get(c, side)
    decreases |cmds|
  {
    hide HoldsAdded;
    if cmds != [] {
      var (init, last) := (cmds[..|cmds| - 1], cmds[|cmds| - 1]);
      assert cmds == init + [last];
      SideAfter(c, init, side);
      ApplyNext(c, cmds, |cmds| - 1);
      assert cmds[..|cmds|] == cmds;
      assert forall x :: x in cmds <==> x in init || x == last;
      if Cleared(cmds, side) { SideStep(ApplyAll(c, init), init, last, side); }
    }
  }

  lemma {:induction false} SetLevelsMembers(side: Side, levels: seq<Level>, which: Side)
    ensures forall l :: Zadd(which, l) in SetLevels(side, levels) <==> which == side && l in NonZero(levels)
    ensures Del(which) !in SetLevels(side, levels)
  {
    if levels != [] {
      SetLevelsMembers(side, levels[1..], which);
      assert levels == [levels[0]] + levels[1..];
    }
  }

  lemma {:induction false} AddedMembers(cmds: seq<Command>, side: Side)
    ensures forall l :: l in Added(cmds, side) ==> Zadd(side, l) in cmds
    decreases |cmds|
  {
    if cmds != [] {
      AddedMembers(cmds[..|cmds| - 1], side);
      assert cmds == cmds[..|cmds| - 1] + [cmds[|cmds| - 1]];
    }
  }

  lemma {:induction false} AddedAll(cmds: seq<Command>, k: nat, side: Side)
    requires k <= |cmds| && Del(side) !in cmds[k..]
    ensures forall l :: Zadd(side, l) in cmds[k..] ==> l in Added(cmds, side)
    decreases |cmds|
  {
    if k < |cmds| {
      var (init, last) := (cmds[..|cmds| - 1], cmds[|cmds| - 1]);
      assert cmds[k..] == init[k..] + [last];
      AddedAll(init, k, side);
    }
  }

  /** The write adds exactly the new non-zero levels, and clears each side once, at the start. */
  lemma {:induction false} ReplaceMembers(bids: seq<Level>, asks: seq<Level>, side: Side)
    ensures forall l :: Zadd(side, l) in Replace(bids, asks) <==> l in NonZero(if side == Bids then bids else asks)
    ensures Del(side) !in Replace(bids, asks)[2..]
    ensures Del(side) == Replace(bids, asks)[if side == Bids then 0 else 1]
  {
    SetLevelsMembers(Bids, bids, side);
    SetLevelsMembers(Asks, asks, side);
    var (b, a, cmds) := (SetLevels(Bids, bids), SetLevels(Asks, asks), Replace(bids, asks));
    assert cmds == [Del(Bids), Del(Asks)] + b + a;
    hide *;
    assert cmds[2..] == b + a;
    forall l
      ensures Zadd(side, l) in cmds <==> Zadd(side, l) in b || Zadd(side, l) in a
    {
    }
  }

  lemma {:induction false} SetLevelsPrefix(side: Side, levels: seq<Level>, n: nat)
    requires n <= |levels|
    ensures |SetLevels(side, levels)| == |levels| && SetLevels(side, levels)[..n] == SetLevels(side, levels[..n])
  {
    if levels != [] {
      SetLevelsPrefix(side, levels[1..], if n == 0 then 0 else n - 1);
      if n > 0 { assert levels[..n][1..] == levels[1..][..n - 1]; }
    }
  }

  /** The first `n` commands of a write are a write of the first levels. */
  lemma {:induction false} WritePrefix(bids: seq<Level>, asks: seq<Level>, n: nat)
    requires n <= |bids| + |asks|
    ensures
      var b := if n <= |bids| then n else |bids|;
      |Replace(bids, asks)| == 2 + |bids| + |asks| && Replace(bids, asks)[..n + 2] == Replace(bids[..b], asks[..n - b])
  {
    var b := if n <= |bids| then n else |bids|;
    SetLevelsPrefix(Bids, bids, b);
    SetLevelsPrefix(Asks, asks, n - b);
    var (x, y) := (SetLevels(Bids, bids), SetLevels(Asks, asks));
    hide SetLevels;
    assert ([Del(Bids), Del(Asks)] + x + y)[..n + 2] == [Del(Bids), Del(Asks)] + x[..b] + y[..n - b];
  }

  /** While a write is under way the cache holds exactly the non-zero levels written so far: bids in
      the order given, then asks. */
  lemma {:induction false} PartialWrite(c: Cache, bids: seq<Level>, asks: seq<Level>, n: nat)
    requires n + 2 <= |Replace(bids, asks)|
    ensures
      var (b, now) := (if n <= |bids| then n else |bids|, ApplyAll(c, Replace(bids, asks)[..n + 2]));
      && now.bids.Keys == JsonOf(NonZero(bids[..b])) && Scored(now.bids, Bids)
      && n - b <= |asks| && now.asks.Keys == JsonOf(NonZero(asks[..n - b])) && Scored(now.asks, Asks)
  {
    var b := if n <= |bids| then n else |bids|;
    SetLevelsPrefix(Bids, bids, 0);
    SetLevelsPrefix(Asks, asks, 0);
    WritePrefix(bids, asks, n);
    WriteReplaces(c, bids[..b], asks[..n - b], Bids);
    WriteReplaces(c, bids[..b], asks[..n - b], Asks);
    hide Replace, ApplyAll, JsonOf, NonZero, Scored;
  }

  /** At every moment of a write each side is still the old one, or holds only new levels with
      their scores: never a mixture. */
  lemma {:induction false} NeverAMixture(c: Cache, bids: seq<Level>, asks: seq<Level>, n: nat, side: Side)
    requires n <= |Replace(bids, asks)|
    ensures
      var now := Get(ApplyAll(c, Replace(bids, asks)[..n]), side);
      now == Get(c, side) || (now.Keys <= JsonOf(NonZero(if side == Bids then bids else asks)) && Scored(now, side))
  {
    var cmds := Replace(bids, asks);
    ReplaceMembers(bids, asks, side);
    SideAfter(c, cmds[..n], side);
    AddedMembers(cmds[..n], side);
    if n > (if side == Bids then 0 else 1) {
      assert Del(side) in cmds[..n];
    } else {
      assert forall x | x in cmds[..n] :: x == Del(Bids);
    }
  }

  /** After the write a side is exactly the new non-zero levels, whatever was cached before. */
  lemma {:induction false} WriteReplaces(c: Cache, bids: seq<Level>, asks: seq<Level>, side: Side)
    ensures
      var now := Get(ApplyAll(c, Replace(bids, asks)), side);
      now.Keys == JsonOf(NonZero(if side == Bids then bids else asks)) && Scored(now, side)
  {
    var cmds := Replace(bids, asks);
    ReplaceMembers(bids, asks, side);
    SideAfter(c, cmds, side);
    AddedMembers(cmds, side);
    AddedAll(cmds, 2, side);
    assert Del(side) in cmds;
    forall l | l in NonZero(if side == Bids then bids else asks)
      ensures l in Added(cmds, side)
    {
      assert Zadd(side, l) in cmds;
      assert cmds == cmds[..2] + cmds[2..] && cmds[..2] == [Del(Bids), Del(Asks)];
    }
  }

  predicate Better(side: Side, a: Level, b: Level) {
    if side == Bids then a.price > b.price else a.price < b.price
  }

  /** The best `depth` of a set of levels, best first. */
  ghost predicate TopLevels(out: seq<Level>, levels: set<Level>, side: Side, depth: nat) {
    && (forall l | l in out :: l in levels)
    && (forall i, j | 0 <= i < j < |out| :: out[i] != out[j] && !Better(side, out[j], out[i]))
    && (forall l, m | l in levels && l !in out && m in out :: !Better(side, l, m))
    && |out| == if depth <= |levels| then depth else |levels|
  }

  lemma {:induction false} ParsedAll(members: seq<Member>)
    requires forall m | m in members :: m.Json?
    ensures |Parsed(members)| == |members|
    ensures forall i | 0 <= i < |members| :: Parsed(members)[i] == members[i].level
  {
    if members != [] {
      ParsedAll(members[1..]);
    }
  }

  lemma {:induction false} ParsedMembers(members: seq<Member>)
    ensures forall l :: l in Parsed(members) <==> Json(l) in members
  {
    if members != [] {
      ParsedMembers(members[1..]);
      assert members == [members[0]] + members[1..];
    }
  }

  lemma {:induction false} ListingSize(all: seq<Member>, levels: set<Level>)
    requires forall m :: m in all <==> m.Json? && m.level in levels
    requires forall i, j | 0 <= i < j < |all| :: all[i] != all[j]
    ensures |all| == |levels|
  {
    if all != [] {
      assert all[0] in all;
      var first := all[0].level;
      forall m
        ensures m in all[1..] <==> m.Json? && m.level in levels - {first}
      {
        if m.Json? && m.level in levels - {first} {
          assert m in all;
        }
      }
      ListingSize(all[1..], levels - {first});
    } else {
      assert forall l :: l in levels <==> Json(l) in all;
      assert levels == {};
    }
  }

  lemma {:induction false} ListingOrder(all: seq<Member>, s: SortedSet, side: Side, i: nat, j: nat)
    requires Listing(all, s) && Scored(s, side) && i < j < |all| && all[i].Json? && all[j].Json?
    ensures all[i].level != all[j].level && !Better(side, all[j].level, all[i].level)
  {
  }

  lemma {:induction false} AllJson(all: seq<Member>, s: SortedSet, levels: set<Level>)
    requires Listing(all, s) && s.Keys == JsonOf(levels)
    ensures forall m :: m in all <==> m.Json? && m.level in levels
    ensures forall i, j | 0 <= i < j < |all| :: all[i] != all[j]
  {
    assert forall m :: m in all <==> m in s.Keys;
  }

  lemma {:induction false} RestIsNoBetter(all: seq<Member>, s: SortedSet, side: Side, n: nat, l: Level, m: Level)
    requires Listing(all, s) && Scored(s, side) && n <= |all|
    requires Json(l) in all && Json(l) !in all[..n] && Json(m) in all[..n]
    ensures !Better(side, l, m)
  {
  }

  /** No two of the first members are the same level, and none is better than one before it. */
  ghost predicate BestFirst(members: seq<Member>, side: Side) {
    forall i, j | 0 <= i < j < |members| && members[i].Json? && members[j].Json? ::
      members[i].level != members[j].level && !Better(side, members[j].level, members[i].level)
  }

  lemma {:induction false} ListingBestFirst(all: seq<Member>, s: SortedSet, side: Side, n: nat)
    requires Listing(all, s) && Scored(s, side) && n <= |all|
    ensures BestFirst(all[..n], side)
  {
    forall i, j | 0 <= i < j < n && all[i].Json? && all[j].Json?
      ensures all[i].level != all[j].level && !Better(side, all[j].level, all[i].level)
    {
      ListingOrder(all, s, side, i, j);
    }
  }

  lemma {:induction false} ParsedBestFirst(members: seq<Member>, side: Side)
    requires BestFirst(members, side) && forall m | m in members :: m.Json?
    ensures
      var out := Parsed(members);
      forall i, j | 0 <= i < j < |out| :: out[i] != out[j] && !Better(side, out[j], out[i])
  {
    ParsedAll(members);
    hide Better, Parsed;
    var out := Parsed(members);
    forall i, j | 0 <= i < j < |out|
      ensures out[i] != out[j] && !Better(side, out[j], out[i])
    {
      assert members[i].Json? && members[j].Json?;
    }
  }

  /** The levels among the first `n` members, and those left out. */
  lemma {:induction false} ParsedPrefix(all: seq<Member>, levels: set<Level>, n: nat)
    requires n <= |all| && forall m :: m in all <==> m.Json? && m.level in levels
    ensures |Parsed(all[..n])| == n && forall m | m in all[..n] :: m.Json?
    ensures forall l :: l in Parsed(all[..n]) ==> l in levels && Json(l) in all[..n]
    ensures forall l | l in levels && l !in Parsed(all[..n]) :: Json(l) in all && Json(l) !in all[..n]
  {
    hide Parsed;
    assert forall m | m in all[..n] :: m in all;
    ParsedAll(all[..n]);
    ParsedMembers(all[..n]);
  }

  /** The first `depth` members of a side, by score, are its best levels. */
  lemma {:induction false} TopOfListing(all: seq<Member>, s: SortedSet, side: Side, levels: set<Level>, depth: nat)
    requires Listing(all, s) && Scored(s, side) && s.Keys == JsonOf(levels) && depth > 0
    ensures TopLevels(Parsed(Range(all, depth)), levels, side, depth)
  {
    var n := if depth > |all| then |all| else depth;
    var out := Parsed(all[..n]);
    assert Range(all, depth) == all[..n];
    AllJson(all, s, levels);
    ListingSize(all, levels);
    ListingBestFirst(all, s, side, n);
    ParsedPrefix(all, levels, n);
    ParsedBestFirst(all[..n], side);
    forall l, m | l in levels && l !in out && m in out
      ensures !Better(side, l, m)
    {
      hide *;
      RestIsNoBetter(all, s, side, n, l, m);
    }
    hide Listing, Scored, Better, Range, BestFirst, Parsed, JsonOf;
  }

  /** Reading `depth` >= 1 levels after a completed write gives the best new levels, best first,
      in whatever order they were written and whatever was cached before. */
  lemma {:induction false} ReadAfterWrite(c: Cache, bids: seq<Level>, asks: seq<Level>, side: Side, depth: nat, out: seq<Level>)
    requires depth > 0 && Read(out, ApplyAll(c, Replace(bids, asks)), side, depth)
    ensures TopLevels(out, NonZero(if side == Bids then bids else asks), side, depth)
  {
    WriteReplaces(c, bids, asks, side);
    var s := Get(ApplyAll(c, Replace(bids, asks)), side);
    var all :| Listing(all, s) && out == Parsed(Range(all, depth));
    TopOfListing(all, s, side, NonZero(if side == Bids then bids else asks), depth);
  }

  lemma {:induction false} ParsedDistinct(members: seq<Member>)
    requires forall i, j | 0 <= i < j < |members| :: members[i] != members[j]
    ensures forall i, j | 0 <= i < j < |Parsed(members)| :: Parsed(members)[i] != Parsed(members)[j]
  {
    if members != [] {
      ParsedDistinct(members[1..]);
      ParsedMembers(members[1..]);
    }
  }

  /** Reading with limit zero returns the whole side: the upper index wraps to the last one. */
  lemma {:induction false} LimitZeroReadsAll(c: Cache, side: Side, out: seq<Level>)
    requires Read(out, c, side, 0)
    ensures forall l :: l in out <==> Json(l) in Get(c, side)
    ensures forall i, j | 0 <= i < j < |out| :: out[i] != out[j]
  {
    var all :| Listing(all, Get(c, side)) && out == Parsed(Range(all, 0));
    ParsedMembers(all);
    ParsedDistinct(all);
  }

  /** A read during a write returns levels of the old side only, or of the new one only. */
  lemma {:induction false} ReadDuringWrite(c: Cache, bids: seq<Level>, asks: seq<Level>, n: nat, side: Side, limit: nat,
                                           out: seq<Level>)
    requires n <= |Replace(bids, asks)| && Read(out, ApplyAll(c, Replace(bids, asks)[..n]), side, limit)
    ensures Read(out, c, side, limit) || forall l | l in out :: l in NonZero(if side == Bids then bids else asks)
  {
    NeverAMixture(c, bids, asks, n, side);
    var now := Get(ApplyAll(c, Replace(bids, asks)[..n]), side);
    var all :| Listing(all, now) && out == Parsed(Range(all, limit));
    ParsedMembers(Range(all, limit));
    assert forall m | m in Range(all, limit) :: m in all && m in now.Keys;
  }

  /** Whatever commands were sent, no cache ever holds a bare price. */
  lemma {:induction false} NoBareMember(cmds: seq<Command>, side: Side, price: real)
    ensures Bare(price) !in Get(ApplyAll(NO_LEVELS, cmds), side)
    decreases |cmds|
  {
    if cmds != [] {
      NoBareMember(cmds[..|cmds| - 1], side, price);
      ApplyNext(NO_LEVELS, cmds, |cmds| - 1);
      assert cmds[..|cmds|] == cmds;
    }
  }

  /** So setting a level to amount zero on its own, meant to remove it, never changes a cache. */
  lemma {:induction false} ZeroAmountRemovesNothing(cmds: seq<Command>, side: Side, level: Level)
    ensures
      var c := ApplyAll(NO_LEVELS, cmds);
      Apply(c, SetLevel(side, level.(amount := 0.0))) == c
  {
    NoBareMember(cmds, side, level.price);
  }
}
