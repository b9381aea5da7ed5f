/** The fixed-window rate limiter.

    Each client has a counter and the start of its window; the first request at or after the
    window's end starts a new one.  Times are nanoseconds of a clock that does not run backwards.
    The counter is a `u32` and wraps, as release builds do.  The clean-up task drops expired
    entries of its own copy of the map; a `Cleanup` event of a run is what it would do to the map
    itself. */
module RateLimiter {
  import opened Wrappers

  const NANOS: nat := 1_000_000_000
  const U32: nat := 0x1_0000_0000

  type Client = string

  datatype Config = Config(maxRequests: nat, windowSecs: nat) {
    function Window(): nat {
      windowSecs * NANOS
    }
  }

  datatype Entry = Entry(count: nat, start: nat)

  type Entries = map<Client, Entry>

  datatype Decision = Allowed(limit: nat, remaining: nat, resetSecs: nat) | Exceeded(retryAfterSecs: nat)

  datatype Event = Request(client: Client, at: nat) | Cleanup(at: nat)

  function Elapsed(e: Entry, now: nat): nat {
    if e.start <= now then now - e.start else 0
  }

  predicate Expired(c: Config, e: Entry, now: nat) {
    Elapsed(e, now) >= c.Window()
  }

  /** The client's entry after a request: created or reset if need be, then counted. */
  function Counted(c: Config, e: Option<Entry>, now: nat): Entry {
    var current := if e.None? || Expired(c, e.value, now) then Entry(0, now) else e.value;
    current.(count := (current.count + 1) % U32)
  }

  function Decide(c: Config, e: Entry, now: nat): Decision {
    var secs := Elapsed(e, now) / NANOS;
    var reset := if secs < c.windowSecs then c.windowSecs - secs else 0;
    if e.count > c.maxRequests then Exceeded(reset)
    else Allowed(c.maxRequests, c.maxRequests - e.count, reset)
  }

  function Get(entries: Entries, client: Client): Option<Entry> {
    if client in entries then Some(entries[client]) else None
  }

  function Retained(c: Config, entries: Entries, now: nat): Entries {
    map k | k in entries && !Expired(c, entries[k], now) :: entries[k]
  }

  function After(c: Config, entries: Entries, ev: Event): Entries {
    match ev
    case Request(client, at) => entries[client := Counted(c, Get(entries, client), at)]
    case Cleanup(at) => Retained(c, entries, at)
  }

  /** The decisions on the requests of a run, in order. */
  function Decisions(c: Config, entries: Entries, events: seq<Event>): seq<Decision>
    decreases |events|
  {
    if events == [] then []
    else
      var ev := events[0];
      (if ev.Request? then [Decide(c, Counted(c, Get(entries, ev.client), ev.at), ev.at)] else [])
      + Decisions(c, After(c, entries, ev), events[1..])
  }

  /** The limiter's shared map, and the copy of it that the clean-up task took when it started. */
  class Limiter {
    const config: Config
    var entries: Entries
    var copied: Entries

    constructor (config: Config)
      ensures this.config == config && entries == map[] && copied == map[]
    {
      this.config := config;
      entries, copied := map[], map[];
    }

    /** `check_rate_limit` at time `now`. */
    method CheckRateLimit(client: Client, now: nat) returns (decision: Decision)
      modifies this`entries
      ensures entries == After(config, old(entries), Request(client, now))
      ensures decision == Decide(config, Counted(config, Get(old(entries), client), now), now)
    {
      if client !in entries {
        entries := entries[client := Entry(0, now)];
      }
      var entry := entries[client];
      if Elapsed(entry, now) >= config.Window() {
        entry := Entry(0, now);
      }
      entry := entry.(count := (entry.count + 1) % U32);
      entries := entries[client := entry];
      var remaining := if entry.count <= config.maxRequests then config.maxRequests - entry.count else 0;
      var secs := Elapsed(entry, now) / NANOS;
      var reset := config.windowSecs - (if secs <= config.windowSecs then secs else config.windowSecs);
      if entry.count > config.maxRequests {
        return Exceeded(reset);
      }
      return Allowed(config.maxRequests, remaining, reset);
    }

    /** One tick of the clean-up task: it retains entries of its copy, so the shared map keeps all. */
    method CleanUp(now: nat)
      modifies this`copied
      ensures copied == After(config, old(copied), Cleanup(now))
      ensures old(copied) == map[] ==> copied == map[]
    {
      copied := map k | k in copied && Elapsed(copied[k], now) < config.Window() :: copied[k];
    }
  }

  // ---- Runs ----------------------------------------------------------------------------

  predicate NonDecreasing(events: seq<Event>) {
    forall i, j | 0 <= i < j < |events| :: events[i].at <= events[j].at
  }

  predicate NotBefore(events: seq<Event>, t: nat) {
    forall i | 0 <= i < |events| :: t <= events[i].at
  }

  lemma {:induction false} TailTimes(events: seq<Event>)
    requires events != [] && NonDecreasing(events)
    ensures NonDecreasing(events[1..]) && NotBefore(events[1..], events[0].at)
  {
  }

  function Requests(events: seq<Event>): seq<Event> {
    if events == [] then []
    else (if events[0].Request? then [events[0]] else []) + Requests(events[1..])
  }

  // ---- Clean-up changes nothing --------------------------------------------------------

  /** `a` may lack entries of `b` that are expired at time `t` and from then on. */
  ghost predicate Equivalent(c: Config, a: Entries, b: Entries, t: nat) {
    forall k ::
      && (k in a ==> k in b && a[k] == b[k])
      && (k in b && k !in a ==> Expired(c, b[k], t))
  }

  lemma {:induction false} SimulateCleanup(c: Config, a: Entries, b: Entries, events: seq<Event>, t: nat)
    requires Equivalent(c, a, b, t) && NonDecreasing(events) && NotBefore(events, t)
    ensures Decisions(c, a, events) == Decisions(c, b, Requests(events))
    decreases |events|
  {
    if events != [] {
      var ev := events[0];
      TailTimes(events);
      match ev {
        case Request(client, at) =>
          assert Counted(c, Get(a, client), at) == Counted(c, Get(b, client), at);
          SimulateCleanup(c, After(c, a, ev), After(c, b, ev), events[1..], at);
          assert Requests(events)[0] == ev && Requests(events)[1..] == Requests(events[1..]);
        case Cleanup(at) =>
          SimulateCleanup(c, After(c, a, ev), b, events[1..], at);
          assert Requests(events) == Requests(events[1..]);
      }
    }
  }

  /** Dropping expired entries at any moments leaves every decision as it would have been. */
  lemma {:induction false} CleanupIsInvisible(c: Config, entries: Entries, events: seq<Event>)
    requires NonDecreasing(events)
    ensures Decisions(c, entries, events) == Decisions(c, entries, Requests(events))
  {
    SimulateCleanup(c, entries, entries, events, 0);
  }

  /** The decisions on one client's requests. */
  function DecisionsFor(c: Config, entries: Entries, events: seq<Event>, client: Client): seq<Decision>
    decreases |events|
  {
    if events == [] then []
    else
      var ev := events[0];
      (if ev == Request(client, ev.at) then [Decide(c, Counted(c, Get(entries, client), ev.at), ev.at)] else [])
      + DecisionsFor(c, After(c, entries, ev), events[1..], client)
  }

  function OnlyOf(events: seq<Event>, client: Client): seq<Event> {
    if events == [] then []
    else
      (if events[0] == Request(client, events[0].at) || events[0].Cleanup? then [events[0]] else [])
      + OnlyOf(events[1..], client)
  }

  /** Clients do not influence each other. */
  lemma {:induction false} ClientsAreIndependent(c: Config, a: Entries, b: Entries, events: seq<Event>, client: Client)
    requires Get(a, client) == Get(b, client)
    ensures DecisionsFor(c, a, events, client) == DecisionsFor(c, b, OnlyOf(events, client), client)
    decreases |events|
  {
    if events != [] {
      var ev := events[0];
      if ev == Request(client, ev.at) || ev.Cleanup? {
        assert OnlyOf(events, client)[0] == ev && OnlyOf(events, client)[1..] == OnlyOf(events[1..], client);
        ClientsAreIndependent(c, After(c, a, ev), After(c, b, ev), events[1..], client);
      } else {
        assert OnlyOf(events, client) == OnlyOf(events[1..], client);
        ClientsAreIndependent(c, After(c, a, ev), b, events[1..], client);
      }
    }
  }

  // ---- How many requests pass ----------------------------------------------------------

  /** Accepted requests of `client` with a time in [lo, hi]. */
  function Accepts(c: Config, entries: Entries, events: seq<Event>, client: Client, lo: nat, hi: nat): nat
    decreases |events|
  {
    if events == [] then 0
    else
      var ev := events[0];
      (if ev.Request? && ev.client == client && lo <= ev.at <= hi
          && Counted(c, Get(entries, client), ev.at).count <= c.maxRequests then 1 else 0)
      + Accepts(c, After(c, entries, ev), events[1..], client, lo, hi)
  }

  /** No counter of `client` wraps during the run. */
  predicate NoOverflow(c: Config, entries: Entries, events: seq<Event>, client: Client)
    decreases |events|
  {
    events != [] ==>
      && (events[0] == Request(client, events[0].at) ==> Counted(c, Get(entries, client), events[0].at).count != 0)
      && NoOverflow(c, After(c, entries, events[0]), events[1..], client)
  }

  function Left(c: Config, count: nat): nat {
    if count <= c.maxRequests then c.maxRequests - count else 0
  }

  lemma {:induction false} NoneAfter(c: Config, entries: Entries, events: seq<Event>, client: Client, lo: nat, hi: nat, t: nat)
    requires NotBefore(events, t) && hi < t
    ensures Accepts(c, entries, events, client, lo, hi) == 0
    decreases |events|
  {
    if events != [] {
      NoneAfter(c, After(c, entries, events[0]), events[1..], client, lo, hi, t);
    }
  }

  lemma {:induction false} CountedStep(c: Config, e: Entry, now: nat)
    requires !Expired(c, e, now) && Counted(c, Some(e), now).count != 0 && e.count < U32
    ensures Counted(c, Some(e), now) == Entry(e.count + 1, e.start)
  {
  }

  ghost predicate Bounded(entries: Entries) {
    forall k | k in entries :: entries[k].count < U32
  }

  lemma {:induction false} BoundedAfter(c: Config, entries: Entries, ev: Event)
    requires Bounded(entries)
    ensures Bounded(After(c, entries, ev))
  {
  }

  /** While the window of the entry covers the interval, only what its counter leaves can pass. */
  lemma {:induction false} OneWindow(c: Config, entries: Entries, events: seq<Event>, client: Client, lo: nat, hi: nat)
    requires Bounded(entries) && NonDecreasing(events) && NoOverflow(c, entries, events, client)
    requires client in entries && hi < entries[client].start + c.Window()
    requires NotBefore(events, entries[client].start)
    ensures Accepts(c, entries, events, client, lo, hi) <= Left(c, entries[client].count)
    decreases |events|
  {
    if events != [] {
      var ev := events[0];
      var e := entries[client];
      TailTimes(events);
      BoundedAfter(c, entries, ev);
      if ev.at > hi {
        NoneAfter(c, After(c, entries, ev), events[1..], client, lo, hi, ev.at);
      } else {
        if ev == Request(client, ev.at) { CountedStep(c, e, ev.at); }
        OneWindow(c, After(c, entries, ev), events[1..], client, lo, hi);
      }
    }
  }

  /** If no window is open at `t`, only one can begin before the interval ends. */
  lemma {:induction false} LateStart(c: Config, entries: Entries, events: seq<Event>, client: Client, lo: nat, hi: nat, t: nat)
    requires Bounded(entries) && NonDecreasing(events) && NoOverflow(c, entries, events, client)
    requires hi < t + c.Window() && NotBefore(events, t)
    requires client in entries ==> Expired(c, entries[client], t)
    ensures Accepts(c, entries, events, client, lo, hi) <= c.maxRequests
    decreases |events|
  {
    if events != [] {
      var ev := events[0];
      TailTimes(events);
      BoundedAfter(c, entries, ev);
      if ev == Request(client, ev.at) {
        OneWindow(c, After(c, entries, ev), events[1..], client, lo, hi);
      } else {
        LateStart(c, After(c, entries, ev), events[1..], client, lo, hi, t);
      }
    }
  }

  /** A window that reaches into the interval can be followed by one more. */
  lemma {:induction false} TwoWindows(c: Config, entries: Entries, events: seq<Event>, client: Client, lo: nat, hi: nat)
    requires Bounded(entries) && NonDecreasing(events) && NoOverflow(c, entries, events, client)
    requires hi <= lo + c.Window() && NotBefore(events, lo)
    requires client in entries && lo < entries[client].start + c.Window() && NotBefore(events, entries[client].start)
    ensures Accepts(c, entries, events, client, lo, hi) <= Left(c, entries[client].count) + c.maxRequests
    decreases |events|
  {
    if events != [] {
      var ev := events[0];
      var e := entries[client];
      TailTimes(events);
      BoundedAfter(c, entries, ev);
      if Expired(c, e, ev.at) {
        LateStart(c, entries, events, client, lo, hi, ev.at);
      } else {
        if ev == Request(client, ev.at) { CountedStep(c, e, ev.at); }
        TwoWindows(c, After(c, entries, ev), events[1..], client, lo, hi);
      }
    }
  }

  lemma {:induction false} FirstWindow(c: Config, entries: Entries, events: seq<Event>, client: Client, lo: nat, hi: nat)
    requires Bounded(entries) && NonDecreasing(events) && NoOverflow(c, entries, events, client)
    requires c.windowSecs > 0 && hi <= lo + c.Window() && NotBefore(events, lo)
    requires client in entries ==> Expired(c, entries[client], lo)
    ensures Accepts(c, entries, events, client, lo, hi) <= 2 * c.maxRequests
    decreases |events|
  {
    if events != [] {
      var ev := events[0];
      TailTimes(events);
      BoundedAfter(c, entries, ev);
      if ev == Request(client, ev.at) {
        TwoWindows(c, After(c, entries, ev), events[1..], client, lo, hi);
      } else {
        FirstWindow(c, After(c, entries, ev), events[1..], client, lo, hi);
      }
    }
  }

  lemma {:induction false} IntervalFrom(c: Config, entries: Entries, events: seq<Event>, client: Client, lo: nat, hi: nat)
    requires Bounded(entries) && NonDecreasing(events) && NoOverflow(c, entries, events, client)
    requires c.windowSecs > 0 && hi <= lo + c.Window()
    requires client in entries ==> NotBefore(events, entries[client].start)
    ensures Accepts(c, entries, events, client, lo, hi) <= 2 * c.maxRequests
    decreases |events|
  {
    if events != [] {
      var ev := events[0];
      TailTimes(events);
      BoundedAfter(c, entries, ev);
      if ev.at < lo {
        IntervalFrom(c, After(c, entries, ev), events[1..], client, lo, hi);
      } else if client in entries && lo < entries[client].start + c.Window() {
        TwoWindows(c, entries, events, client, lo, hi);
      } else {
        FirstWindow(c, entries, events, client, lo, hi);
      }
    }
  }

  /** In any closed time interval as long as a window, whatever other clients and the clean-up do,
      a client gets at most twice the limit. */
  lemma {:induction false} AtMostTwicePerInterval(c: Config, events: seq<Event>, client: Client, lo: nat, hi: nat)
    requires c.windowSecs > 0 && NonDecreasing(events) && NoOverflow(c, map[], events, client)
    requires lo <= hi <= lo + c.Window()
    ensures Accepts(c, map[], events, client, lo, hi) <= 2 * c.maxRequests
  {
    IntervalFrom(c, map[], events, client, lo, hi);
  }

  /** Within one window of a client at most the limit passes. */
  lemma {:induction false} AtMostLimitPerWindow(c: Config, entries: Entries, start: nat, events: seq<Event>, client: Client)
    requires Bounded(entries) && (client in entries ==> Expired(c, entries[client], start)) && c.windowSecs > 0
    requires NonDecreasing(events) && NotBefore(events, start)
    requires NoOverflow(c, entries, [Request(client, start)] + events, client)
    ensures Accepts(c, entries, [Request(client, start)] + events, client, start, start + c.Window() - 1) <= c.maxRequests
  {
    var first := Request(client, start);
    assert ([first] + events)[1..] == events;
    BoundedAfter(c, entries, first);
    OneWindow(c, After(c, entries, first), events, client, start, start + c.Window() - 1);
  }

  /** `n` requests of a client at one moment. */
  function Volley(client: Client, t: nat, n: nat): seq<Event> {
    seq(n, _ => Request(client, t))
  }

  lemma {:induction false} OneMore(c: Config, entries: Entries, client: Client, t: nat, rest: seq<Event>, lo: nat, hi: nat)
    requires lo <= t <= hi
    ensures
      var e := Counted(c, Get(entries, client), t);
      var events := [Request(client, t)] + rest;
      && Accepts(c, entries, events, client, lo, hi)
         == (if e.count <= c.maxRequests then 1 else 0) + Accepts(c, entries[client := e], rest, client, lo, hi)
      && (NoOverflow(c, entries, events, client) <==> e.count != 0 && NoOverflow(c, entries[client := e], rest, client))
  {
    assert ([Request(client, t)] + rest)[1..] == rest;
  }

  /** While the window is open and its counter leaves room, all of them pass. */
  lemma {:induction false} VolleyPasses(c: Config, entries: Entries, client: Client, t: nat, n: nat, rest: seq<Event>,
                                        lo: nat, hi: nat)
    requires client in entries && !Expired(c, entries[client], t) && entries[client].count + n <= c.maxRequests < U32
    requires lo <= t <= hi
    ensures
      var after := entries[client := Entry(entries[client].count + n, entries[client].start)];
      && Accepts(c, entries, Volley(client, t, n) + rest, client, lo, hi) == n + Accepts(c, after, rest, client, lo, hi)
      && (NoOverflow(c, entries, Volley(client, t, n) + rest, client) <==> NoOverflow(c, after, rest, client))
    decreases n
  {
    hide Accepts, NoOverflow;
    if n == 0 {
      assert Volley(client, t, n) + rest == rest && entries == entries[client := entries[client]];
    } else {
      var e := entries[client];
      var next := entries[client := Entry(e.count + 1, e.start)];
      assert Volley(client, t, n) + rest == [Request(client, t)] + (Volley(client, t, n - 1) + rest);
      OneMore(c, entries, client, t, Volley(client, t, n - 1) + rest, lo, hi);
      VolleyPasses(c, next, client, t, n - 1, rest, lo, hi);
      assert next[client := Entry(e.count + n, e.start)] == entries[client := Entry(e.count + n, e.start)];
    }
  }

  /** A volley of the full limit opens a window and passes. */
  lemma {:induction false} VolleyOpens(c: Config, entries: Entries, client: Client, t: nat, rest: seq<Event>, lo: nat, hi: nat)
    requires client in entries ==> Expired(c, entries[client], t)
    requires 0 < c.maxRequests < U32 && c.windowSecs > 0 && lo <= t <= hi
    ensures
      var after := entries[client := Entry(c.maxRequests, t)];
      var events := Volley(client, t, c.maxRequests) + rest;
      && Accepts(c, entries, events, client, lo, hi) == c.maxRequests + Accepts(c, after, rest, client, lo, hi)
      && (NoOverflow(c, entries, events, client) <==> NoOverflow(c, after, rest, client))
  {
    hide Accepts, NoOverflow;
    var tail := Volley(client, t, c.maxRequests - 1) + rest;
    var next := entries[client := Entry(1, t)];
    assert Volley(client, t, c.maxRequests) + rest == [Request(client, t)] + tail;
    OneMore(c, entries, client, t, tail, lo, hi);
    VolleyPasses(c, next, client, t, c.maxRequests - 1, rest, lo, hi);
    assert next[client := Entry(c.maxRequests, t)] == entries[client := Entry(c.maxRequests, t)];
  }

  lemma {:induction false} NoEvents(c: Config, entries: Entries, client: Client, lo: nat, hi: nat)
    ensures Accepts(c, entries, [], client, lo, hi) == 0 && NoOverflow(c, entries, [], client)
  {
  }

  lemma {:induction false} VolleyOrder(client: Client, t: nat, n: nat, u: nat, m: nat)
    requires t <= u
    ensures NonDecreasing(Volley(client, t, n) + Volley(client, u, m))
  {
  }

  /** Twice the limit is reached under every configuration: the full limit at any moment, and
      again when that window ends. */
  lemma {:induction false} TwiceIsReached(c: Config, client: Client, t: nat)
    requires 0 < c.maxRequests < U32 && c.windowSecs > 0
    ensures
      var events := Volley(client, t, c.maxRequests) + Volley(client, t + c.Window(), c.maxRequests);
      && NonDecreasing(events) && NoOverflow(c, map[], events, client)
      && Accepts(c, map[], events, client, t, t + c.Window()) == 2 * c.maxRequests
  {
    var (n, later) := (c.maxRequests, t + c.Window());
    var second := Volley(client, later, n);
    var full := map[client := Entry(n, t)];
    assert Expired(c, full[client], later);
    hide *;
    assert second + [] == second && map[][client := Entry(n, t)] == full;
    VolleyOrder(client, t, n, later, n);
    VolleyOpens(c, map[], client, t, second, t, later);
    VolleyOpens(c, full, client, later, [], t, later);
    NoEvents(c, full[client := Entry(n, later)], client, t, later);
  }

  /** What a client can look up at `lo`: its window is over or absent, covers the whole interval,
      or is used up already. */
  predicate WindowHarmless(c: Config, entries: Entries, client: Client, lo: nat, hi: nat) {
    client in entries ==>
      || Expired(c, entries[client], lo)
      || hi < entries[client].start + c.Window()
      || entries[client].count >= c.maxRequests
  }

  lemma {:induction false} HarmlessBound(c: Config, entries: Entries, events: seq<Event>, client: Client, lo: nat, hi: nat)
    requires Bounded(entries) && NonDecreasing(events) && NotBefore(events, lo) && NoOverflow(c, entries, events, client)
    requires hi < lo + c.Window() && WindowHarmless(c, entries, client, lo, hi)
    requires client in entries ==> entries[client].start <= lo
    ensures Accepts(c, entries, events, client, lo, hi) <= c.maxRequests
  {
    if client !in entries || Expired(c, entries[client], lo) {
      LateStart(c, entries, events, client, lo, hi, lo);
    } else if hi < entries[client].start + c.Window() {
      OneWindow(c, entries, events, client, lo, hi);
    } else {
      TwoWindows(c, entries, events, client, lo, hi);
    }
  }

  /** One more request in the old window, then a full volley when it ends. */
  function Overrun(c: Config, entries: Entries, client: Client, lo: nat): seq<Event>
    requires client in entries
  {
    [Request(client, lo)] + Volley(client, entries[client].start + c.Window(), c.maxRequests)
  }

  lemma {:induction false} OverrunPasses(c: Config, entries: Entries, client: Client, lo: nat, hi: nat)
    requires c.maxRequests < U32 && c.windowSecs > 0 && !WindowHarmless(c, entries, client, lo, hi)
    requires entries[client].start <= lo
    ensures
      var events := Overrun(c, entries, client, lo);
      && NonDecreasing(events) && NotBefore(events, lo) && NoOverflow(c, entries, events, client)
      && Accepts(c, entries, events, client, lo, hi) == 1 + c.maxRequests
  {
    var (e, events) := (entries[client], Overrun(c, entries, client, lo));
    var later := e.start + c.Window();
    var next := After(c, entries, Request(client, lo));
    assert next == entries[client := Entry(e.count + 1, e.start)];
    var volley := Volley(client, later, c.maxRequests);
    assert events[1..] == volley && volley + [] == volley;
    VolleyOpens(c, next, client, later, [], lo, hi);
  }

  /** "Sliding window": in an interval shorter than a window, whatever requests and clean-ups come,
      at most the limit passes, exactly if the state at its start satisfies the condition. */
  lemma {:induction false} SlidingWindowIff(c: Config, entries: Entries, client: Client, lo: nat, hi: nat)
    requires Bounded(entries) && c.maxRequests < U32 && c.windowSecs > 0 && lo <= hi < lo + c.Window()
    requires client in entries ==> entries[client].start <= lo
    ensures
      (forall events | NonDecreasing(events) && NotBefore(events, lo) && NoOverflow(c, entries, events, client) ::
         Accepts(c, entries, events, client, lo, hi) <= c.maxRequests)
      <==> WindowHarmless(c, entries, client, lo, hi)
  {
    if WindowHarmless(c, entries, client, lo, hi) {
      forall events | NonDecreasing(events) && NotBefore(events, lo) && NoOverflow(c, entries, events, client)
        ensures Accepts(c, entries, events, client, lo, hi) <= c.maxRequests
      {
        HarmlessBound(c, entries, events, client, lo, hi);
      }
    } else {
      OverrunPasses(c, entries, client, lo, hi);
    }
  }

  function AfterAll(c: Config, entries: Entries, events: seq<Event>): Entries
    decreases |events|
  {
    if events == [] then entries else AfterAll(c, After(c, entries, events[0]), events[1..])
  }

  /** Requests of others and clean-ups leave a client's entry or drop it. */
  lemma {:induction false} OthersKeepOrDrop(c: Config, entries: Entries, events: seq<Event>, client: Client)
    requires forall i | 0 <= i < |events| :: events[i].Request? ==> events[i].client != client
    ensures Get(AfterAll(c, entries, events), client) in {None, Get(entries, client)}
    decreases |events|
  {
    if events != [] {
      var next := After(c, entries, events[0]);
      assert events[0].Request? ==> events[0].client != client;
      assert forall i | 0 <= i < |events[1..]| :: events[1..][i] == events[i + 1];
      OthersKeepOrDrop(c, next, events[1..], client);
      assert Get(next, client) in {None, Get(entries, client)};
    }
  }

  lemma {:induction false} RetryAlone(c: Config, e: Option<Entry>, now: nat, later: nat)
    requires c.maxRequests > 0 && (e.Some? ==> e.value.start <= now)
    requires Decide(c, Counted(c, e, now), now).Exceeded?
    requires later >= now + Decide(c, Counted(c, e, now), now).retryAfterSecs * NANOS
    ensures Decide(c, Counted(c, Some(Counted(c, e, now)), later), later).Allowed?
  {
  }

  /** A rejected client that waits for the time it was told is accepted again, whatever others and
      the clean-up do meanwhile. */
  lemma {:induction false} RetryAfterSuffices(c: Config, entries: Entries, client: Client, now: nat, meanwhile: seq<Event>,
                                              later: nat)
    requires c.maxRequests > 0 && (client in entries ==> entries[client].start <= now)
    requires Decide(c, Counted(c, Get(entries, client), now), now).Exceeded?
    requires later >= now + Decide(c, Counted(c, Get(entries, client), now), now).retryAfterSecs * NANOS
    requires forall i | 0 <= i < |meanwhile| :: meanwhile[i].Request? ==> meanwhile[i].client != client
    ensures
      var reached := AfterAll(c, After(c, entries, Request(client, now)), meanwhile);
      Decide(c, Counted(c, Get(reached, client), later), later).Allowed?
  {
    RetryAlone(c, Get(entries, client), now, later);
    OthersKeepOrDrop(c, After(c, entries, Request(client, now)), meanwhile, client);
  }

  /** Requests of one client at the given times. */
  function Series(client: Client, times: seq<nat>): seq<Event> {
    seq(|times|, i requires 0 <= i < |times| => Request(client, times[i]))
  }

  /** What the `n`-th request of a window is told at time `now`: with `n` reduced to 32 bits, how many
      are left, or to come back when the window ends, in whole seconds rounded up. */
  function Told(c: Config, start: nat, n: nat, now: nat): Decision
    requires start <= now < start + c.windowSecs * 1_000_000_000
  {
    var (count, reset) := (n % 0x1_0000_0000, c.windowSecs - (now - start) / 1_000_000_000);
    if count <= c.maxRequests then Allowed(c.maxRequests, c.maxRequests - count, reset) else Exceeded(reset)
  }

  lemma {:induction false} IncrementModulo(n: nat)
    ensures (n % U32 + 1) % U32 == (n + 1) % U32
  {
  }

  lemma {:induction false} OneTold(c: Config, start: nat, n: nat, now: nat)
    requires start <= now < start + c.windowSecs * 1_000_000_000
    ensures
      var e := Counted(c, Some(Entry(n % U32, start)), now);
      e == Entry((n + 1) % U32, start) && Decide(c, e, now) == Told(c, start, n + 1, now)
  {
    IncrementModulo(n);
  }

  lemma {:induction false} TellFirst(c: Config, entries: Entries, client: Client, times: seq<nat>)
    requires times != []
    ensures
      var e := Counted(c, Get(entries, client), times[0]);
      Decisions(c, entries, Series(client, times))
      == [Decide(c, e, times[0])] + Decisions(c, entries[client := e], Series(client, times[1..]))
  {
    assert Series(client, times)[1..] == Series(client, times[1..]);
  }

  lemma {:induction false} RestTold(c: Config, entries: Entries, client: Client, start: nat, k: nat, times: seq<nat>, n: nat)
    requires client in entries && entries[client] == Entry(k % U32, start) && n < |times|
    requires forall i | 0 <= i < |times| :: start <= times[i] < start + c.windowSecs * 1_000_000_000
    ensures n < |Decisions(c, entries, Series(client, times))|
    ensures Decisions(c, entries, Series(client, times))[n] == Told(c, start, k + n + 1, times[n])
    decreases n
  {
    OneTold(c, start, k, times[0]);
    TellFirst(c, entries, client, times);
    if n > 0 {
      var next := entries[client := Entry((k + 1) % U32, start)];
      hide Decisions, Told, Decide, Counted;
      RestTold(c, next, client, start, k + 1, times[1..], n - 1);
    }
  }

  /** The decision on every request of a window that its first request opens, at any times. */
  lemma {:induction false} NthRequestOfWindow(c: Config, entries: Entries, client: Client, times: seq<nat>, n: nat)
    requires n < |times|
    requires client in entries ==> entries[client].start + c.windowSecs * 1_000_000_000 <= times[0]
    requires forall i | 0 <= i < |times| :: times[0] <= times[i] < times[0] + c.windowSecs * 1_000_000_000
    ensures n < |Decisions(c, entries, Series(client, times))|
    ensures Decisions(c, entries, Series(client, times))[n] == Told(c, times[0], n + 1, times[n])
  {
    var start := times[0];
    var e := Counted(c, Get(entries, client), start);
    TellFirst(c, entries, client, times);
    OneTold(c, start, 0, start);
    assert e == Entry(1, start);
    if n > 0 {
      hide Decisions, Told, Decide, Counted;
      RestTold(c, entries[client := e], client, start, 1, times[1..], n - 1);
    }
  }
}
