/** The incremental referral leaderboard.

    A worker adds the commissions of the window `(watermark, cutoff]` to a running table and
    then moves the watermark to the cutoff, ten seconds in the past.  A row is written with its
    creation time but seen by queries only from `visibleAt` on.  `earnings` lists every row that
    is ever written; times are in microseconds. */
module Leaderboard {
  import opened Wrappers

  const BUFFER: int := 10_000_000

  type Address = string

  datatype Earning = Earning(referrer: Address, commission: int, createdAt: int, visibleAt: int)

  type Table = map<Address, int>

  datatype Board = Board(table: Table, watermark: int)

  /** The moments at which one cycle runs its cutoff, existence and upsert queries. */
  datatype Times = Times(now: int, check: int, upsert: int)

  datatype Fault = NoFault | UpsertFails | WatermarkFails

  /** One cycle of the worker: when its queries run, and which statement fails. */
  datatype Attempt = Attempt(times: Times, fault: Fault)

  predicate Ordered(t: Times) {
    t.now <= t.check <= t.upsert
  }

  function Cutoff(t: Times): int {
    t.now - BUFFER
  }

  function Created(rows: seq<Earning>, from: Option<int>, to: int): seq<Earning> {
    if rows == [] then []
    else
      (if (from.Some? ==> from.value < rows[0].createdAt) && rows[0].createdAt <= to then [rows[0]] else [])
      + Created(rows[1..], from, to)
  }

  function VisibleAt(rows: seq<Earning>, t: int): seq<Earning> {
    if rows == [] then []
    else (if rows[0].visibleAt <= t then [rows[0]] else []) + VisibleAt(rows[1..], t)
  }

  /** The window a query at time `t` sees. */
  function Window(earnings: seq<Earning>, b: Board, cutoff: int, t: int): seq<Earning> {
    VisibleAt(Created(earnings, Some(b.watermark), cutoff), t)
  }

  function Total(rows: seq<Earning>, r: Address): int {
    if rows == [] then 0 else (if rows[0].referrer == r then rows[0].commission else 0) + Total(rows[1..], r)
  }

  function Referrers(rows: seq<Earning>): set<Address> {
    set e | e in rows :: e.referrer
  }

  function Balance(t: Table, r: Address): int {
    if r in t then t[r] else 0
  }

  /** `INSERT ... SELECT SUM ... GROUP BY referrer ON CONFLICT DO UPDATE SET total = total + EXCLUDED.total`. */
  function Upsert(t: Table, rows: seq<Earning>): Table {
    map r | r in t.Keys + Referrers(rows) :: Balance(t, r) + Total(rows, r)
  }

  /** The leaderboard computed afresh from all rows up to `to`. */
  function FromScratch(earnings: seq<Earning>, to: int): Table {
    var rows := Created(earnings, None, to);
    map r | r in Referrers(rows) :: Total(rows, r)
  }

  /** The cycle gets past its two early exits. */
  predicate HasWork(b: Board, earnings: seq<Earning>, t: Times) {
    Cutoff(t) > b.watermark && Window(earnings, b, Cutoff(t), t.check) != []
  }

  /** One cycle; a failed statement ends it. */
  function Cycle(b: Board, earnings: seq<Earning>, t: Times, fault: Fault): Board {
    if !HasWork(b, earnings, t) || fault == UpsertFails then b
    else
      Board(Upsert(b.table, Window(earnings, b, Cutoff(t), t.upsert)),
            if fault == WatermarkFails then b.watermark else Cutoff(t))
  }

  function Cycles(b: Board, earnings: seq<Earning>, attempts: seq<Attempt>): Board
    decreases |attempts|
  {
    if attempts == [] then b
    else Cycles(Cycle(b, earnings, attempts[0].times, attempts[0].fault), earnings, attempts[1..])
  }

  ghost predicate Consistent(b: Board, earnings: seq<Earning>) {
    b.table == FromScratch(earnings, b.watermark)
  }

  /** Every row becomes visible within the buffer after its creation. */
  ghost predicate Prompt(earnings: seq<Earning>) {
    forall e | e in earnings :: e.visibleAt <= e.createdAt + BUFFER
  }

  ghost predicate AllOrdered(attempts: seq<Attempt>) {
    forall i | 0 <= i < |attempts| :: Ordered(attempts[i].times)
  }

  /** No cycle fails between its upsert and its watermark update. */
  ghost predicate WatermarkMoves(attempts: seq<Attempt>) {
    forall i | 0 <= i < |attempts| :: attempts[i].fault != WatermarkFails
  }

  /** The latest cutoff of the cycles without a fault, or the old watermark. */
  function Reach(w: int, attempts: seq<Attempt>): int
    decreases |attempts|
  {
    if attempts == [] then w
    else
      var cutoff := Cutoff(attempts[0].times);
      Reach(if attempts[0].fault == NoFault && cutoff > w then cutoff else w, attempts[1..])
  }

  // ---- Windows and sums ----------------------------------------------------------------

  lemma {:induction false} TotalConcat(a: seq<Earning>, b: seq<Earning>, r: Address)
    ensures Total(a + b, r) == Total(a, r) + Total(b, r)
  {
    if a == [] {
      assert a + b == b;
    } else {
      assert (a + b)[1..] == a[1..] + b;
      TotalConcat(a[1..], b, r);
    }
  }

  /** Rows up to the cutoff are the rows up to the watermark and those of the window. */
  lemma {:induction false} WindowSplit(rows: seq<Earning>, w: int, c: int, r: Address)
    requires w <= c
    ensures Total(Created(rows, None, c), r) == Total(Created(rows, None, w), r) + Total(Created(rows, Some(w), c), r)
  {
    if rows != [] {
      WindowSplit(rows[1..], w, c, r);
      var one := (from: Option<int>, to: int) =>
        if (from.Some? ==> from.value < rows[0].createdAt) && rows[0].createdAt <= to then [rows[0]] else [];
      assert Created(rows, None, c) == one(None, c) + Created(rows[1..], None, c);
      assert Created(rows, None, w) == one(None, w) + Created(rows[1..], None, w);
      assert Created(rows, Some(w), c) == one(Some(w), c) + Created(rows[1..], Some(w), c);
      TotalConcat(one(None, c), Created(rows[1..], None, c), r);
      TotalConcat(one(None, w), Created(rows[1..], None, w), r);
      TotalConcat(one(Some(w), c), Created(rows[1..], Some(w), c), r);
    }
  }

  lemma {:induction false} CreatedMembers(rows: seq<Earning>, from: Option<int>, to: int)
    ensures forall e :: e in Created(rows, from, to) <==>
              e in rows && (from.Some? ==> from.value < e.createdAt) && e.createdAt <= to
  {
    if rows != [] {
      CreatedMembers(rows[1..], from, to);
      assert rows == [rows[0]] + rows[1..];
    }
  }

  lemma {:induction false} AllVisible(rows: seq<Earning>, t: int)
    requires forall e | e in rows :: e.visibleAt <= t
    ensures VisibleAt(rows, t) == rows
  {
    if rows != [] {
      AllVisible(rows[1..], t);
    }
  }

  /** Prompt rows of a window whose cutoff lies the buffer in the past are all visible. */
  lemma {:induction false} PromptWindow(earnings: seq<Earning>, b: Board, t: Times, at: int)
    requires Prompt(earnings) && t.now <= at
    ensures Window(earnings, b, Cutoff(t), at) == Created(earnings, Some(b.watermark), Cutoff(t))
  {
    CreatedMembers(earnings, Some(b.watermark), Cutoff(t));
    AllVisible(Created(earnings, Some(b.watermark), Cutoff(t)), at);
  }

  lemma {:induction false} ReferrersSplit(rows: seq<Earning>, w: int, c: int)
    requires w <= c
    ensures Referrers(Created(rows, None, c)) == Referrers(Created(rows, None, w)) + Referrers(Created(rows, Some(w), c))
  {
    CreatedMembers(rows, None, c);
    CreatedMembers(rows, None, w);
    CreatedMembers(rows, Some(w), c);
  }

  lemma {:induction false} ScratchBalance(earnings: seq<Earning>, w: int, r: Address)
    ensures Balance(FromScratch(earnings, w), r) == Total(Created(earnings, None, w), r)
  {
    NoRowsNoTotal(Created(earnings, None, w), r);
  }

  /** Adding the window's sums to the old totals gives the new totals. */
  lemma {:induction false} ScratchGrows(earnings: seq<Earning>, w: int, c: int)
    requires w <= c
    ensures Upsert(FromScratch(earnings, w), Created(earnings, Some(w), c)) == FromScratch(earnings, c)
  {
    var (grown, fresh') := (Upsert(FromScratch(earnings, w), Created(earnings, Some(w), c)), FromScratch(earnings, c));
    hide Created, Total, Referrers;
    ReferrersSplit(earnings, w, c);
    assert grown.Keys == fresh'.Keys;
    forall r | r in fresh'
      ensures grown[r] == fresh'[r]
    {
      WindowSplit(earnings, w, c, r);
      ScratchBalance(earnings, w, r);
    }
  }

  /** No row was created after `a` and up to `c`. */
  ghost predicate Quiet(earnings: seq<Earning>, a: int, c: int) {
    forall e | e in earnings :: !(a < e.createdAt <= c)
  }

  lemma {:induction false} QuietSame(earnings: seq<Earning>, a: int, c: int)
    requires Quiet(earnings, a, c) && a <= c
    ensures FromScratch(earnings, a) == FromScratch(earnings, c)
  {
    QuietCreated(earnings, a, c);
  }

  lemma {:induction false} QuietCreated(rows: seq<Earning>, a: int, c: int)
    requires Quiet(rows, a, c) && a <= c
    ensures Created(rows, None, a) == Created(rows, None, c)
  {
    if rows != [] {
      assert rows[0] in rows;
      assert forall e | e in rows[1..] :: e in rows;
      QuietCreated(rows[1..], a, c);
    }
  }

  lemma {:induction false} NoRowsNoTotal(rows: seq<Earning>, r: Address)
    ensures r !in Referrers(rows) ==> Total(rows, r) == 0
  {
    if rows != [] {
      NoRowsNoTotal(rows[1..], r);
      assert forall e | e in rows[1..] :: e in rows;
      assert rows[0] in rows;
    }
  }

  // ---- Runs whose cycles complete or fail before the upsert -----------------------------

  /** A completed cycle keeps the table consistent and leaves no row between the watermark and
      its cutoff. */
  lemma {:induction false} CycleRefreshes(b: Board, earnings: seq<Earning>, t: Times)
    requires Prompt(earnings) && Ordered(t) && Consistent(b, earnings)
    ensures
      var b' := Cycle(b, earnings, t, NoFault);
      && Consistent(b', earnings) && b.watermark <= b'.watermark
      && (b' == b || b'.watermark == Cutoff(t)) && Quiet(earnings, b'.watermark, Cutoff(t))
  {
    if Cutoff(t) > b.watermark {
      PromptWindow(earnings, b, t, t.check);
      PromptWindow(earnings, b, t, t.upsert);
      ScratchGrows(earnings, b.watermark, Cutoff(t));
      CreatedMembers(earnings, Some(b.watermark), Cutoff(t));
    }
  }

  lemma {:induction false} CyclesFrom(b: Board, earnings: seq<Earning>, attempts: seq<Attempt>, w: int)
    requires Prompt(earnings) && AllOrdered(attempts) && WatermarkMoves(attempts) && Consistent(b, earnings)
    requires b.watermark <= w && Quiet(earnings, b.watermark, w)
    ensures
      var b' := Cycles(b, earnings, attempts);
      && Consistent(b', earnings) && b.watermark <= b'.watermark <= Reach(w, attempts)
      && Quiet(earnings, b'.watermark, Reach(w, attempts))
    decreases |attempts|
  {
    if attempts != [] {
      var (t, fault) := (attempts[0].times, attempts[0].fault);
      var rest := attempts[1..];
      assert forall i | 0 <= i < |rest| :: rest[i] == attempts[i + 1];
      if fault == NoFault {
        CycleRefreshes(b, earnings, t);
        CyclesFrom(Cycle(b, earnings, t, fault), earnings, rest, if Cutoff(t) > w then Cutoff(t) else w);
      } else {
        CyclesFrom(b, earnings, rest, w);
      }
    }
  }

  /** After any run in which no watermark update failed, the table equals the sums up to the
      watermark, which never moved back, and also the sums up to the latest cutoff. */
  lemma {:induction false} TableIsExact(b: Board, earnings: seq<Earning>, attempts: seq<Attempt>)
    requires Prompt(earnings) && AllOrdered(attempts) && WatermarkMoves(attempts) && Consistent(b, earnings)
    ensures
      var b' := Cycles(b, earnings, attempts);
      && Consistent(b', earnings) && b.watermark <= b'.watermark
      && b'.table == FromScratch(earnings, Reach(b.watermark, attempts))
  {
    CyclesFrom(b, earnings, attempts, b.watermark);
    QuietSame(earnings, Cycles(b, earnings, attempts).watermark, Reach(b.watermark, attempts));
  }

  /** How the time line was cut into windows, and which upserts had to be retried, does not matter. */
  lemma {:induction false} SplittingIsIrrelevant(b: Board, earnings: seq<Earning>, a: seq<Attempt>, c: seq<Attempt>)
    requires Prompt(earnings) && AllOrdered(a) && AllOrdered(c) && Consistent(b, earnings)
    requires WatermarkMoves(a) && WatermarkMoves(c) && Reach(b.watermark, a) == Reach(b.watermark, c)
    ensures Cycles(b, earnings, a).table == Cycles(b, earnings, c).table
  {
    TableIsExact(b, earnings, a);
    TableIsExact(b, earnings, c);
  }

  // ---- Late rows and failed watermark updates --------------------------------------------

  /** Rows of the window the upsert does not see. */
  function Unseen(rows: seq<Earning>, t: int): seq<Earning> {
    if rows == [] then [] else (if rows[0].visibleAt <= t then [] else [rows[0]]) + Unseen(rows[1..], t)
  }

  lemma {:induction false} SeenAndUnseen(rows: seq<Earning>, t: int, r: Address)
    ensures Total(rows, r) == Total(VisibleAt(rows, t), r) + Total(Unseen(rows, t), r)
  {
    if rows != [] {
      SeenAndUnseen(rows[1..], t, r);
      TotalConcat(if rows[0].visibleAt <= t then [rows[0]] else [], VisibleAt(rows[1..], t), r);
      TotalConcat(if rows[0].visibleAt <= t then [] else [rows[0]], Unseen(rows[1..], t), r);
    }
  }

  /** What one cycle passes over: the rows of its window not yet visible, if it moves the watermark. */
  function LostIn(b: Board, earnings: seq<Earning>, a: Attempt, r: Address): int {
    if HasWork(b, earnings, a.times) && a.fault == NoFault then
      Total(Unseen(Created(earnings, Some(b.watermark), Cutoff(a.times)), a.times.upsert), r)
    else 0
  }

  /** What one cycle adds without moving the watermark past it. */
  function DoubledIn(b: Board, earnings: seq<Earning>, a: Attempt, r: Address): int {
    if HasWork(b, earnings, a.times) && a.fault == WatermarkFails then
      Total(Window(earnings, b, Cutoff(a.times), a.times.upsert), r)
    else 0
  }

  /** The commissions of `r` that a run passes over because they became visible too late. */
  function Lost(b: Board, earnings: seq<Earning>, attempts: seq<Attempt>, r: Address): int
    decreases |attempts|
  {
    if attempts == [] then 0
    else
      LostIn(b, earnings, attempts[0], r)
      + Lost(Cycle(b, earnings, attempts[0].times, attempts[0].fault), earnings, attempts[1..], r)
  }

  /** The commissions of `r` that a run adds and leaves to be added again. */
  function Doubled(b: Board, earnings: seq<Earning>, attempts: seq<Attempt>, r: Address): int
    decreases |attempts|
  {
    if attempts == [] then 0
    else
      DoubledIn(b, earnings, attempts[0], r)
      + Doubled(Cycle(b, earnings, attempts[0].times, attempts[0].fault), earnings, attempts[1..], r)
  }

  /** One cycle keeps the account of what is due up to the watermark. */
  lemma {:induction false} CycleAccount(b: Board, earnings: seq<Earning>, a: Attempt, r: Address)
    ensures
      var b' := Cycle(b, earnings, a.times, a.fault);
      Balance(b'.table, r) + LostIn(b, earnings, a, r) - Balance(b.table, r)
      == Total(Created(earnings, None, b'.watermark), r) + DoubledIn(b, earnings, a, r)
         - Total(Created(earnings, None, b.watermark), r)
  {
    var (t, window) := (a.times, Created(earnings, Some(b.watermark), Cutoff(a.times)));
    if HasWork(b, earnings, t) && a.fault != UpsertFails {
      WindowSplit(earnings, b.watermark, Cutoff(t), r);
      SeenAndUnseen(window, t.upsert, r);
      NoRowsNoTotal(VisibleAt(window, t.upsert), r);
    }
  }

  lemma {:induction false} RunAccount(b: Board, earnings: seq<Earning>, attempts: seq<Attempt>, r: Address)
    ensures
      var b' := Cycles(b, earnings, attempts);
      Balance(b'.table, r) + Lost(b, earnings, attempts, r) - Balance(b.table, r)
      == Total(Created(earnings, None, b'.watermark), r) + Doubled(b, earnings, attempts, r)
         - Total(Created(earnings, None, b.watermark), r)
    decreases |attempts|
  {
    hide Cycle, LostIn, DoubledIn, Created, Total, Balance;
    if attempts != [] {
      CycleAccount(b, earnings, attempts[0], r);
      RunAccount(Cycle(b, earnings, attempts[0].times, attempts[0].fault), earnings, attempts[1..], r);
    }
  }

  /** In every run, whatever fails and whatever becomes visible when: a balance and what was passed
      over add up to the true total and what was added twice. */
  lemma {:induction false} NothingElseGoesWrong(b: Board, earnings: seq<Earning>, attempts: seq<Attempt>, r: Address)
    requires Consistent(b, earnings)
    ensures
      var b' := Cycles(b, earnings, attempts);
      Balance(b'.table, r) + Lost(b, earnings, attempts, r)
      == Total(Created(earnings, None, b'.watermark), r) + Doubled(b, earnings, attempts, r)
  {
    ScratchBalance(earnings, b.watermark, r);
    RunAccount(b, earnings, attempts, r);
  }

  /** So a balance is right exactly when as much was passed over as was added twice. */
  lemma {:induction false} ExactIff(b: Board, earnings: seq<Earning>, attempts: seq<Attempt>, r: Address)
    requires Consistent(b, earnings)
    ensures
      var b' := Cycles(b, earnings, attempts);
      Balance(b'.table, r) == Total(Created(earnings, None, b'.watermark), r)
      <==> Lost(b, earnings, attempts, r) == Doubled(b, earnings, attempts, r)
  {
    NothingElseGoesWrong(b, earnings, attempts, r);
  }

  lemma {:induction false} NothingUnseen(rows: seq<Earning>, t: int)
    requires forall e | e in rows :: e.visibleAt <= t
    ensures Unseen(rows, t) == []
  {
    if rows != [] {
      NothingUnseen(rows[1..], t);
    }
  }

  lemma {:induction false} PromptLosesNothing(b: Board, earnings: seq<Earning>, attempts: seq<Attempt>, r: Address)
    requires Prompt(earnings) && AllOrdered(attempts)
    ensures Lost(b, earnings, attempts, r) == 0
    decreases |attempts|
  {
    if attempts != [] {
      var (t, rest) := (attempts[0].times, attempts[1..]);
      CreatedMembers(earnings, Some(b.watermark), Cutoff(t));
      assert Ordered(t) && forall i | 0 <= i < |rest| :: rest[i] == attempts[i + 1];
      NothingUnseen(Created(earnings, Some(b.watermark), Cutoff(t)), t.upsert);
      PromptLosesNothing(Cycle(b, earnings, t, attempts[0].fault), earnings, rest, r);
    }
  }

  /** With prompt rows a balance is too high by exactly the window sums of the cycles whose upsert
      succeeded and whose watermark update failed. */
  lemma {:induction false} FailedWatermarkCountsTwice(b: Board, earnings: seq<Earning>, attempts: seq<Attempt>, r: Address)
    requires Prompt(earnings) && AllOrdered(attempts) && Consistent(b, earnings)
    ensures
      var b' := Cycles(b, earnings, attempts);
      Balance(b'.table, r) == Total(Created(earnings, None, b'.watermark), r) + Doubled(b, earnings, attempts, r)
  {
    PromptLosesNothing(b, earnings, attempts, r);
    NothingElseGoesWrong(b, earnings, attempts, r);
  }

  /** One such failure followed by a completed cycle: the failed window is counted twice. */
  lemma {:induction false} RetriedWindow(b: Board, earnings: seq<Earning>, t: Times, u: Times, r: Address)
    requires Prompt(earnings) && Ordered(t) && Ordered(u) && Consistent(b, earnings) && Cutoff(t) <= Cutoff(u)
    requires b.watermark < Cutoff(t) && Created(earnings, Some(b.watermark), Cutoff(t)) != []
    ensures
      var b' := Cycles(b, earnings, [Attempt(t, WatermarkFails), Attempt(u, NoFault)]);
      var twice := Total(Created(earnings, Some(b.watermark), Cutoff(t)), r);
      && Balance(b'.table, r) == Total(Created(earnings, None, b'.watermark), r) + twice
      && b'.watermark == Cutoff(u)
  {
    hide Created, VisibleAt, Total;
    var attempts := [Attempt(t, WatermarkFails), Attempt(u, NoFault)];
    var crashed := Cycle(b, earnings, t, WatermarkFails);
    var (first, second) := (Created(earnings, Some(b.watermark), Cutoff(t)), Created(earnings, Some(b.watermark), Cutoff(u)));
    PromptWindow(earnings, b, t, t.check);
    PromptWindow(earnings, b, t, t.upsert);
    PromptWindow(earnings, crashed, u, u.check);
    CreatedMembers(earnings, Some(b.watermark), Cutoff(t));
    CreatedMembers(earnings, Some(b.watermark), Cutoff(u));
    assert first[0] in first && first[0] in second;
    assert attempts[1..] == [Attempt(u, NoFault)] && attempts[1..][1..] == [];
    FailedWatermarkCountsTwice(b, earnings, attempts, r);
    var done := Cycle(crashed, earnings, u, NoFault);
    assert done.watermark == Cutoff(u);
    assert Cycles(b, earnings, attempts) == Cycles(crashed, earnings, attempts[1..]) == Cycles(done, earnings, []);
    assert Doubled(crashed, earnings, attempts[1..], r) == 0;
  }

  // ---- What one cycle and one row do ---------------------------------------------------

  lemma {:induction false} VisibleMembers(rows: seq<Earning>, t: int)
    ensures forall e :: e in VisibleAt(rows, t) <==> e in rows && e.visibleAt <= t
  {
    if rows != [] {
      VisibleMembers(rows[1..], t);
      assert rows == [rows[0]] + rows[1..];
    }
  }

  /** A cycle does something exactly if its existence query sees a row created after the watermark
      and at least ten seconds ago; without a fault it then moves the watermark to that moment. */
  lemma {:induction false} CycleMovesIff(b: Board, earnings: seq<Earning>, t: Times, fault: Fault)
    ensures
      var cutoff := t.now - 10_000_000;
      var sees := exists e | e in earnings :: b.watermark < e.createdAt <= cutoff && e.visibleAt <= t.check;
      && (!sees || fault == UpsertFails ==> Cycle(b, earnings, t, fault) == b)
      && (sees && fault == NoFault ==> Cycle(b, earnings, t, fault).watermark == cutoff)
      && (sees && fault == WatermarkFails ==> Cycle(b, earnings, t, fault).watermark == b.watermark)
  {
    var window := Window(earnings, b, Cutoff(t), t.check);
    CreatedMembers(earnings, Some(b.watermark), Cutoff(t));
    VisibleMembers(Created(earnings, Some(b.watermark), Cutoff(t)), t.check);
    if window != [] {
      assert window[0] in window;
    }
  }

  /** One more row, created in time, adds its commission to its referrer's total and to no other. */
  lemma {:induction false} ScratchOfRow(earnings: seq<Earning>, e: Earning, to: int, r: Address)
    ensures Balance(FromScratch([], to), r) == 0
    ensures Balance(FromScratch([e] + earnings, to), r)
         == Balance(FromScratch(earnings, to), r) + if e.referrer == r && e.createdAt <= to then e.commission else 0
  {
    ScratchBalance([], to, r);
    ScratchBalance(earnings, to, r);
    ScratchBalance([e] + earnings, to, r);
    assert ([e] + earnings)[1..] == earnings;
    var rest := Created(earnings, None, to);
    assert Created([e] + earnings, None, to) == (if e.createdAt <= to then [e] else []) + rest;
    assert ([e] + rest)[1..] == rest && [] + rest == rest;
  }

  // ---- The worker ----------------------------------------------------------------------

  /** The leaderboard and watermark tables as the worker updates them. */
  class ReferralLeaderboard {
    var table: Table
    var watermark: int

    constructor ()
      ensures table == map[] && watermark == 0
    {
      table, watermark := map[], 0;
    }

    /** One cycle against the earnings visible at the times of its queries. */
    method RunIncremental(earnings: seq<Earning>, t: Times, fault: Fault) returns (ok: bool)
      modifies this
      ensures Board(table, watermark) == Cycle(Board(old(table), old(watermark)), earnings, t, fault)
      ensures !ok ==> fault != NoFault
    {
      var cutoff := t.now - BUFFER;
      if cutoff <= watermark {
        return true;
      }
      if VisibleAt(Created(earnings, Some(watermark), cutoff), t.check) == [] {
        return true;
      }
      if fault == UpsertFails {
        return false;
      }
      table := Upsert(table, VisibleAt(Created(earnings, Some(watermark), cutoff), t.upsert));
      if fault == WatermarkFails {
        return false;
      }
      watermark := cutoff;
      return true;
    }
  }
}
