/** Rolling trading volumes with a single-flight, time-limited cache.

    The global map gives each user a slot, a mutex around the last fetched entry.  A read takes
    the slot from the map, waits for the mutex, and holds it across the database query.
    `invalidate` only removes the slot from the map, so reads already holding it go on.  Reads
    interleave freely; each of the steps below is atomic, and a read may be dropped at any point.
    `fetches` records every query ever begun, in order, and `step` numbers the events. */
module VolumeCache {
  import opened Wrappers

  const TTL: nat := 300

  type User = string

  datatype Volumes = Volumes(v14: int, v30: int)

  /** `fetch` remembers which query produced the entry. */
  datatype Entry = Entry(volumes: Volumes, at: nat, fetch: nat)

  datatype Slot = Slot(user: User, born: nat, entry: Option<Entry>, holder: Option<nat>)

  datatype Pc =
    | Arrived
    | Waiting(slot: nat)
    | Holding(slot: nat)
    | Fetching(slot: nat, fetch: nat)
    | Returned(volumes: Volumes, fetch: nat)
    | Dropped

  /** `barrier` is the event number of the user's last invalidation before the read began. */
  datatype Read = Read(user: User, barrier: nat, pc: Pc)

  datatype Fetch = Fetch(slot: nat, user: User, begun: nat, beganAt: nat, endedAt: Option<nat>, volumes: Volumes)

  datatype State = State(now: nat, step: nat, cache: map<User, nat>, slots: seq<Slot>, calls: map<nat, Read>,
                         fetches: seq<Fetch>, invalidated: map<User, nat>)

  /** `volumes` is what the query returns if this step ends one; a failed query returns zeros. */
  datatype Action =
    | Start(id: nat, user: User)
    | Advance(id: nat, volumes: Volumes)
    | Drop(id: nat)
    | Invalidate(user: User)
    | Tick(seconds: nat)

  const EMPTY: State := State(0, 1, map[], [], map[], [], map[])

  predicate Fresh(e: Option<Entry>, now: nat) {
    e.Some? && now - e.value.at < TTL
  }

  function Blank(): Volumes {
    Volumes(0, 0)
  }

  /** Get or create the user's slot. */
  function TakeSlot(s: State, id: nat): State
    requires id in s.calls
  {
    var r := s.calls[id];
    if r.user in s.cache then
      s.(calls := s.calls[id := r.(pc := Waiting(s.cache[r.user]))])
    else
      s.(cache := s.cache[r.user := |s.slots|], slots := s.slots + [Slot(r.user, s.step, None, None)],
         calls := s.calls[id := r.(pc := Waiting(|s.slots|))])
  }

  function Lock(s: State, id: nat, k: nat): State
    requires id in s.calls && k < |s.slots|
  {
    if s.slots[k].holder.Some? then s
    else s.(slots := s.slots[k := s.slots[k].(holder := Some(id))], calls := s.calls[id := s.calls[id].(pc := Holding(k))])
  }

  function Unlock(s: State, k: nat): State
    requires k < |s.slots|
  {
    s.(slots := s.slots[k := s.slots[k].(holder := None)])
  }

  /** With the mutex held: answer from a fresh entry, or begin a query. */
  function Check(s: State, id: nat, k: nat): State
    requires id in s.calls && k < |s.slots|
  {
    var (r, e) := (s.calls[id], s.slots[k].entry);
    if Fresh(e, s.now) then
      Unlock(s, k).(calls := s.calls[id := r.(pc := Returned(e.value.volumes, e.value.fetch))])
    else
      s.(fetches := s.fetches + [Fetch(k, r.user, s.step, s.now, None, Blank())],
         calls := s.calls[id := r.(pc := Fetching(k, |s.fetches|))])
  }

  /** The query ends: store its result, release the mutex, answer. */
  function Finish(s: State, id: nat, k: nat, f: nat, v: Volumes): State
    requires id in s.calls && k < |s.slots| && f < |s.fetches|
  {
    s.(slots := s.slots[k := s.slots[k].(entry := Some(Entry(v, s.now, f)), holder := None)],
       fetches := s.fetches[f := s.fetches[f].(endedAt := Some(s.now), volumes := v)],
       calls := s.calls[id := s.calls[id].(pc := Returned(v, f))])
  }

  function Progress(s: State, id: nat, v: Volumes): State
    requires id in s.calls
  {
    match s.calls[id].pc
    case Arrived => TakeSlot(s, id)
    case Waiting(k) => if k < |s.slots| then Lock(s, id, k) else s
    case Holding(k) => if k < |s.slots| then Check(s, id, k) else s
    case Fetching(k, f) => if k < |s.slots| && f < |s.fetches| then Finish(s, id, k, f, v) else s
    case _ => s
  }

  /** Dropping the future releases its mutex and leaves the entry alone. */
  function Abandon(s: State, id: nat): State
    requires id in s.calls
  {
    var r := s.calls[id];
    if r.pc.Returned? then s
    else
      var t := s.(calls := s.calls[id := r.(pc := Dropped)]);
      if (r.pc.Holding? || r.pc.Fetching?) && r.pc.slot < |s.slots| then Unlock(t, r.pc.slot) else t
  }

  function Effect(s: State, a: Action): State {
    match a
    case Start(id, user) =>
      if id in s.calls then s
      else s.(calls := s.calls[id := Read(user, if user in s.invalidated then s.invalidated[user] else 0, Arrived)])
    case Advance(id, v) => if id in s.calls then Progress(s, id, v) else s
    case Drop(id) => if id in s.calls then Abandon(s, id) else s
    case Invalidate(user) => s.(cache := s.cache - {user}, invalidated := s.invalidated[user := s.step])
    case Tick(d) => s.(now := s.now + d)
  }

  function Next(s: State, a: Action): State {
    Effect(s, a).(step := s.step + 1)
  }

  function Run(s: State, actions: seq<Action>): State
    decreases |actions|
  {
    if actions == [] then s else Run(Next(s, actions[0]), actions[1..])
  }

  // ---- The invariant -------------------------------------------------------------------

  predicate Completed(f: Fetch) {
    f.endedAt.Some?
  }

  /** A read stands at a slot of its user that is no older than its barrier. */
  predicate ReadOk(s: State, id: nat, r: Read) {
    match r.pc
    case Arrived => true
    case Waiting(k) => k < |s.slots| && s.slots[k].user == r.user && r.barrier < s.slots[k].born
    case Holding(k) => k < |s.slots| && s.slots[k].user == r.user && r.barrier < s.slots[k].born && s.slots[k].holder == Some(id)
    case Fetching(k, f) =>
      && k < |s.slots| && s.slots[k].user == r.user && r.barrier < s.slots[k].born && s.slots[k].holder == Some(id)
      && f < |s.fetches| && s.fetches[f].slot == k && s.fetches[f].endedAt.None?
    case Returned(v, f) =>
      && f < |s.fetches| && Completed(s.fetches[f]) && s.fetches[f].volumes == v
      && s.fetches[f].user == r.user && r.barrier < s.fetches[f].begun
    case Dropped => true
  }

  /** A slot's entry is the result of the last completed query on it. */
  predicate EntryOk(s: State, k: nat)
    requires k < |s.slots|
  {
    var e := s.slots[k].entry;
    e.Some? ==>
      && e.value.fetch < |s.fetches| && s.fetches[e.value.fetch].slot == k
      && s.fetches[e.value.fetch].endedAt == Some(e.value.at) && s.fetches[e.value.fetch].volumes == e.value.volumes
      && e.value.at <= s.now
  }

  predicate FetchOk(s: State, f: nat)
    requires f < |s.fetches|
  {
    var q := s.fetches[f];
    && q.slot < |s.slots| && q.user == s.slots[q.slot].user && s.slots[q.slot].born < q.begun < s.step
    && (Completed(q) ==> s.slots[q.slot].entry.Some? && q.endedAt.value <= s.slots[q.slot].entry.value.at)
  }

  /** Queries on one slot follow each other by at least the TTL. */
  predicate Spaced(s: State, i: nat, j: nat)
    requires i < j < |s.fetches|
  {
    s.fetches[i].slot == s.fetches[j].slot && Completed(s.fetches[i]) ==>
      s.fetches[i].endedAt.value + TTL <= s.fetches[j].beganAt
  }

  /** A query under way is the last one begun on its slot. */
  predicate LastOnSlot(s: State, r: Read) {
    r.pc.Fetching? ==> forall j | r.pc.fetch < j < |s.fetches| :: s.fetches[j].slot != r.pc.slot
  }

  predicate CacheOk(s: State, user: User)
    requires user in s.cache
  {
    var k := s.cache[user];
    k < |s.slots| && s.slots[k].user == user && (user in s.invalidated ==> s.invalidated[user] < s.slots[k].born)
  }

  /** A read's barrier is an invalidation that already happened, and the newest one or older. */
  predicate BarrierOk(s: State, r: Read) {
    r.barrier < s.step && (r.barrier > 0 ==> r.user in s.invalidated && r.barrier <= s.invalidated[r.user])
  }

  ghost predicate Inv(s: State) {
    && s.step > 0
    && (forall id | id in s.calls :: ReadOk(s, id, s.calls[id]))
    && (forall id | id in s.calls :: LastOnSlot(s, s.calls[id]))
    && (forall id | id in s.calls :: BarrierOk(s, s.calls[id]))
    && (forall k | 0 <= k < |s.slots| :: EntryOk(s, k) && 0 < s.slots[k].born < s.step)
    && (forall f | 0 <= f < |s.fetches| :: FetchOk(s, f))
    && (forall i, j | 0 <= i < j < |s.fetches| :: Spaced(s, i, j))
    && (forall u | u in s.cache :: CacheOk(s, u))
    && (forall u | u in s.invalidated :: s.invalidated[u] < s.step)
  }

  /** What an atomic step may change besides one call: enough for the other calls' invariant. */
  ghost predicate KeepsOthers(s: State, t: State, id: nat) {
    && |s.slots| <= |t.slots| && |s.fetches| <= |t.fetches|
    && (forall k | 0 <= k < |s.slots| ::
          && t.slots[k].user == s.slots[k].user && t.slots[k].born == s.slots[k].born
          && (s.slots[k].holder.Some? && s.slots[k].holder != Some(id) ==> t.slots[k].holder == s.slots[k].holder))
    && (forall f | 0 <= f < |s.fetches| ::
          t.fetches[f] == s.fetches[f]
          || (s.fetches[f].slot < |s.slots| && s.slots[s.fetches[f].slot].holder == Some(id) && !Completed(s.fetches[f])
              && t.fetches[f].slot == s.fetches[f].slot))
    && (forall j | j in s.calls && j != id :: j in t.calls && t.calls[j] == s.calls[j])
    && (forall j | j in t.calls && j != id :: j in s.calls)
  }

  lemma {:induction false} OthersOk(s: State, t: State, id: nat, j: nat)
    requires Inv(s) && j != id && j in s.calls
    requires KeepsOthers(s, t, id)
    ensures ReadOk(t, j, t.calls[j])
  {
  }

  function Ticked(s: State, t: State): State {
    t.(step := s.step + 1)
  }

  lemma {:induction false} TakeSlotInv(s: State, id: nat)
    requires Inv(s) && id in s.calls && s.calls[id].pc == Arrived
    ensures Inv(Ticked(s, TakeSlot(s, id)))
  {
    var t := Ticked(s, TakeSlot(s, id));
    forall j | j in t.calls && j != id ensures ReadOk(t, j, t.calls[j]) { OthersOk(s, t, id, j); }
    forall j | j in t.calls ensures BarrierOk(t, t.calls[j]) { assert BarrierOk(s, s.calls[j]); }
    forall j | j in t.calls ensures LastOnSlot(t, t.calls[j]) { assert LastOnSlot(s, s.calls[j]); }
    forall k | 0 <= k < |t.slots| ensures EntryOk(t, k) { if k < |s.slots| { assert EntryOk(s, k); } }
    forall f | 0 <= f < |t.fetches| ensures FetchOk(t, f) { assert FetchOk(s, f); }
    forall i, j | 0 <= i < j < |t.fetches| ensures Spaced(t, i, j) { assert Spaced(s, i, j); }
    forall u | u in t.cache ensures CacheOk(t, u) { if u in s.cache { assert CacheOk(s, u); } }
    assert s.calls[id].user in s.cache ==> CacheOk(s, s.calls[id].user);
  }

  /** A step that touches only calls and mutexes keeps everything about slots and queries. */
  ghost predicate SameData(s: State, t: State) {
    && t.fetches == s.fetches && t.now == s.now && t.cache == s.cache && t.invalidated == s.invalidated
    && t.step == s.step + 1 && |t.slots| == |s.slots|
    && forall k | 0 <= k < |s.slots| :: t.slots[k] == s.slots[k].(holder := t.slots[k].holder)
  }

  lemma {:induction false} SameDataInv(s: State, t: State)
    requires Inv(s) && SameData(s, t)
    requires forall j | j in t.calls :: ReadOk(t, j, t.calls[j])
    requires forall j | j in t.calls ::
               j in s.calls && t.calls[j].user == s.calls[j].user && t.calls[j].barrier == s.calls[j].barrier
    requires forall j | j in t.calls :: t.calls[j].pc.Fetching? ==> t.calls[j] == s.calls[j]
    ensures Inv(t)
  {
    forall j | j in t.calls ensures BarrierOk(t, t.calls[j]) { assert BarrierOk(s, s.calls[j]); }
    forall j | j in t.calls ensures LastOnSlot(t, t.calls[j]) { assert LastOnSlot(s, s.calls[j]); }
    forall j | 0 <= j < |t.slots| ensures EntryOk(t, j) && 0 < t.slots[j].born < t.step { assert EntryOk(s, j); }
    forall j | 0 <= j < |t.fetches| ensures FetchOk(t, j) { assert FetchOk(s, j); }
    forall i, j | 0 <= i < j < |t.fetches| ensures Spaced(t, i, j) { assert Spaced(s, i, j); }
    forall u | u in t.cache ensures CacheOk(t, u) { assert CacheOk(s, u); }
  }

  lemma {:induction false} LockInv(s: State, id: nat, k: nat)
    requires Inv(s) && id in s.calls && s.calls[id].pc == Waiting(k) && k < |s.slots|
    ensures Inv(Ticked(s, Lock(s, id, k)))
  {
    var t := Ticked(s, Lock(s, id, k));
    assert ReadOk(s, id, s.calls[id]);
    assert ReadOk(t, id, t.calls[id]);
    assert KeepsOthers(s, t, id);
    forall j | j in t.calls && j != id ensures ReadOk(t, j, t.calls[j]) { OthersOk(s, t, id, j); }
    SameDataInv(s, t);
  }

  lemma {:induction false} AnswerInv(s: State, id: nat, k: nat)
    requires Inv(s) && id in s.calls && s.calls[id].pc == Holding(k) && k < |s.slots| && Fresh(s.slots[k].entry, s.now)
    ensures Inv(Ticked(s, Check(s, id, k)))
  {
    var t := Ticked(s, Check(s, id, k));
    assert ReadOk(s, id, s.calls[id]) && EntryOk(s, k) && FetchOk(s, s.slots[k].entry.value.fetch);
    assert ReadOk(t, id, t.calls[id]);
    assert KeepsOthers(s, t, id);
    forall j | j in t.calls && j != id ensures ReadOk(t, j, t.calls[j]) { OthersOk(s, t, id, j); }
    SameDataInv(s, t);
  }

  lemma {:induction false} BeginInv(s: State, id: nat, k: nat)
    requires Inv(s) && id in s.calls && s.calls[id].pc == Holding(k) && k < |s.slots| && !Fresh(s.slots[k].entry, s.now)
    ensures Inv(Ticked(s, Check(s, id, k)))
  {
    var t := Ticked(s, Check(s, id, k));
    assert ReadOk(s, id, s.calls[id]) && EntryOk(s, k);
    forall j | j in t.calls && j != id ensures ReadOk(t, j, t.calls[j]) { OthersOk(s, t, id, j); }
    forall j | j in t.calls ensures BarrierOk(t, t.calls[j]) { assert BarrierOk(s, s.calls[j]); }
    forall j | j in t.calls ensures LastOnSlot(t, t.calls[j])
    {
      assert LastOnSlot(s, s.calls[j]) && ReadOk(s, j, s.calls[j]);
    }
    forall j | 0 <= j < |t.slots| ensures EntryOk(t, j) { assert EntryOk(s, j); }
    forall f | 0 <= f < |t.fetches| ensures FetchOk(t, f) { if f < |s.fetches| { assert FetchOk(s, f); } }
    forall i, j | 0 <= i < j < |t.fetches| ensures Spaced(t, i, j)
    {
      if j < |s.fetches| { assert Spaced(s, i, j); } else { assert FetchOk(s, i); }
    }
    forall u | u in t.cache ensures CacheOk(t, u) { assert CacheOk(s, u); }
  }

  lemma {:induction false} FinishKeeps(s: State, id: nat, k: nat, f: nat, v: Volumes)
    requires Inv(s) && id in s.calls && s.calls[id].pc == Fetching(k, f) && k < |s.slots| && f < |s.fetches|
    ensures
      var t := Ticked(s, Finish(s, id, k, f, v));
      forall j | j in t.calls :: ReadOk(t, j, t.calls[j]) && LastOnSlot(t, t.calls[j]) && BarrierOk(t, t.calls[j])
  {
    var t := Ticked(s, Finish(s, id, k, f, v));
    assert ReadOk(s, id, s.calls[id]) && FetchOk(s, f);
    assert ReadOk(t, id, t.calls[id]);
    assert KeepsOthers(s, t, id);
    forall j | j in t.calls
      ensures ReadOk(t, j, t.calls[j]) && LastOnSlot(t, t.calls[j]) && BarrierOk(t, t.calls[j])
    {
      assert LastOnSlot(s, s.calls[j]) && BarrierOk(s, s.calls[j]);
      if j != id { OthersOk(s, t, id, j); }
    }
  }

  lemma {:induction false} FinishInv(s: State, id: nat, k: nat, f: nat, v: Volumes)
    requires Inv(s) && id in s.calls && s.calls[id].pc == Fetching(k, f) && k < |s.slots| && f < |s.fetches|
    ensures Inv(Ticked(s, Finish(s, id, k, f, v)))
  {
    var t := Ticked(s, Finish(s, id, k, f, v));
    FinishKeeps(s, id, k, f, v);
    assert ReadOk(s, id, s.calls[id]) && LastOnSlot(s, s.calls[id]) && FetchOk(s, f) && EntryOk(s, k);
    forall j | 0 <= j < |t.slots| ensures EntryOk(t, j) { assert EntryOk(s, j); }
    forall j | 0 <= j < |t.fetches| ensures FetchOk(t, j) { assert FetchOk(s, j); }
    forall i, j | 0 <= i < j < |t.fetches| ensures Spaced(t, i, j) { assert Spaced(s, i, j); }
    forall u | u in t.cache ensures CacheOk(t, u) { assert CacheOk(s, u); }
  }

  lemma {:induction false} AbandonKeeps(s: State, id: nat)
    requires id in s.calls && ReadOk(s, id, s.calls[id])
    ensures SameData(s, Ticked(s, Abandon(s, id))) && KeepsOthers(s, Ticked(s, Abandon(s, id)), id)
    ensures id in Abandon(s, id).calls
    ensures Abandon(s, id).calls[id] == if s.calls[id].pc.Returned? then s.calls[id] else s.calls[id].(pc := Dropped)
  {
  }

  lemma {:induction false} AbandonInv(s: State, id: nat)
    requires Inv(s) && id in s.calls
    ensures Inv(Ticked(s, Abandon(s, id)))
  {
    var t := Ticked(s, Abandon(s, id));
    assert ReadOk(s, id, s.calls[id]);
    AbandonKeeps(s, id);
    assert t.calls == Abandon(s, id).calls;
    forall j | j in t.calls
      ensures ReadOk(t, j, t.calls[j])
    {
      if j != id { OthersOk(s, t, id, j); }
    }
    SameDataInv(s, t);
  }

  lemma {:induction false} ProgressInv(s: State, id: nat, v: Volumes)
    requires Inv(s) && id in s.calls
    ensures Inv(Ticked(s, Progress(s, id, v)))
  {
    assert ReadOk(s, id, s.calls[id]);
    match s.calls[id].pc {
      case Arrived => TakeSlotInv(s, id);
      case Waiting(k) => LockInv(s, id, k);
      case Holding(k) => if Fresh(s.slots[k].entry, s.now) { AnswerInv(s, id, k); } else { BeginInv(s, id, k); }
      case Fetching(k, f) => FinishInv(s, id, k, f, v);
      case _ => IdleInv(s, Ticked(s, s));
    }
  }

  lemma {:induction false} StepInv(s: State, a: Action)
    requires Inv(s)
    ensures Inv(Next(s, a))
  {
    hide Progress, Abandon;
    if a.Advance? && a.id in s.calls {
      ProgressInv(s, a.id, a.volumes);
    } else if a.Drop? && a.id in s.calls {
      AbandonInv(s, a.id);
    } else {
      IdleInv(s, Next(s, a));
    }
  }

  /** Arrivals, invalidations and the clock touch no slot and no query. */
  lemma {:induction false} IdleInv(s: State, t: State)
    requires Inv(s) && t.slots == s.slots && t.fetches == s.fetches && t.step == s.step + 1 && t.now >= s.now
    requires forall j | j in s.calls :: j in t.calls && t.calls[j] == s.calls[j]
    requires forall j | j in t.calls && j !in s.calls :: t.calls[j].pc == Arrived && BarrierOk(s, t.calls[j])
    requires forall u | u in t.cache :: u in s.cache && t.cache[u] == s.cache[u]
    requires forall u | u in s.invalidated :: u in t.invalidated
    requires forall u | u in t.invalidated ::
               (u in s.invalidated && t.invalidated[u] == s.invalidated[u]) || (u !in t.cache && t.invalidated[u] == s.step)
    ensures Inv(t)
  {
    forall j | j in t.calls ensures ReadOk(t, j, t.calls[j]) { if j in s.calls { assert ReadOk(s, j, s.calls[j]); } }
    forall j | j in t.calls ensures BarrierOk(t, t.calls[j]) { if j in s.calls { assert BarrierOk(s, s.calls[j]); } }
    forall j | j in t.calls ensures LastOnSlot(t, t.calls[j]) { if j in s.calls { assert LastOnSlot(s, s.calls[j]); } }
    forall j | 0 <= j < |t.slots| ensures EntryOk(t, j) && 0 < t.slots[j].born < t.step { assert EntryOk(s, j); }
    forall j | 0 <= j < |t.fetches| ensures FetchOk(t, j) { assert FetchOk(s, j); }
    forall i, j | 0 <= i < j < |t.fetches| ensures Spaced(t, i, j) { assert Spaced(s, i, j); }
    forall u | u in t.cache ensures CacheOk(t, u) { assert CacheOk(s, u); }
  }

  lemma {:induction false} RunInv(s: State, actions: seq<Action>)
    requires Inv(s)
    ensures Inv(Run(s, actions))
    decreases |actions|
  {
    if actions != [] {
      StepInv(s, actions[0]);
      RunInv(Next(s, actions[0]), actions[1..]);
    }
  }

  // ---- What readers may rely on --------------------------------------------------------

  /** Single flight: never two queries under way on one slot. */
  lemma {:induction false} OneQueryPerSlot(actions: seq<Action>, i: nat, j: nat)
    ensures
      var calls := Run(EMPTY, actions).calls;
      i in calls && j in calls && calls[i].pc.Fetching? && calls[j].pc.Fetching? && i != j ==>
        calls[i].pc.slot != calls[j].pc.slot
  {
    var s := Run(EMPTY, actions);
    RunInv(EMPTY, actions);
    if i in s.calls && j in s.calls {
      assert ReadOk(s, i, s.calls[i]) && ReadOk(s, j, s.calls[j]);
    }
  }

  /** A query begins on a slot only a full TTL after the previous completed one ended. */
  lemma {:induction false} QueriesSpaced(actions: seq<Action>, i: nat, j: nat)
    requires i < j < |Run(EMPTY, actions).fetches|
    ensures
      var (p, q) := (Run(EMPTY, actions).fetches[i], Run(EMPTY, actions).fetches[j]);
      p.slot == q.slot && Completed(p) ==> p.endedAt.value + TTL <= q.beganAt
  {
    RunInv(EMPTY, actions);
    assert Spaced(Run(EMPTY, actions), i, j);
  }

  /** Without an invalidation a user keeps a single slot. */
  ghost predicate OneSlot(s: State, user: User) {
    forall k | 0 <= k < |s.slots| && s.slots[k].user == user :: user in s.cache && s.cache[user] == k
  }

  lemma {:induction false} OneSlotRun(s: State, actions: seq<Action>, user: User)
    requires Inv(s) && OneSlot(s, user) && Invalidate(user) !in actions
    ensures OneSlot(Run(s, actions), user)
    decreases |actions|
  {
    if actions != [] {
      StepInv(s, actions[0]);
      OneSlotStep(s, actions[0], user);
      OneSlotRun(Next(s, actions[0]), actions[1..], user);
    }
  }

  lemma {:induction false} OneSlotStep(s: State, a: Action, user: User)
    requires Inv(s) && OneSlot(s, user) && a != Invalidate(user)
    ensures OneSlot(Next(s, a), user)
  {
    if a.Advance? && a.id in s.calls {
      assert ReadOk(s, a.id, s.calls[a.id]);
    } else if a.Drop? && a.id in s.calls {
      assert ReadOk(s, a.id, s.calls[a.id]);
      AbandonKeeps(s, a.id);
    }
  }

  /** So however many reads of a user arrive, without an invalidation its queries run one after
      the other with a full TTL in between. */
  lemma {:induction false} UserQueriesSpaced(actions: seq<Action>, user: User, i: nat, j: nat)
    requires Invalidate(user) !in actions && i < j < |Run(EMPTY, actions).fetches|
    ensures
      var (p, q) := (Run(EMPTY, actions).fetches[i], Run(EMPTY, actions).fetches[j]);
      p.user == user == q.user && Completed(p) ==> p.endedAt.value + TTL <= q.beganAt
  {
    var s := Run(EMPTY, actions);
    RunInv(EMPTY, actions);
    OneSlotRun(EMPTY, actions, user);
    assert FetchOk(s, i) && FetchOk(s, j) && Spaced(s, i, j);
  }

  /** A read answers with the result of a completed query for its own user. */
  lemma {:induction false} ReadsAnswerOwnQuery(actions: seq<Action>, id: nat)
    requires id in Run(EMPTY, actions).calls && Run(EMPTY, actions).calls[id].pc.Returned?
    ensures
      var (s, r) := (Run(EMPTY, actions), Run(EMPTY, actions).calls[id]);
      && r.pc.fetch < |s.fetches| && s.fetches[r.pc.fetch].user == r.user
      && Completed(s.fetches[r.pc.fetch]) && s.fetches[r.pc.fetch].volumes == r.pc.volumes
  {
    RunInv(EMPTY, actions);
    assert ReadOk(Run(EMPTY, actions), id, Run(EMPTY, actions).calls[id]);
  }

  lemma {:induction false} FreshAnswer(s: State, id: nat, v: Volumes)
    requires Inv(s) && id in s.calls && !s.calls[id].pc.Returned?
    requires Next(s, Advance(id, v)).calls[id].pc.Returned?
    ensures
      var t := Next(s, Advance(id, v));
      var f := t.calls[id].pc.fetch;
      f < |t.fetches| && Completed(t.fetches[f]) && t.fetches[f].endedAt.value <= t.now < t.fetches[f].endedAt.value + TTL
  {
    assert ReadOk(s, id, s.calls[id]);
    if s.calls[id].pc.Holding? {
      assert EntryOk(s, s.calls[id].pc.slot);
    }
  }

  /** In every run an answer is younger than the TTL at the moment it is given. */
  lemma {:induction false} AnswersAreFresh(actions: seq<Action>, id: nat, v: Volumes)
    requires id in Run(EMPTY, actions).calls && !Run(EMPTY, actions).calls[id].pc.Returned?
    requires Next(Run(EMPTY, actions), Advance(id, v)).calls[id].pc.Returned?
    ensures
      var t := Next(Run(EMPTY, actions), Advance(id, v));
      var f := t.calls[id].pc.fetch;
      f < |t.fetches| && Completed(t.fetches[f]) && t.fetches[f].endedAt.value <= t.now < t.fetches[f].endedAt.value + TTL
  {
    RunInv(EMPTY, actions);
    FreshAnswer(Run(EMPTY, actions), id, v);
  }

  /** Later steps keep the log of begun queries and the calls' barriers, and only renew invalidations. */
  ghost predicate Extends(s: State, t: State) {
    && |s.fetches| <= |t.fetches| && (forall f | 0 <= f < |s.fetches| :: t.fetches[f].begun == s.fetches[f].begun)
    && (forall id | id in s.calls :: id in t.calls && t.calls[id].barrier == s.calls[id].barrier)
    && (forall u | u in s.invalidated :: u in t.invalidated && s.invalidated[u] <= t.invalidated[u])
  }

  lemma {:induction false} ProgressExtends(s: State, id: nat, v: Volumes)
    requires id in s.calls && ReadOk(s, id, s.calls[id])
    ensures
      var t := Progress(s, id, v);
      && t.invalidated == s.invalidated && t.calls.Keys == s.calls.Keys
      && (forall j | j in s.calls :: t.calls[j].barrier == s.calls[j].barrier)
      && |s.fetches| <= |t.fetches| && (forall f | 0 <= f < |s.fetches| :: t.fetches[f].begun == s.fetches[f].begun)
  {
  }

  lemma {:induction false} StepExtends(s: State, a: Action)
    requires Inv(s)
    ensures Extends(s, Next(s, a))
  {
    match a {
      case Advance(id, v) =>
        if id in s.calls {
          assert ReadOk(s, id, s.calls[id]);
          ProgressExtends(s, id, v);
          var t := Progress(s, id, v);
          assert Next(s, a) == t.(step := s.step + 1);
        }
      case Drop(id) => if id in s.calls { assert ReadOk(s, id, s.calls[id]); AbandonKeeps(s, id); }
      case _ =>
    }
  }

  lemma {:induction false} ExtendsTrans(s: State, t: State, u: State)
    requires Extends(s, t) && Extends(t, u)
    ensures Extends(s, u)
  {
  }

  lemma {:induction false} RunExtends(s: State, actions: seq<Action>)
    requires Inv(s)
    ensures Extends(s, Run(s, actions))
    decreases |actions|
  {
    if actions != [] {
      var t := Next(s, actions[0]);
      StepInv(s, actions[0]);
      StepExtends(s, actions[0]);
      RunExtends(t, actions[1..]);
      ExtendsTrans(s, t, Run(t, actions[1..]));
    }
  }

  lemma {:induction false} RunConcat(s: State, a: seq<Action>, b: seq<Action>)
    ensures Run(s, a + b) == Run(Run(s, a), b)
    decreases |a|
  {
    if a == [] {
      assert a + b == b;
    } else {
      assert (a + b)[1..] == a[1..] + b;
      RunConcat(Next(s, a[0]), a[1..], b);
    }
  }

  lemma {:induction false} RunOne(s: State, a: Action)
    ensures Run(s, [a]) == Next(s, a)
  {
  }

  /** From any state: a read that starts after an invalidation answers only with later queries. */
  lemma {:induction false} LaterQuery(s: State, user: User, between: seq<Action>, id: nat, after: seq<Action>)
    requires Inv(s) && id !in Run(Next(s, Invalidate(user)), between).calls
    ensures
      var r := Run(Next(Run(Next(s, Invalidate(user)), between), Start(id, user)), after).calls;
      id in r && (r[id].pc.Returned? ==> r[id].pc.fetch >= |s.fetches|)
  {
    var s1 := Next(s, Invalidate(user));
    StepInv(s, Invalidate(user));
    StepExtends(s, Invalidate(user));
    RunInv(s1, between);
    RunExtends(s1, between);
    var s2 := Run(s1, between);
    var s3 := Next(s2, Start(id, user));
    StepInv(s2, Start(id, user));
    StepExtends(s2, Start(id, user));
    assert s3.calls[id].barrier >= s.step;
    RunInv(s3, after);
    RunExtends(s3, after);
    ExtendsTrans(s, s1, s2);
    ExtendsTrans(s, s2, s3);
    BarrierSeparates(s, s3, Run(s3, after), id);
  }

  lemma {:induction false} BarrierSeparates(s: State, t: State, u: State, id: nat)
    requires Inv(s) && Inv(u) && Extends(s, t) && Extends(t, u)
    requires id in t.calls && t.calls[id].barrier >= s.step
    ensures id in u.calls && (u.calls[id].pc.Returned? ==> u.calls[id].pc.fetch >= |s.fetches|)
  {
    assert ReadOk(u, id, u.calls[id]);
    forall f | 0 <= f < |s.fetches|
      ensures u.fetches[f].begun < s.step
    {
      assert FetchOk(s, f);
    }
  }

  /** A read that starts after an invalidation returned never answers with a query begun before
      it, whatever was in flight: its query comes later in the log than all begun by then. */
  lemma {:induction false} NoStaleAnswer(before: seq<Action>, user: User, between: seq<Action>, id: nat, after: seq<Action>)
    requires id !in Run(EMPTY, before + [Invalidate(user)] + between).calls
    ensures
      var r := Run(EMPTY, before + [Invalidate(user)] + between + [Start(id, user)] + after).calls;
      id in r && (r[id].pc.Returned? ==> r[id].pc.fetch >= |Run(EMPTY, before).fetches|)
  {
    var prefix := before + [Invalidate(user)];
    RunInv(EMPTY, before);
    RunConcat(EMPTY, before, [Invalidate(user)]);
    RunOne(Run(EMPTY, before), Invalidate(user));
    RunConcat(EMPTY, prefix, between);
    RunConcat(EMPTY, prefix + between, [Start(id, user)]);
    RunOne(Run(EMPTY, prefix + between), Start(id, user));
    RunConcat(EMPTY, prefix + between + [Start(id, user)], after);
    LaterQuery(Run(EMPTY, before), user, between, id, after);
  }

  // ---- Readers get on ------------------------------------------------------------------

  /** The read holds the mutex of slot `k`. */
  predicate Holds(s: State, id: nat, k: nat) {
    id in s.calls && ((s.calls[id].pc.Holding? || s.calls[id].pc.Fetching?) && s.calls[id].pc.slot == k)
  }

  predicate SlotGuarded(s: State, k: nat)
    requires k < |s.slots|
  {
    s.slots[k].holder.Some? ==> Holds(s, s.slots[k].holder.value, k)
  }

  /** A locked mutex is held by a read that is using it. */
  ghost predicate Guarded(s: State) {
    forall k | 0 <= k < |s.slots| :: SlotGuarded(s, k)
  }

  lemma {:induction false} ProgressGuarded(s: State, id: nat, v: Volumes)
    requires Inv(s) && Guarded(s) && id in s.calls
    ensures Guarded(Progress(s, id, v))
  {
    assert ReadOk(s, id, s.calls[id]);
    forall k | 0 <= k < |Progress(s, id, v).slots|
      ensures SlotGuarded(Progress(s, id, v), k)
    {
      if k < |s.slots| { assert SlotGuarded(s, k); }
    }
  }

  lemma {:induction false} AbandonGuarded(s: State, id: nat)
    requires Inv(s) && Guarded(s) && id in s.calls
    ensures Guarded(Abandon(s, id))
  {
    assert ReadOk(s, id, s.calls[id]);
    forall k | 0 <= k < |Abandon(s, id).slots|
      ensures SlotGuarded(Abandon(s, id), k)
    {
      assert SlotGuarded(s, k);
    }
  }

  lemma {:induction false} StepGuarded(s: State, a: Action)
    requires Inv(s) && Guarded(s)
    ensures Guarded(Next(s, a))
  {
    if a.Advance? && a.id in s.calls {
      ProgressGuarded(s, a.id, a.volumes);
    } else if a.Drop? && a.id in s.calls {
      AbandonGuarded(s, a.id);
    }
    var t := Effect(s, a);
    hide Progress, Abandon;
    forall k | 0 <= k < |Next(s, a).slots|
      ensures SlotGuarded(Next(s, a), k)
    {
      assert a.Start? || a.Invalidate? || a.Tick? ==> SlotGuarded(s, k);
      assert SlotGuarded(t, k);
    }
  }

  lemma {:induction false} RunGuarded(s: State, actions: seq<Action>)
    requires Inv(s) && Guarded(s)
    ensures Guarded(Run(s, actions))
    decreases |actions|
  {
    if actions != [] {
      StepInv(s, actions[0]);
      StepGuarded(s, actions[0]);
      RunGuarded(Next(s, actions[0]), actions[1..]);
    }
  }

  /** In every run a locked mutex belongs to a read that is looking at the entry or waiting for its
      query: a read that returned or was dropped holds none. */
  lemma {:induction false} FinishedReadsHoldNothing(actions: seq<Action>, k: nat)
    requires k < |Run(EMPTY, actions).slots| && Run(EMPTY, actions).slots[k].holder.Some?
    ensures
      var (s, id) := (Run(EMPTY, actions), Run(EMPTY, actions).slots[k].holder.value);
      id in s.calls && (s.calls[id].pc == Holding(k) || (s.calls[id].pc.Fetching? && s.calls[id].pc.slot == k))
  {
    RunInv(EMPTY, actions);
    RunGuarded(EMPTY, actions);
    assert SlotGuarded(Run(EMPTY, actions), k);
  }

  /** So a waiting read gets the mutex at its next step once no read is using the slot. */
  lemma {:induction false} WaitingReadGetsMutex(actions: seq<Action>, id: nat, k: nat, v: Volumes)
    requires id in Run(EMPTY, actions).calls && Run(EMPTY, actions).calls[id].pc == Waiting(k)
    requires forall j | j in Run(EMPTY, actions).calls ::
               var pc := Run(EMPTY, actions).calls[j].pc; pc != Holding(k) && !(pc.Fetching? && pc.slot == k)
    ensures
      var t := Next(Run(EMPTY, actions), Advance(id, v));
      k < |t.slots| && t.slots[k].holder == Some(id) && id in t.calls && t.calls[id].pc == Holding(k)
  {
    var s := Run(EMPTY, actions);
    RunInv(EMPTY, actions);
    RunGuarded(EMPTY, actions);
    assert ReadOk(s, id, s.calls[id]);
    assert SlotGuarded(s, k);
  }

  function Elapsed(actions: seq<Action>): nat {
    if actions == [] then 0 else (if actions[0].Tick? then actions[0].seconds else 0) + Elapsed(actions[1..])
  }

  /** Time passes exactly as the clock steps say. */
  lemma {:induction false} RunClock(s: State, actions: seq<Action>)
    requires Inv(s)
    ensures Run(s, actions).now == s.now + Elapsed(actions)
    decreases |actions|
  {
    if actions != [] {
      StepInv(s, actions[0]);
      assert Next(s, actions[0]).now == s.now + if actions[0].Tick? then actions[0].seconds else 0;
      RunClock(Next(s, actions[0]), actions[1..]);
    }
  }

  /** The result cached for the user, if it is younger than 300 seconds. */
  function Cached(s: State, user: User): Option<Volumes> {
    if user in s.cache && s.cache[user] < |s.slots| then
      match s.slots[s.cache[user]].entry
      case Some(e) => if s.now - e.at < 300 then Some(e.volumes) else None
      case None => None
    else None
  }

  /** No read is using the slot the user's next read will get. */
  ghost predicate SlotFree(s: State, user: User) {
    user in s.cache ==> forall j | j in s.calls :: !Holds(s, j, s.cache[user])
  }

  lemma {:induction false} RunFive(s: State, a: Action, b: Action, c: Action, d: Action, e: Action)
    ensures Run(s, [a, b, c, d, e]) == Next(Next(Next(Next(Next(s, a), b), c), d), e)
  {
    assert [a, b, c, d, e][1..] == [b, c, d, e] && [b, c, d, e][1..] == [c, d, e] && [c, d, e][1..] == [d, e];
    assert [d, e][1..] == [e] && [e][1..] == [];
    var t := Next(Next(s, a), b);
    assert Run(s, [a, b, c, d, e]) == Run(Next(s, a), [b, c, d, e]) == Run(t, [c, d, e]);
    assert Run(t, [c, d, e]) == Run(Next(t, c), [d, e]) == Run(Next(Next(t, c), d), [e]);
    assert Run(Next(Next(t, c), d), [e]) == Run(Next(Next(Next(t, c), d), e), []);
  }

  /** The same reads are in flight in both states, except for `id`. */
  ghost predicate SameOthers(s: State, t: State, id: nat) {
    forall j | j != id :: (j in s.calls <==> j in t.calls) && (j in s.calls ==> t.calls[j] == s.calls[j])
  }

  /** Read `id` of `user` holds the mutex of the user's slot, alone, and sees the entry `e`. */
  ghost predicate InCharge(s: State, id: nat, user: User, e: Option<Entry>) {
    && user in s.cache && s.cache[user] < |s.slots|
    && id in s.calls && s.calls[id].user == user && s.calls[id].pc == Holding(s.cache[user])
    && s.slots[s.cache[user]].entry == e
    && forall j | j != id :: !Holds(s, j, s.cache[user])
  }

  function EntryFor(s: State, user: User): Option<Entry> {
    if user in s.cache && s.cache[user] < |s.slots| then s.slots[s.cache[user]].entry else None
  }

  lemma {:induction false} ReadFindsSlot(s: State, id: nat, user: User, v: Volumes)
    requires Inv(s) && id !in s.calls && SlotFree(s, user)
    ensures
      var t := Next(Next(s, Start(id, user)), Advance(id, v));
      && t.now == s.now && t.fetches == s.fetches && SameOthers(s, t, id)
      && user in t.cache && t.cache[user] < |t.slots|
      && id in t.calls && t.calls[id].user == user && t.calls[id].pc == Waiting(t.cache[user])
      && t.slots[t.cache[user]].entry == EntryFor(s, user)
      && (user in s.cache ==> t.slots == s.slots && t.cache == s.cache)
      && (user !in s.cache ==> t.slots[t.cache[user]].holder.None? && t.cache[user] == |s.slots|)
  {
    assert user in s.cache ==> CacheOk(s, user);
  }

  lemma {:induction false} ReadTakesCharge(s: State, id: nat, user: User, v: Volumes)
    requires Inv(s) && Guarded(s) && id !in s.calls && SlotFree(s, user)
    ensures
      var t := Next(Next(Next(s, Start(id, user)), Advance(id, v)), Advance(id, v));
      && InCharge(t, id, user, EntryFor(s, user)) && t.now == s.now && t.fetches == s.fetches
  {
    var u := Next(Next(s, Start(id, user)), Advance(id, v));
    ReadFindsSlot(s, id, user, v);
    assert user in s.cache ==> CacheOk(s, user) && SlotGuarded(s, s.cache[user]);
    forall j | j != id && j in s.calls
      ensures !Holds(u, j, u.cache[user])
    {
      assert ReadOk(s, j, s.calls[j]);
    }
    assert u.slots[u.cache[user]].holder.None?;
    LockedNow(u, id, u.cache[user], v);
  }

  lemma {:induction false} LockedNow(u: State, id: nat, k: nat, v: Volumes)
    requires id in u.calls && u.calls[id].pc == Waiting(k) && k < |u.slots| && u.slots[k].holder.None?
    ensures
      var t := Next(u, Advance(id, v));
      && t.now == u.now && t.fetches == u.fetches && t.cache == u.cache && |t.slots| == |u.slots|
      && t.slots[k] == u.slots[k].(holder := Some(id)) && t.calls == u.calls[id := u.calls[id].(pc := Holding(k))]
  {
  }

  /** What a read in charge leads to. */
  ghost predicate Completes(s: State, t: State, id: nat, user: User, cached: Option<Volumes>, v: Volumes) {
    && id in t.calls && t.calls[id].pc.Returned? && t.calls[id].pc.volumes == cached.GetOr(v)
    && (if cached.Some? then t.fetches == s.fetches
        else |t.fetches| == |s.fetches| + 1 && t.fetches[..|s.fetches|] == s.fetches
             && t.fetches[|s.fetches|].user == user && t.fetches[|s.fetches|].volumes == v)
    && Cached(t, user) == Some(cached.GetOr(v)) && SlotFree(t, user)
  }

  lemma {:induction false} ReadHits(s: State, id: nat, user: User, e: Entry, v: Volumes)
    requires InCharge(s, id, user, Some(e)) && s.now - e.at < 300
    ensures Completes(s, Next(Next(s, Advance(id, v)), Advance(id, v)), id, user, Some(e.volumes), v)
  {
    var t := Next(s, Advance(id, v));
    assert t.calls == s.calls[id := s.calls[id].(pc := Returned(e.volumes, e.fetch))];
    var u := Next(t, Advance(id, v));
    assert u == t.(step := t.step + 1) && u.cache == s.cache;
    assert forall j | j != id :: Holds(u, j, s.cache[user]) <==> Holds(s, j, s.cache[user]);
    assert !Holds(u, id, s.cache[user]);
  }

  lemma {:induction false} ReadMisses(s: State, id: nat, user: User, e: Option<Entry>, v: Volumes)
    requires InCharge(s, id, user, e) && (e.Some? ==> s.now - e.value.at >= 300)
    ensures Completes(s, Next(Next(s, Advance(id, v)), Advance(id, v)), id, user, None, v)
  {
    var k := s.cache[user];
    var t := Next(s, Advance(id, v));
    assert t.calls == s.calls[id := s.calls[id].(pc := Fetching(k, |s.fetches|))];
    assert t.fetches == s.fetches + [Fetch(k, user, s.step, s.now, None, Blank())] && t.slots == s.slots;
    var u := Next(t, Advance(id, v));
    assert u.calls == t.calls[id := t.calls[id].(pc := Returned(v, |s.fetches|))];
    assert u.slots[k] == s.slots[k].(entry := Some(Entry(v, s.now, |s.fetches|)), holder := None) && u.cache == s.cache;
    assert u.fetches[..|s.fetches|] == s.fetches;
    assert forall j | j != id :: Holds(u, j, k) <==> Holds(s, j, k);
    assert !Holds(u, id, k);
  }

  /** A read that finds its slot free, in any run, has its answer after four steps: the cached result
      if there is one, without a query, and otherwise what one new query for the user returns.  It
      leaves the mutex free and the result cached. */
  lemma {:induction false} ReadCompletes(actions: seq<Action>, id: nat, user: User, v: Volumes)
    requires id !in Run(EMPTY, actions).calls && SlotFree(Run(EMPTY, actions), user)
    ensures
      var s := Run(EMPTY, actions);
      var t := Run(s, [Start(id, user), Advance(id, v), Advance(id, v), Advance(id, v), Advance(id, v)]);
      Completes(s, t, id, user, Cached(s, user), v)
  {
    var s := Run(EMPTY, actions);
    RunInv(EMPTY, actions);
    RunGuarded(EMPTY, actions);
    RunFive(s, Start(id, user), Advance(id, v), Advance(id, v), Advance(id, v), Advance(id, v));
    hide Run, Next, Inv, Guarded, SlotFree, InCharge, Completes;
    ReadTakesCharge(s, id, user, v);
    var t := Next(Next(Next(s, Start(id, user)), Advance(id, v)), Advance(id, v));
    var e := EntryFor(s, user);
    if e.Some? && s.now - e.value.at < 300 {
      ReadHits(t, id, user, e.value, v);
    } else {
      ReadMisses(t, id, user, e, v);
    }
    SameFetches(s, t, Next(Next(t, Advance(id, v)), Advance(id, v)), id, user, Cached(s, user), v);
  }

  lemma {:induction false} SameFetches(s: State, t: State, u: State, id: nat, user: User, cached: Option<Volumes>, v: Volumes)
    requires Completes(t, u, id, user, cached, v) && t.fetches == s.fetches
    ensures Completes(s, u, id, user, cached, v)
  {
  }

  // ---- The cache -----------------------------------------------------------------------

  /** The shared map of slots and the reads in flight. */
  class Cache {
    var now: nat
    var cache: map<User, nat>
    var slots: seq<Slot>
    var calls: map<nat, Read>
    var step: nat
    var fetches: seq<Fetch>
    var invalidated: map<User, nat>

    ghost function View(): State
      reads this
    {
      State(now, step, cache, slots, calls, fetches, invalidated)
    }

    constructor ()
      ensures View() == EMPTY
    {
      now, step, cache, slots, calls, fetches, invalidated := 0, 1, map[], [], map[], [], map[];
    }

    /** `cache().remove(user)`. */
    method InvalidateUser(user: User)
      modifies this
      ensures View() == Next(old(View()), Invalidate(user))
    {
      cache := cache - {user};
      invalidated := invalidated[user := step];
      step := step + 1;
    }

    /** Get or create the user's slot in the shared map. */
    method FindSlot(id: nat)
      requires id in calls && calls[id].pc == Arrived
      modifies this
      ensures View() == TakeSlot(old(View()), id)
    {
      var r := calls[id];
      if r.user !in cache {
        cache := cache[r.user := |slots|];
        slots := slots + [Slot(r.user, step, None, None)];
      }
      calls := calls[id := r.(pc := Waiting(cache[r.user]))];
    }

    /** `slot.lock()`: proceeds once nobody holds the mutex. */
    method TryLock(id: nat, k: nat)
      requires id in calls && k < |slots|
      modifies this
      ensures View() == Lock(old(View()), id, k)
    {
      if slots[k].holder.None? {
        slots := slots[k := slots[k].(holder := Some(id))];
        calls := calls[id := calls[id].(pc := Holding(k))];
      }
    }

    /** With the mutex held: answer from a fresh entry, or begin the query. */
    method Look(id: nat, k: nat)
      requires id in calls && k < |slots|
      modifies this
      ensures View() == Check(old(View()), id, k)
    {
      var r := calls[id];
      var e := slots[k].entry;
      if e.Some? && now - e.value.at < TTL {
        slots := slots[k := slots[k].(holder := None)];
        calls := calls[id := r.(pc := Returned(e.value.volumes, e.value.fetch))];
      } else {
        calls := calls[id := r.(pc := Fetching(k, |fetches|))];
        fetches := fetches + [Fetch(k, r.user, step, now, None, Blank())];
      }
    }

    /** Store what the query returned, release the mutex, answer. */
    method Store(id: nat, k: nat, f: nat, volumes: Volumes)
      requires id in calls && k < |slots| && f < |fetches|
      modifies this
      ensures View() == Finish(old(View()), id, k, f, volumes)
    {
      fetches := fetches[f := fetches[f].(endedAt := Some(now), volumes := volumes)];
      slots := slots[k := slots[k].(entry := Some(Entry(volumes, now, f)), holder := None)];
      calls := calls[id := calls[id].(pc := Returned(volumes, f))];
    }

    /** The next atomic part of `get_volumes` for call `id`: find the slot, wait for its mutex,
        look at the entry, or store what the query returned. */
    method GetVolumes(id: nat, volumes: Volumes)
      requires Inv(View()) && id in calls
      modifies this
      ensures View() == Next(old(View()), Advance(id, volumes))
    {
      assert ReadOk(View(), id, calls[id]);
      match calls[id].pc {
        case Arrived => FindSlot(id);
        case Waiting(k) => TryLock(id, k);
        case Holding(k) => Look(id, k);
        case Fetching(k, f) => Store(id, k, f, volumes);
        case _ =>
      }
      step := step + 1;
    }
  }
}
