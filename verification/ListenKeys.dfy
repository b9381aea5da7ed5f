/** The listenKey protocol over two Redis maps.

    Handlers issue Redis commands one at a time and other requests run in between, so every
    command is one atomic step of a state machine.  A command that fails has no effect.  The
    clock only moves by `Tick`, which drops the entries whose deadline it reaches.  POST draws
    its candidate key when it arrives; keys are random 64-character strings, taken to be fresh. */
module ListenKeys {
  import opened Wrappers

  const TTL: nat := 3600

  type User = string
  type ListenKey = string

  datatype Entry<V> = Entry(value: V, deadline: nat)

  datatype Op = Post | Put | Delete | Resolve(key: ListenKey)

  datatype Outcome = KeyIssued(key: ListenKey) | Address(user: User) | Deleted | NotFound | Failed

  /** The next command of a request. */
  datatype Pc =
    | SetForwardNx
    | SetReverse
    | UndoForward
    | ReadForward
    | ReadReverse
    | ExpireReverse(key: ListenKey)
    | ExpireForward(key: ListenKey)
    | DelReverse(key: ListenKey)
    | DelForward(key: ListenKey)
    | Done(outcome: Outcome)

  /** `user` is the caller, or for Resolve the address read from the reverse map. */
  datatype Request = Request(user: User, op: Op, candidate: ListenKey, pc: Pc)

  datatype State = State(now: nat, forward: map<User, Entry<ListenKey>>, reverse: map<ListenKey, Entry<User>>,
                         requests: map<nat, Request>, minted: map<ListenKey, User>)

  datatype Action =
    | Arrive(id: nat, user: User, op: Op, candidate: ListenKey)
    | Step(id: nat, ok: bool)
    | Tick(seconds: nat)

  const EMPTY: State := State(0, map[], map[], map[], map[])

  function FirstPc(op: Op): Pc {
    match op
    case Post => SetForwardNx
    case Resolve(_) => ReadReverse
    case _ => ReadForward
  }

  function Extend<K, V>(m: map<K, Entry<V>>, k: K, now: nat): map<K, Entry<V>> {
    if k in m then m[k := Entry(m[k].value, now + TTL)] else m
  }

  function Alive<K, V>(m: map<K, Entry<V>>, now: nat): map<K, Entry<V>> {
    map k | k in m && now < m[k].deadline :: m[k]
  }

  /** After reading the caller's forward entry. */
  function AfterRead(r: Request, found: Option<ListenKey>): Pc {
    match found
    case Some(k) => if r.op == Delete then DelReverse(k) else ExpireReverse(k)
    case None => Done(if r.op == Put then NotFound else if r.op == Delete then Deleted else Failed)
  }

  /** The forward map after the next command of `r`. */
  function ForwardAfter(s: State, r: Request, ok: bool): map<User, Entry<ListenKey>> {
    if !ok then s.forward
    else
      match r.pc
      case SetForwardNx => if r.user in s.forward then s.forward else s.forward[r.user := Entry(r.candidate, s.now + TTL)]
      case UndoForward => s.forward - {r.user}
      case ExpireForward(_) => Extend(s.forward, r.user, s.now)
      case DelForward(_) => s.forward - {r.user}
      case _ => s.forward
  }

  /** The reverse map after the next command of `r`. */
  function ReverseAfter(s: State, r: Request, ok: bool): map<ListenKey, Entry<User>> {
    if !ok then s.reverse
    else
      match r.pc
      case SetReverse => s.reverse[r.candidate := Entry(r.user, s.now + TTL)]
      case ExpireReverse(k) => Extend(s.reverse, k, s.now)
      case DelReverse(k) => s.reverse - {k}
      case _ => s.reverse
  }

  /** Where `r` stands after its next command. */
  function RequestAfter(s: State, r: Request, ok: bool): Request {
    match r.pc
    case SetForwardNx => r.(pc := if !ok then Done(Failed) else if r.user in s.forward then ReadForward else SetReverse)
    case SetReverse => r.(pc := if ok then Done(KeyIssued(r.candidate)) else UndoForward)
    case UndoForward => r.(pc := Done(Failed))
    case ReadForward =>
      r.(pc := if !ok then Done(Failed)
               else AfterRead(r, if r.user in s.forward then Some(s.forward[r.user].value) else None))
    case ReadReverse =>
      if ok && r.op.Resolve? && r.op.key in s.reverse then
        r.(user := s.reverse[r.op.key].value, pc := ExpireReverse(r.op.key))
      else r.(pc := Done(NotFound))
    case ExpireReverse(k) => r.(pc := ExpireForward(k))
    case ExpireForward(k) => r.(pc := Done(if r.op.Resolve? then Address(r.user) else KeyIssued(k)))
    case DelReverse(k) => r.(pc := DelForward(k))
    case DelForward(_) => r.(pc := Done(Deleted))
    case Done(_) => r
  }

  function Command(s: State, id: nat, ok: bool): State
    requires id in s.requests
  {
    var r := s.requests[id];
    State(s.now, ForwardAfter(s, r, ok), ReverseAfter(s, r, ok), s.requests[id := RequestAfter(s, r, ok)], s.minted)
  }

  function Next(s: State, a: Action): State {
    match a
    case Arrive(id, user, op, candidate) =>
      if id in s.requests || (op == Post && candidate in s.minted) then s
      else s.(requests := s.requests[id := Request(user, op, candidate, FirstPc(op))],
              minted := if op == Post then s.minted[candidate := user] else s.minted)
    case Step(id, ok) => if id in s.requests then Command(s, id, ok) else s
    case Tick(d) =>
      s.(now := s.now + d, forward := Alive(s.forward, s.now + d), reverse := Alive(s.reverse, s.now + d))
  }

  function Run(s: State, actions: seq<Action>): State
    decreases |actions|
  {
    if actions == [] then s else Run(Next(s, actions[0]), actions[1..])
  }

  // ---- Ownership: every run, with DELETE, expiry and failures --------------------------

  /** The POST of `u` drew the key `k`. */
  predicate MintedFor(s: State, k: ListenKey, u: User) {
    k in s.minted && s.minted[k] == u
  }

  predicate RequestOwned(s: State, r: Request) {
    && (r.op == Post ==> MintedFor(s, r.candidate, r.user))
    && (r.pc.DelReverse? || r.pc.DelForward? ==> r.op == Delete)
    && (r.pc.ReadForward? ==> !r.op.Resolve?)
    && (r.pc.SetForwardNx? || r.pc.SetReverse? || r.pc.UndoForward? ==> r.op == Post)
    && (r.pc.ExpireReverse? || r.pc.ExpireForward? || r.pc.DelReverse? || r.pc.DelForward? ==>
          MintedFor(s, r.pc.key, r.user) && (r.op.Resolve? ==> r.pc.key == r.op.key))
    && (r.pc.Done? && r.pc.outcome.KeyIssued? ==> MintedFor(s, r.pc.outcome.key, r.user))
    && (r.pc.Done? && r.pc.outcome.Address? ==> r.op.Resolve? && MintedFor(s, r.op.key, r.pc.outcome.user))
  }

  ghost predicate ForwardOwned(s: State) {
    forall u | u in s.forward :: MintedFor(s, s.forward[u].value, u) && s.forward[u].deadline <= s.now + TTL
  }

  ghost predicate ReverseOwned(s: State) {
    forall k | k in s.reverse :: MintedFor(s, k, s.reverse[k].value) && s.reverse[k].deadline <= s.now + TTL
  }

  ghost predicate Owned(s: State) {
    && ForwardOwned(s) && ReverseOwned(s)
    && (forall id | id in s.requests :: RequestOwned(s, s.requests[id]))
  }

  lemma {:induction false} OwnedMaps(s: State, r: Request, ok: bool)
    requires Owned(s) && RequestOwned(s, r)
    ensures ForwardOwned(s.(forward := ForwardAfter(s, r, ok)))
    ensures ReverseOwned(s.(reverse := ReverseAfter(s, r, ok)))
  {
  }

  lemma {:induction false} OwnedRequest(s: State, r: Request, ok: bool)
    requires ForwardOwned(s) && ReverseOwned(s) && RequestOwned(s, r)
    ensures RequestOwned(s, RequestAfter(s, r, ok))
  {
  }

  lemma {:induction false} OwnedCommand(s: State, id: nat, ok: bool)
    requires Owned(s) && id in s.requests
    ensures Owned(Command(s, id, ok))
  {
    var t := Command(s, id, ok);
    var r := s.requests[id];
    assert RequestOwned(s, r);
    OwnedMaps(s, r, ok);
    OwnedRequest(s, r, ok);
    forall j | j in t.requests
      ensures RequestOwned(t, t.requests[j])
    {
      assert j != id ==> RequestOwned(s, s.requests[j]);
      SameMinted(s, t, t.requests[j]);
    }
  }

  lemma {:induction false} SameMinted(s: State, t: State, r: Request)
    requires s.minted == t.minted
    ensures RequestOwned(s, r) <==> RequestOwned(t, r)
  {
  }

  lemma {:induction false} OwnedStep(s: State, a: Action)
    requires Owned(s)
    ensures Owned(Next(s, a))
  {
    if a.Step? {
      if a.id in s.requests { OwnedCommand(s, a.id, a.ok); }
    } else {
      var t := Next(s, a);
      forall id | id in t.requests
        ensures RequestOwned(t, t.requests[id])
      {
        if id in s.requests { assert RequestOwned(s, s.requests[id]); }
      }
    }
  }

  lemma {:induction false} OwnedRun(s: State, actions: seq<Action>)
    requires Owned(s)
    ensures Owned(Run(s, actions))
    decreases |actions|
  {
    if actions != [] {
      OwnedStep(s, actions[0]);
      OwnedRun(Next(s, actions[0]), actions[1..]);
    }
  }

  /** In every interleaving no answer hands one user's key or address to another. */
  lemma {:induction false} AnswersAreOwn(actions: seq<Action>, id: nat)
    requires id in Run(EMPTY, actions).requests && Run(EMPTY, actions).requests[id].pc.Done?
    ensures
      var s := Run(EMPTY, actions);
      var r := s.requests[id];
      && (r.pc.outcome.KeyIssued? ==> MintedFor(s, r.pc.outcome.key, r.user))
      && (r.pc.outcome.Address? ==> r.op.Resolve? && MintedFor(s, r.op.key, r.pc.outcome.user))
  {
    OwnedRun(EMPTY, actions);
    assert RequestOwned(Run(EMPTY, actions), Run(EMPTY, actions).requests[id]);
  }

  // ---- One live key per user -----------------------------------------------------------

  /** A live key is the one its owner's forward entry names. */
  ghost predicate Mirrored(s: State) {
    forall k | k in s.reverse :: s.reverse[k].value in s.forward && s.forward[s.reverse[k].value].value == k
  }

  /** A clock step that no entry's deadline falls into. */
  predicate ExpiresNothing(s: State, a: Action) {
    a.Tick? ==> Alive(s.forward, s.now + a.seconds) == s.forward && Alive(s.reverse, s.now + a.seconds) == s.reverse
  }

  predicate Undisturbed(s: State, actions: seq<Action>)
    decreases |actions|
  {
    actions != [] ==>
      && !(actions[0].Arrive? && actions[0].op == Delete)
      && ExpiresNothing(s, actions[0])
      && Undisturbed(Next(s, actions[0]), actions[1..])
  }

  predicate Pending(r: Request) {
    r.pc.SetReverse? || r.pc.UndoForward?
  }

  /** A POST that claimed the forward map still holds it, and its key is not live yet. */
  predicate ClaimHeld(s: State, r: Request) {
    && (r.op == Post && r.pc.SetForwardNx? ==> r.candidate !in s.reverse)
    && (Pending(r) ==> r.op == Post && r.user in s.forward && s.forward[r.user].value == r.candidate
                       && r.candidate !in s.reverse)
    && r.op != Delete && !r.pc.DelReverse? && !r.pc.DelForward?
    && (r.pc.SetForwardNx? ==> r.op == Post)
  }

  ghost predicate Claims(s: State) {
    && (forall id | id in s.requests :: ClaimHeld(s, s.requests[id]))
    && (forall i, j | i in s.requests && j in s.requests && i != j
                      && s.requests[i].op == Post && s.requests[j].op == Post
          :: s.requests[i].candidate != s.requests[j].candidate)
    && (forall id | id in s.requests && s.requests[id].op == Post :: s.requests[id].candidate in s.minted)
    && (forall k | k in s.reverse :: k in s.minted)
    && Mirrored(s)
  }

  lemma {:induction false} ClaimsArrive(s: State, a: Action)
    requires Claims(s) && a.Arrive? && a.op != Delete
    ensures Claims(Next(s, a))
  {
  }

  lemma {:induction false} MirroredStep(s: State, r: Request, ok: bool)
    requires Mirrored(s) && ClaimHeld(s, r)
    ensures Mirrored(s.(forward := ForwardAfter(s, r, ok), reverse := ReverseAfter(s, r, ok)))
  {
  }

  lemma {:induction false} OwnClaimStep(s: State, r: Request, ok: bool)
    requires Mirrored(s) && ClaimHeld(s, r)
    ensures ClaimHeld(s.(forward := ForwardAfter(s, r, ok), reverse := ReverseAfter(s, r, ok)), RequestAfter(s, r, ok))
  {
  }

  lemma {:induction false} OtherClaimStep(s: State, r: Request, ok: bool, other: Request)
    requires Mirrored(s) && ClaimHeld(s, r) && ClaimHeld(s, other)
    requires r.op == Post && other.op == Post ==> r.candidate != other.candidate
    ensures ClaimHeld(s.(forward := ForwardAfter(s, r, ok), reverse := ReverseAfter(s, r, ok)), other)
  {
  }

  lemma {:induction false} SameMaps(s: State, t: State, r: Request)
    requires s.forward == t.forward && s.reverse == t.reverse
    ensures ClaimHeld(s, r) <==> ClaimHeld(t, r)
    ensures Mirrored(s) <==> Mirrored(t)
  {
  }

  lemma {:induction false} ClaimsStep(s: State, id: nat, ok: bool)
    requires Claims(s) && id in s.requests
    ensures Claims(Next(s, Step(id, ok)))
  {
    var t := Next(s, Step(id, ok));
    var r := s.requests[id];
    var maps := s.(forward := ForwardAfter(s, r, ok), reverse := ReverseAfter(s, r, ok));
    assert ClaimHeld(s, r);
    MirroredStep(s, r, ok);
    OwnClaimStep(s, r, ok);
    SameMaps(maps, t, RequestAfter(s, r, ok));
    forall j | j in t.requests && j != id
      ensures ClaimHeld(t, t.requests[j])
    {
      assert ClaimHeld(s, s.requests[j]);
      OtherClaimStep(s, r, ok, s.requests[j]);
      SameMaps(maps, t, s.requests[j]);
    }
    SameCandidate(r, s, ok);
  }

  lemma {:induction false} SameCandidate(r: Request, s: State, ok: bool)
    ensures RequestAfter(s, r, ok).candidate == r.candidate && RequestAfter(s, r, ok).op == r.op
  {
  }

  lemma {:induction false} ClaimsRun(s: State, actions: seq<Action>)
    requires Claims(s) && Undisturbed(s, actions)
    ensures Claims(Run(s, actions))
    decreases |actions|
  {
    if actions != [] {
      var a := actions[0];
      match a {
        case Arrive(_, _, _, _) => ClaimsArrive(s, a);
        case Step(id, ok) => if id in s.requests { ClaimsStep(s, id, ok); }
        case Tick(_) =>
          forall id | id in s.requests
            ensures ClaimHeld(Next(s, a), s.requests[id])
          {
            assert ClaimHeld(s, s.requests[id]);
          }
      }
      ClaimsRun(Next(s, a), actions[1..]);
    }
  }

  /** Without DELETE and expiry, even when commands fail, no user ever has two live keys. */
  lemma {:induction false} OneLiveKey(actions: seq<Action>, k: ListenKey, l: ListenKey)
    requires Undisturbed(EMPTY, actions)
    ensures Mirrored(Run(EMPTY, actions))
    ensures
      var live := Run(EMPTY, actions).reverse;
      k in live && l in live && live[k].value == live[l].value ==> k == l
  {
    ClaimsRun(EMPTY, actions);
  }

  // ---- Idempotent POST -----------------------------------------------------------------

  predicate NoFailures(actions: seq<Action>) {
    forall i | 0 <= i < |actions| :: actions[i].Step? ==> actions[i].ok
  }

  /** Every key a request of `user` holds or returned is the one in the forward map. */
  predicate Agrees(s: State, r: Request) {
    && !r.pc.UndoForward?
    && (r.op == Post || r.op == Put ==>
          && (r.pc.ExpireReverse? || r.pc.ExpireForward? ==> r.user in s.forward && s.forward[r.user].value == r.pc.key)
          && (r.pc.Done? && r.pc.outcome.KeyIssued? ==>
                r.user in s.forward && s.forward[r.user].value == r.pc.outcome.key))
  }

  ghost predicate AllAgree(s: State) {
    forall id | id in s.requests :: Agrees(s, s.requests[id])
  }

  lemma {:induction false} AgreeStep(s: State, a: Action)
    requires Claims(s) && AllAgree(s)
    requires !(a.Arrive? && a.op == Delete) && ExpiresNothing(s, a) && (a.Step? ==> a.ok)
    ensures AllAgree(Next(s, a))
  {
  }

  lemma {:induction false} AgreeRun(s: State, actions: seq<Action>)
    requires Claims(s) && AllAgree(s) && Undisturbed(s, actions) && NoFailures(actions)
    ensures AllAgree(Run(s, actions))
    decreases |actions|
  {
    if actions != [] {
      AgreeStep(s, actions[0]);
      ClaimsRun(s, [actions[0]]);
      assert Run(s, [actions[0]]) == Run(Next(s, actions[0]), []);
      AgreeRun(Next(s, actions[0]), actions[1..]);
    }
  }

  /** If moreover no command fails, all POSTs and PUTs of one user return the same key. */
  lemma {:induction false} PostIsIdempotent(actions: seq<Action>, i: nat, j: nat)
    requires Undisturbed(EMPTY, actions) && NoFailures(actions)
    ensures
      var done := Run(EMPTY, actions).requests;
      i in done && j in done && done[i].user == done[j].user
      && !done[i].op.Resolve? && !done[j].op.Resolve?
      && done[i].pc.Done? && done[i].pc.outcome.KeyIssued? && done[j].pc.Done? && done[j].pc.outcome.KeyIssued?
      ==> done[i].pc.outcome.key == done[j].pc.outcome.key
  {
    var s := Run(EMPTY, actions);
    ClaimsRun(EMPTY, actions);
    AgreeRun(EMPTY, actions);
    if i in s.requests && j in s.requests {
      assert Agrees(s, s.requests[i]) && Agrees(s, s.requests[j]);
      assert ClaimHeld(s, s.requests[i]) && ClaimHeld(s, s.requests[j]);
    }
  }

  // ---- Time ----------------------------------------------------------------------------

  function Elapsed(actions: seq<Action>): nat {
    if actions == [] then 0 else (if actions[0].Tick? then actions[0].seconds else 0) + Elapsed(actions[1..])
  }

  ghost predicate DeadlinesFrom(s: State, limit: nat) {
    && (forall u | u in s.forward :: s.forward[u].deadline >= limit)
    && (forall k | k in s.reverse :: s.reverse[k].deadline >= limit)
  }

  predicate NoDelete(actions: seq<Action>) {
    forall i | 0 <= i < |actions| :: !(actions[i].Arrive? && actions[i].op == Delete)
  }

  /** Nothing expires in a run shorter than the TTL. */
  lemma {:induction false} ShortRunUndisturbed(s: State, actions: seq<Action>, limit: nat)
    requires DeadlinesFrom(s, limit) && limit <= s.now + TTL
    requires NoDelete(actions) && s.now + Elapsed(actions) < limit
    ensures Undisturbed(s, actions)
    decreases |actions|
  {
    if actions != [] {
      var a := actions[0];
      assert !(a.Arrive? && a.op == Delete);
      var t := Next(s, a);
      assert ExpiresNothing(s, a);
      assert t.now + Elapsed(actions[1..]) == s.now + Elapsed(actions);
      ShortRunUndisturbed(t, actions[1..], limit);
    }
  }

  /** The total time passes exactly as the clock steps say. */
  lemma {:induction false} RunClock(s: State, actions: seq<Action>)
    ensures Run(s, actions).now == s.now + Elapsed(actions)
    decreases |actions|
  {
    if actions != [] {
      RunClock(Next(s, actions[0]), actions[1..]);
    }
  }

  /** In the first hour, whatever fails, a user has at most one live key unless it deletes one. */
  lemma {:induction false} OneLiveKeyWithinTtl(actions: seq<Action>)
    requires NoDelete(actions) && Elapsed(actions) < 3600
    ensures Mirrored(Run(EMPTY, actions))
  {
    ShortRunUndisturbed(EMPTY, actions, TTL);
    OneLiveKey(actions, "", "");
  }

  /** No DELETE of `u` is under way or arrives. */
  ghost predicate NeverDeletes(s: State, actions: seq<Action>, u: User) {
    && (forall id | id in s.requests :: !(s.requests[id].op == Delete && s.requests[id].user == u))
    && (forall i | 0 <= i < |actions| :: !(actions[i].Arrive? && actions[i].op == Delete && actions[i].user == u))
  }

  /** A live key stays live, with the same owner, until its deadline unless its owner deletes it. */
  lemma {:induction false} KeyStaysLive(s: State, actions: seq<Action>, k: ListenKey)
    requires Owned(s) && k in s.reverse
    requires NeverDeletes(s, actions, s.reverse[k].value)
    requires s.now + Elapsed(actions) < s.reverse[k].deadline
    ensures
      var t := Run(s, actions);
      k in t.reverse && t.reverse[k].value == s.reverse[k].value && t.reverse[k].deadline >= s.reverse[k].deadline
    decreases |actions|
  {
    if actions != [] {
      var t := Next(s, actions[0]);
      OwnedStep(s, actions[0]);
      KeyStaysStep(s, actions[0], k);
      assert NeverDeletes(t, actions[1..], s.reverse[k].value) by {
        forall i | 0 <= i < |actions[1..]|
          ensures actions[1..][i] == actions[i + 1]
        {
        }
        forall id | id in t.requests
          ensures !(t.requests[id].op == Delete && t.requests[id].user == s.reverse[k].value)
        {
        }
      }
      KeyStaysLive(t, actions[1..], k);
    }
  }

  lemma {:induction false} KeyStaysStep(s: State, a: Action, k: ListenKey)
    requires Owned(s) && k in s.reverse
    requires forall id | id in s.requests :: !(s.requests[id].op == Delete && s.requests[id].user == s.reverse[k].value)
    requires a.Tick? ==> s.now + a.seconds < s.reverse[k].deadline
    ensures
      var t := Next(s, a);
      k in t.reverse && t.reverse[k].value == s.reverse[k].value && t.reverse[k].deadline >= s.reverse[k].deadline
  {
  }

  /** A successful EXPIRE of a live key by PUT, POST or a WebSocket login gives it a full hour:
      at any later moment within the TTL it is still live and still resolves to its owner. */
  lemma {:induction false} KeepaliveLastsTtl(s: State, id: nat, k: ListenKey, actions: seq<Action>)
    requires Owned(s) && id in s.requests && s.requests[id].pc == ExpireReverse(k) && k in s.reverse
    requires NeverDeletes(s, actions, s.reverse[k].value) && Elapsed(actions) < 3600
    ensures
      var t := Run(Next(s, Step(id, true)), actions);
      k in t.reverse && t.reverse[k].value == s.reverse[k].value && MintedFor(t, k, s.reverse[k].value)
  {
    var t := Next(s, Step(id, true));
    OwnedStep(s, Step(id, true));
    assert forall i | i in t.requests && i != id :: t.requests[i] == s.requests[i];
    KeyStaysLive(t, actions, k);
    OwnedRun(t, actions);
  }

  // ---- Other users' requests -----------------------------------------------------------

  /** The user sent the request, or it resolves a key minted for the user. */
  predicate About(r: Request, u: User, owner: map<ListenKey, User>) {
    if r.op.Resolve? then r.op.key in owner && owner[r.op.key] == u else r.user == u
  }

  predicate Kept(s: State, a: Action, u: User, owner: map<ListenKey, User>) {
    match a
    case Arrive(_, user, op, candidate) => About(Request(user, op, candidate, FirstPc(op)), u, owner)
    case Step(id, _) => id in s.requests && About(s.requests[id], u, owner)
    case Tick(_) => true
  }

  /** The run without the arrivals and commands of requests that are not about `u`. */
  function OnlyAbout(s: State, actions: seq<Action>, u: User, owner: map<ListenKey, User>): seq<Action>
    decreases |actions|
  {
    if actions == [] then []
    else (if Kept(s, actions[0], u, owner) then [actions[0]] else []) + OnlyAbout(Next(s, actions[0]), actions[1..], u, owner)
  }

  predicate NewArrival(s: State, a: Action) {
    a.Arrive? ==> a.id !in s.requests && (a.op == Post ==> a.candidate !in s.minted)
  }

  /** Every arriving request is a new one, and every POST draws a new key. */
  predicate NewArrivals(s: State, actions: seq<Action>)
    decreases |actions|
  {
    actions != [] ==> NewArrival(s, actions[0]) && NewArrivals(Next(s, actions[0]), actions[1..])
  }

  ghost predicate SameEntries(s: State, t: State, u: User, owner: map<ListenKey, User>) {
    && s.now == t.now
    && (u in s.forward <==> u in t.forward) && (u in s.forward ==> s.forward[u] == t.forward[u])
    && (forall k | k in owner && owner[k] == u ::
          (k in s.reverse <==> k in t.reverse) && (k in s.reverse ==> s.reverse[k] == t.reverse[k]))
  }

  ghost predicate SameRequests(a: map<nat, Request>, b: map<nat, Request>, u: User, owner: map<ListenKey, User>) {
    && (forall id | id in a && About(a[id], u, owner) :: id in b && b[id] == a[id])
    && (forall id | id in b && About(b[id], u, owner) :: id in a && b[id] == a[id])
  }

  /** Two states agree on what concerns `u`: the entries of the user and of its keys, and the
      progress and answers of its requests. */
  ghost predicate SameFor(s: State, t: State, u: User, owner: map<ListenKey, User>) {
    SameEntries(s, t, u, owner) && SameRequests(s.requests, t.requests, u, owner)
  }

  predicate MintedBy(s: State, owner: map<ListenKey, User>) {
    forall k | k in s.minted :: k in owner && owner[k] == s.minted[k]
  }

  /** `t` is `s` without some requests that are not about `u`. */
  ghost predicate Linked(s: State, t: State, u: User, owner: map<ListenKey, User>) {
    && SameFor(s, t, u, owner) && Owned(s) && Owned(t) && MintedBy(s, owner)
    && (forall id | id in t.requests :: id in s.requests)
    && (forall k | k in t.minted :: k in s.minted && s.minted[k] == t.minted[k])
  }

  lemma {:induction false} MintedGrows(s: State, actions: seq<Action>, owner: map<ListenKey, User>)
    requires MintedBy(Run(s, actions), owner)
    ensures MintedBy(s, owner)
    decreases |actions|
  {
    if actions != [] {
      MintedGrows(Next(s, actions[0]), actions[1..], owner);
      assert forall k | k in s.minted :: k in Next(s, actions[0]).minted;
    }
  }

  /** The user on whose entries a command of `r` works, and to whom its keys belong. */
  predicate WorksFor(s: State, r: Request, v: User, owner: map<ListenKey, User>) {
    && (r.pc.SetForwardNx? || r.pc.SetReverse? || r.pc.UndoForward? || r.pc.ReadForward? ==> r.user == v)
    && (r.pc.ExpireForward? || r.pc.DelForward? ==> r.user == v)
    && (r.pc.SetReverse? ==> r.candidate in owner && owner[r.candidate] == v)
    && (r.pc.ExpireReverse? || r.pc.DelReverse? ==> r.pc.key in owner && owner[r.pc.key] == v)
    && (r.pc.ReadReverse? && r.op.Resolve? && r.op.key in s.reverse ==>
          r.op.key in owner && owner[r.op.key] == v && s.reverse[r.op.key].value == v)
  }

  /** Requests about `u` work for `u`, all others for someone else. */
  lemma {:induction false} WorksForOne(s: State, r: Request, u: User, owner: map<ListenKey, User>) returns (v: User)
    requires RequestOwned(s, r) && ReverseOwned(s) && MintedBy(s, owner)
    ensures WorksFor(s, r, v, owner)
    ensures About(r, u, owner) ==> v == u
    ensures !About(r, u, owner) ==> v != u || r.pc.Done? || (r.pc.ReadReverse? && !(r.op.Resolve? && r.op.key in s.reverse))
  {
    v := if r.op.Resolve? && r.op.key in owner then owner[r.op.key] else r.user;
    assert r.op.Resolve? && r.op.key in s.reverse ==> MintedFor(s, r.op.key, s.reverse[r.op.key].value);
  }

  lemma {:induction false} OwnForward(s: State, t: State, r: Request, ok: bool, u: User, owner: map<ListenKey, User>)
    requires SameEntries(s, t, u, owner) && WorksFor(s, r, u, owner)
    ensures
      var (a, b) := (ForwardAfter(s, r, ok), ForwardAfter(t, r, ok));
      (u in a <==> u in b) && (u in a ==> a[u] == b[u])
  {
  }

  lemma {:induction false} OwnReverse(s: State, t: State, r: Request, ok: bool, u: User, owner: map<ListenKey, User>,
                                      k: ListenKey)
    requires SameEntries(s, t, u, owner) && WorksFor(s, r, u, owner) && k in owner && owner[k] == u
    ensures
      var (a, b) := (ReverseAfter(s, r, ok), ReverseAfter(t, r, ok));
      (k in a <==> k in b) && (k in a ==> a[k] == b[k])
  {
  }

  lemma {:induction false} OwnProgress(s: State, t: State, r: Request, ok: bool, u: User, owner: map<ListenKey, User>)
    requires SameEntries(s, t, u, owner) && WorksFor(s, r, u, owner) && About(r, u, owner)
    ensures RequestAfter(s, r, ok) == RequestAfter(t, r, ok)
  {
  }

  lemma {:induction false} OwnEntries(s: State, t: State, r: Request, ok: bool, u: User, owner: map<ListenKey, User>)
    requires SameEntries(s, t, u, owner) && WorksFor(s, r, u, owner) && About(r, u, owner)
    ensures SameEntries(s.(forward := ForwardAfter(s, r, ok), reverse := ReverseAfter(s, r, ok)),
                        t.(forward := ForwardAfter(t, r, ok), reverse := ReverseAfter(t, r, ok)), u, owner)
    ensures RequestAfter(s, r, ok) == RequestAfter(t, r, ok)
  {
    hide WorksFor, ForwardAfter, ReverseAfter, RequestAfter;
    OwnForward(s, t, r, ok, u, owner);
    OwnProgress(s, t, r, ok, u, owner);
    forall k | k in owner && owner[k] == u
      ensures
        var (a, b) := (ReverseAfter(s, r, ok), ReverseAfter(t, r, ok));
        (k in a <==> k in b) && (k in a ==> a[k] == b[k])
    {
      OwnReverse(s, t, r, ok, u, owner, k);
    }
  }

  lemma {:induction false} OtherEntries(s: State, t: State, r: Request, ok: bool, v: User, u: User, owner: map<ListenKey, User>)
    requires SameEntries(s, t, u, owner) && WorksFor(s, r, v, owner) && (v != u || r.pc.Done? || r.pc.ReadReverse?)
    ensures SameEntries(s.(forward := ForwardAfter(s, r, ok), reverse := ReverseAfter(s, r, ok)), t, u, owner)
  {
  }

  /** A step never makes a request about someone else. */
  lemma {:induction false} StaysAbout(s: State, r: Request, ok: bool, u: User, owner: map<ListenKey, User>)
    ensures About(RequestAfter(s, r, ok), u, owner) <==> About(r, u, owner)
  {
  }

  lemma {:induction false} BothChange(a: map<nat, Request>, b: map<nat, Request>, id: nat, r: Request,
                                      u: User, owner: map<ListenKey, User>)
    requires SameRequests(a, b, u, owner)
    ensures SameRequests(a[id := r], b[id := r], u, owner)
  {
    hide About;
  }

  lemma {:induction false} OneChanges(a: map<nat, Request>, b: map<nat, Request>, id: nat, r: Request,
                                      u: User, owner: map<ListenKey, User>)
    requires SameRequests(a, b, u, owner) && !About(r, u, owner)
    requires id in a ==> !About(a[id], u, owner)
    requires id !in a ==> id !in b
    ensures SameRequests(a[id := r], b, u, owner)
  {
    hide About;
  }

  lemma {:induction false} EntriesOnly(s: State, t: State, x: State, y: State, u: User, owner: map<ListenKey, User>)
    requires SameEntries(s, t, u, owner)
    requires x.now == s.now && x.forward == s.forward && x.reverse == s.reverse
    requires y.now == t.now && y.forward == t.forward && y.reverse == t.reverse
    ensures SameEntries(x, y, u, owner)
  {
  }

  /** A command of a request about `u` has the same effect with and without the others. */
  lemma {:induction false} OwnCommand(s: State, t: State, id: nat, ok: bool, u: User, owner: map<ListenKey, User>)
    requires Linked(s, t, u, owner) && id in s.requests && About(s.requests[id], u, owner)
    ensures SameFor(Next(s, Step(id, ok)), Next(t, Step(id, ok)), u, owner)
  {
    var r := s.requests[id];
    assert RequestOwned(s, r);
    var _ := WorksForOne(s, r, u, owner);
    assert t.requests[id] == r;
    hide *;
    OwnEntries(s, t, r, ok, u, owner);
    CommandIs(s, id, ok);
    CommandIs(t, id, ok);
    EntriesOnly(s.(forward := ForwardAfter(s, r, ok), reverse := ReverseAfter(s, r, ok)),
                t.(forward := ForwardAfter(t, r, ok), reverse := ReverseAfter(t, r, ok)),
                Next(s, Step(id, ok)), Next(t, Step(id, ok)), u, owner);
    BothChange(s.requests, t.requests, id, RequestAfter(s, r, ok), u, owner);
    SameForIs(Next(s, Step(id, ok)), Next(t, Step(id, ok)), u, owner);
  }

  /** A command of any other request touches nothing that concerns `u`. */
  lemma {:induction false} OtherCommand(s: State, t: State, id: nat, ok: bool, u: User, owner: map<ListenKey, User>)
    requires Linked(s, t, u, owner) && id in s.requests && !About(s.requests[id], u, owner)
    ensures SameFor(Next(s, Step(id, ok)), t, u, owner)
  {
    var r := s.requests[id];
    assert RequestOwned(s, r);
    var v := WorksForOne(s, r, u, owner);
    hide *;
    OtherEntries(s, t, r, ok, v, u, owner);
    StaysAbout(s, r, ok, u, owner);
    CommandIs(s, id, ok);
    EntriesOnly(s.(forward := ForwardAfter(s, r, ok), reverse := ReverseAfter(s, r, ok)), t, Next(s, Step(id, ok)), t, u, owner);
    OneChanges(s.requests, t.requests, id, RequestAfter(s, r, ok), u, owner);
    SameForIs(Next(s, Step(id, ok)), t, u, owner);
  }

  lemma {:induction false} CommandIs(s: State, id: nat, ok: bool)
    requires id in s.requests
    ensures
      var (t, r) := (Next(s, Step(id, ok)), s.requests[id]);
      && t.now == s.now && t.forward == ForwardAfter(s, r, ok) && t.reverse == ReverseAfter(s, r, ok)
      && t.requests == s.requests[id := RequestAfter(s, r, ok)]
  {
  }

  lemma {:induction false} SameForIs(s: State, t: State, u: User, owner: map<ListenKey, User>)
    ensures SameFor(s, t, u, owner) <==> SameEntries(s, t, u, owner) && SameRequests(s.requests, t.requests, u, owner)
  {
  }

  lemma {:induction false} ArriveIs(s: State, a: Action)
    requires a.Arrive?
    ensures
      var t := Next(s, a);
      && t.now == s.now && t.forward == s.forward && t.reverse == s.reverse
      && (NewArrival(s, a) ==> t.requests == s.requests[a.id := Request(a.user, a.op, a.candidate, FirstPc(a.op))])
  {
  }

  lemma {:induction false} LinkedArrive(s: State, t: State, a: Action, u: User, owner: map<ListenKey, User>)
    requires Linked(s, t, u, owner) && a.Arrive? && NewArrival(s, a)
    ensures SameFor(Next(s, a), if Kept(s, a, u, owner) then Next(t, a) else t, u, owner)
  {
    var r := Request(a.user, a.op, a.candidate, FirstPc(a.op));
    assert NewArrival(t, a);
    assert Kept(s, a, u, owner) <==> About(r, u, owner);
    assert a.id !in s.requests && a.id !in t.requests;
    SameForIs(s, t, u, owner);
    hide *;
    ArriveIs(s, a);
    ArriveIs(t, a);
    if About(r, u, owner) {
      EntriesOnly(s, t, Next(s, a), Next(t, a), u, owner);
      BothChange(s.requests, t.requests, a.id, r, u, owner);
      SameForIs(Next(s, a), Next(t, a), u, owner);
    } else {
      EntriesOnly(s, t, Next(s, a), t, u, owner);
      OneChanges(s.requests, t.requests, a.id, r, u, owner);
      SameForIs(Next(s, a), t, u, owner);
    }
  }

  lemma {:induction false} LinkedTick(s: State, t: State, a: Action, u: User, owner: map<ListenKey, User>)
    requires Linked(s, t, u, owner) && a.Tick?
    ensures SameFor(Next(s, a), Next(t, a), u, owner)
  {
  }

  /** Requests and keys only come in by arrivals, so leaving some out leaves fewer. */
  lemma {:induction false} StillFewer(s: State, t: State, a: Action, both: bool)
    requires (forall id | id in t.requests :: id in s.requests)
    requires (forall k | k in t.minted :: k in s.minted && s.minted[k] == t.minted[k])
    requires NewArrival(s, a)
    ensures
      var (s', t') := (Next(s, a), if both then Next(t, a) else t);
      && (forall id | id in t'.requests :: id in s'.requests)
      && (forall k | k in t'.minted :: k in s'.minted && s'.minted[k] == t'.minted[k])
  {
  }

  lemma {:induction false} LinkedStep(s: State, t: State, a: Action, u: User, owner: map<ListenKey, User>)
    requires Linked(s, t, u, owner) && NewArrival(s, a) && MintedBy(Next(s, a), owner)
    ensures Linked(Next(s, a), if Kept(s, a, u, owner) then Next(t, a) else t, u, owner)
  {
    OwnedStep(s, a);
    OwnedStep(t, a);
    StillFewer(s, t, a, Kept(s, a, u, owner));
    match a {
      case Arrive(_, _, _, _) => LinkedArrive(s, t, a, u, owner);
      case Tick(_) => LinkedTick(s, t, a, u, owner);
      case Step(id, ok) =>
        if id !in s.requests {
          assert Next(s, a) == s;
        } else if About(s.requests[id], u, owner) {
          OwnCommand(s, t, id, ok, u, owner);
        } else {
          OtherCommand(s, t, id, ok, u, owner);
        }
    }
    hide Next, Owned, SameFor, MintedBy;
  }

  lemma {:induction false} LinkedRun(s: State, t: State, actions: seq<Action>, u: User, owner: map<ListenKey, User>)
    requires Linked(s, t, u, owner) && NewArrivals(s, actions) && MintedBy(Run(s, actions), owner)
    ensures SameFor(Run(s, actions), Run(t, OnlyAbout(s, actions, u, owner)), u, owner)
    decreases |actions|
  {
    if actions != [] {
      var (a, rest) := (actions[0], actions[1..]);
      var s' := Next(s, a);
      MintedGrows(s', rest, owner);
      LinkedStep(s, t, a, u, owner);
      var mine := OnlyAbout(s', rest, u, owner);
      if Kept(s, a, u, owner) {
        LinkedRun(s', Next(t, a), rest, u, owner);
        assert ([a] + mine)[1..] == mine;
      } else {
        LinkedRun(s', t, rest, u, owner);
        assert [] + mine == mine;
      }
    }
  }

  /** Commands of requests that are not about a user, interleaved anywhere, change neither the
      user's entries nor the answers to its requests nor to logins with its keys. */
  lemma {:induction false} UsersAreIndependent(s: State, actions: seq<Action>, u: User)
    requires Owned(s) && NewArrivals(s, actions)
    ensures
      var owner := Run(s, actions).minted;
      SameFor(Run(s, actions), Run(s, OnlyAbout(s, actions, u, owner)), u, owner)
  {
    MintedGrows(s, actions, Run(s, actions).minted);
    LinkedRun(s, s, actions, u, Run(s, actions).minted);
  }

  // ---- One request among others --------------------------------------------------------

  /** In this run only the steps `mine` are about `u`; anything else belongs to other users. */
  ghost predicate AmongOthers(s: State, actions: seq<Action>, u: User, mine: seq<Action>) {
    Owned(s) && NewArrivals(s, actions) && OnlyAbout(s, actions, u, Run(s, actions).minted) == mine
  }

  /** What `u` sees at the end of such a run is what its own steps do. */
  lemma {:induction false} OwnStepsDecide(s: State, actions: seq<Action>, u: User, mine: seq<Action>, id: nat)
    requires AmongOthers(s, actions, u, mine) && id in Run(s, mine).requests
    requires About(Run(s, mine).requests[id], u, Run(s, actions).minted)
    ensures
      var (t, own) := (Run(s, actions), Run(s, mine));
      && id in t.requests && t.requests[id] == own.requests[id]
      && (u in t.forward <==> u in own.forward) && (u in t.forward ==> t.forward[u] == own.forward[u])
      && (forall k | MintedFor(t, k, u) ::
            (k in t.reverse <==> k in own.reverse) && (k in t.reverse ==> t.reverse[k] == own.reverse[k]))
      && (forall k | k in t.reverse && t.reverse[k].value == u :: MintedFor(t, k, u))
      && (forall k | MintedFor(s, k, u) :: MintedFor(t, k, u))
  {
    UsersAreIndependent(s, actions, u);
    OwnedRun(s, actions);
    MintedGrows(s, actions, Run(s, actions).minted);
  }

  lemma {:induction false} RunTwo(s: State, a: Action, b: Action)
    ensures Run(s, [a, b]) == Next(Next(s, a), b)
  {
    assert [a, b][1..] == [b] && [b][1..] == [];
    assert Run(s, [a, b]) == Run(Next(s, a), [b]) == Run(Next(Next(s, a), b), []);
  }

  lemma {:induction false} RunThree(s: State, a: Action, b: Action, c: Action)
    ensures Run(s, [a, b, c]) == Next(Next(Next(s, a), b), c)
  {
    assert [a, b, c][1..] == [b, c];
    RunTwo(Next(s, a), b, c);
  }

  lemma {:induction false} RunFour(s: State, a: Action, b: Action, c: Action, d: Action)
    ensures Run(s, [a, b, c, d]) == Next(Next(Next(Next(s, a), b), c), d)
  {
    assert [a, b, c, d][1..] == [b, c, d];
    RunThree(Next(s, a), b, c, d);
  }

  /** A request comes in and its commands run, succeeding or failing as the flags say. No request
      has more than four; a finished one does nothing more. */
  function Whole(id: nat, user: User, op: Op, candidate: ListenKey, ok: seq<bool>): seq<Action>
    requires |ok| == 4
  {
    [Arrive(id, user, op, candidate), Step(id, ok[0]), Step(id, ok[1]), Step(id, ok[2]), Step(id, ok[3])]
  }

  lemma {:induction false} RunFive(s: State, a: Action, b: Action, c: Action, d: Action, e: Action)
    ensures Run(s, [a, b, c, d, e]) == Next(Next(Next(Next(Next(s, a), b), c), d), e)
  {
    assert [a, b, c, d, e][1..] == [b, c, d, e];
    RunFour(Next(s, a), b, c, d, e);
  }

  /** What one request works on. */
  datatype View = View(now: nat, forward: map<User, Entry<ListenKey>>, reverse: map<ListenKey, Entry<User>>, request: Request)

  function ViewOf(s: State, id: nat): View
    requires id in s.requests
  {
    View(s.now, s.forward, s.reverse, s.requests[id])
  }

  function Advance(v: View, ok: bool): View {
    var s := State(v.now, v.forward, v.reverse, map[], map[]);
    View(v.now, ForwardAfter(s, v.request, ok), ReverseAfter(s, v.request, ok), RequestAfter(s, v.request, ok))
  }

  lemma {:induction false} StepView(s: State, id: nat, ok: bool)
    requires id in s.requests
    ensures id in Next(s, Step(id, ok)).requests && ViewOf(Next(s, Step(id, ok)), id) == Advance(ViewOf(s, id), ok)
  {
  }

  /** A request that runs alone, from its arrival on. */
  function Alone(s: State, user: User, op: Op, candidate: ListenKey, ok: seq<bool>): View
    requires |ok| == 4
  {
    Advance(Advance(Advance(Advance(View(s.now, s.forward, s.reverse, Request(user, op, candidate, FirstPc(op))),
                                    ok[0]), ok[1]), ok[2]), ok[3])
  }

  lemma {:induction false} WholeIsAlone(s: State, id: nat, user: User, op: Op, candidate: ListenKey, ok: seq<bool>)
    requires |ok| == 4 && NewArrival(s, Arrive(id, user, op, candidate))
    ensures
      var t := Run(s, Whole(id, user, op, candidate, ok));
      id in t.requests && ViewOf(t, id) == Alone(s, user, op, candidate, ok)
  {
    RunFive(s, Arrive(id, user, op, candidate), Step(id, ok[0]), Step(id, ok[1]), Step(id, ok[2]), Step(id, ok[3]));
    ArriveIs(s, Arrive(id, user, op, candidate));
    hide Advance, Next, Run;
    var s0 := Next(s, Arrive(id, user, op, candidate));
    StepView(s0, id, ok[0]);
    var s1 := Next(s0, Step(id, ok[0]));
    StepView(s1, id, ok[1]);
    var s2 := Next(s1, Step(id, ok[1]));
    StepView(s2, id, ok[2]);
    StepView(Next(s2, Step(id, ok[2])), id, ok[3]);
  }

  function At<K, V>(m: map<K, Entry<V>>, k: K): Option<Entry<V>> {
    if k in m then Some(m[k]) else None
  }

  /** The end of the run as `u` sees it: the answer to request `id`, its forward entry, and the
      reverse entries of its keys. */
  ghost predicate Ends(t: State, id: nat, answer: Outcome, u: User, forward: Option<Entry<ListenKey>>,
                       reverse: map<ListenKey, Entry<User>>)
  {
    && id in t.requests && t.requests[id].pc == Done(answer) && At(t.forward, u) == forward
    && (forall k | MintedFor(t, k, u) :: At(t.reverse, k) == At(reverse, k))
    && (forall k | k in t.reverse && t.reverse[k].value == u :: MintedFor(t, k, u))
  }

  /** A whole request among others ends as it would alone. */
  lemma {:induction false} EndsAlone(s: State, actions: seq<Action>, id: nat, caller: User, op: Op, c: ListenKey,
                                     ok: seq<bool>, u: User)
    requires |ok| == 4 && NewArrival(s, Arrive(id, caller, op, c))
    requires AmongOthers(s, actions, u, Whole(id, caller, op, c, ok))
    requires About(Alone(s, caller, op, c, ok).request, u, Run(s, actions).minted)
    requires Alone(s, caller, op, c, ok).request.pc.Done?
    ensures
      var own := Alone(s, caller, op, c, ok);
      Ends(Run(s, actions), id, own.request.pc.outcome, u, At(own.forward, u), own.reverse)
  {
    hide Alone, Run, Whole, AmongOthers, About;
    WholeIsAlone(s, id, caller, op, c, ok);
    OwnStepsDecide(s, actions, u, Whole(id, caller, op, c, ok), id);
  }

  lemma {:induction false} PostAlone(s: State, u: User, c: ListenKey, ok: seq<bool>)
    requires |ok| == 4
    ensures
      var (own, end) := (At(s.forward, u), Alone(s, u, Post, c, ok));
      && end.request == Request(u, Post, c, Done(
           if !ok[0] || !ok[1] then Failed else if own.None? then KeyIssued(c) else KeyIssued(own.value.value)))
      && (!ok[0] ==> At(end.forward, u) == own && end.reverse == s.reverse)
      && (ok[0] && own.None? && ok[1] ==>
            At(end.forward, u) == Some(Entry(c, s.now + 3600)) && end.reverse == s.reverse[c := Entry(u, s.now + 3600)])
      && (ok[0] && own.None? && !ok[1] ==>
            At(end.forward, u) == (if ok[2] then None else Some(Entry(c, s.now + 3600))) && end.reverse == s.reverse)
      && (ok[0] && own.Some? && !ok[1] ==> At(end.forward, u) == own && end.reverse == s.reverse)
      && (ok[0] && own.Some? && ok[1] ==>
            var k := own.value.value;
            && At(end.forward, u) == (if ok[3] then Some(Entry(k, s.now + 3600)) else own)
            && end.reverse ==
               if ok[2] && k in s.reverse then s.reverse[k := Entry(s.reverse[k].value, s.now + 3600)] else s.reverse)
  {
  }

  lemma {:induction false} PutAlone(s: State, u: User, ok: seq<bool>)
    requires |ok| == 4
    ensures
      var (own, end) := (At(s.forward, u), Alone(s, u, Put, "", ok));
      && end.request == Request(u, Put, "", Done(
           if !ok[0] then Failed else if own.None? then NotFound else KeyIssued(own.value.value)))
      && (!ok[0] || own.None? ==> At(end.forward, u) == own && end.reverse == s.reverse)
      && (ok[0] && own.Some? ==>
            var k := own.value.value;
            && At(end.forward, u) == (if ok[2] then Some(Entry(k, s.now + 3600)) else own)
            && end.reverse ==
               if ok[1] && k in s.reverse then s.reverse[k := Entry(s.reverse[k].value, s.now + 3600)] else s.reverse)
  {
  }

  lemma {:induction false} DeleteAlone(s: State, u: User, ok: seq<bool>)
    requires |ok| == 4
    ensures
      var (own, end) := (At(s.forward, u), Alone(s, u, Delete, "", ok));
      && end.request == Request(u, Delete, "", Done(if !ok[0] then Failed else Deleted))
      && (!ok[0] || own.None? ==> At(end.forward, u) == own && end.reverse == s.reverse)
      && (ok[0] && own.Some? ==>
            && At(end.forward, u) == (if ok[2] then None else own)
            && end.reverse == if ok[1] then s.reverse - {own.value.value} else s.reverse)
  {
  }

  lemma {:induction false} LoginAlone(s: State, caller: User, k: ListenKey, ok: seq<bool>)
    requires |ok| == 4
    ensures
      var (found, end) := (ok[0] && k in s.reverse, Alone(s, caller, Resolve(k), "", ok));
      && end.request.op == Resolve(k)
      && (!found ==> end.request.pc == Done(NotFound) && end.forward == s.forward && end.reverse == s.reverse)
      && (found ==>
            var u := s.reverse[k].value;
            && end.request.pc == Done(Address(u))
            && At(end.forward, u) ==
               (if ok[2] && u in s.forward then Some(Entry(s.forward[u].value, s.now + 3600)) else At(s.forward, u))
            && end.reverse == if ok[1] then s.reverse[k := Entry(u, s.now + 3600)] else s.reverse)
  {
  }

  /** A POST, whatever of it fails and whatever other users do meanwhile.  With no forward entry it
      claims one and publishes the candidate; if that fails it takes the claim back, if it can.
      Otherwise it returns the key of the entry and renews what it can.  A failed SET NX or GET is an
      error and changes nothing. */
  lemma {:induction false} PostAmongOthers(s: State, actions: seq<Action>, id: nat, u: User, c: ListenKey, ok: seq<bool>)
    requires |ok| == 4 && id !in s.requests && c !in s.minted && AmongOthers(s, actions, u, Whole(id, u, Post, c, ok))
    ensures
      var (t, own) := (Run(s, actions), At(s.forward, u));
      && (!ok[0] ==> Ends(t, id, Failed, u, own, s.reverse))
      && (ok[0] && own.None? && ok[1] ==>
            Ends(t, id, KeyIssued(c), u, Some(Entry(c, s.now + 3600)), s.reverse[c := Entry(u, s.now + 3600)]))
      && (ok[0] && own.None? && !ok[1] ==> Ends(t, id, Failed, u, if ok[2] then None else Some(Entry(c, s.now + 3600)), s.reverse))
      && (ok[0] && own.Some? && !ok[1] ==> Ends(t, id, Failed, u, own, s.reverse))
      && (ok[0] && own.Some? && ok[1] ==>
            var k := own.value.value;
            Ends(t, id, KeyIssued(k), u, if ok[3] then Some(Entry(k, s.now + 3600)) else own,
                 if ok[2] && k in s.reverse then s.reverse[k := Entry(s.reverse[k].value, s.now + 3600)] else s.reverse))
  {
    PostAlone(s, u, c, ok);
    hide Alone, AmongOthers, Ends;
    EndsAlone(s, actions, id, u, Post, c, ok, u);
  }

  /** A PUT: an error if its GET fails, otherwise the key of the caller's entry, with what can be
      renewed renewed, or the answer that there is none. */
  lemma {:induction false} PutAmongOthers(s: State, actions: seq<Action>, id: nat, u: User, ok: seq<bool>)
    requires |ok| == 4 && id !in s.requests && AmongOthers(s, actions, u, Whole(id, u, Put, "", ok))
    ensures
      var (t, own) := (Run(s, actions), At(s.forward, u));
      && (!ok[0] ==> Ends(t, id, Failed, u, own, s.reverse))
      && (ok[0] && own.None? ==> Ends(t, id, NotFound, u, None, s.reverse))
      && (ok[0] && own.Some? ==>
            var k := own.value.value;
            Ends(t, id, KeyIssued(k), u, if ok[2] then Some(Entry(k, s.now + 3600)) else own,
                 if ok[1] && k in s.reverse then s.reverse[k := Entry(s.reverse[k].value, s.now + 3600)] else s.reverse))
  {
    PutAlone(s, u, ok);
    hide Alone, AmongOthers, Ends;
    EndsAlone(s, actions, id, u, Put, "", ok, u);
  }

  /** A DELETE: an error if its GET fails, otherwise success; it removes the key and the entry, each
      unless that command fails. */
  lemma {:induction false} DeleteAmongOthers(s: State, actions: seq<Action>, id: nat, u: User, ok: seq<bool>)
    requires |ok| == 4 && id !in s.requests && AmongOthers(s, actions, u, Whole(id, u, Delete, "", ok))
    ensures
      var (t, own) := (Run(s, actions), At(s.forward, u));
      && (!ok[0] ==> Ends(t, id, Failed, u, own, s.reverse))
      && (ok[0] && own.None? ==> Ends(t, id, Deleted, u, None, s.reverse))
      && (ok[0] && own.Some? ==>
            Ends(t, id, Deleted, u, if ok[2] then None else own, if ok[1] then s.reverse - {own.value.value} else s.reverse))
  {
    DeleteAlone(s, u, ok);
    hide Alone, AmongOthers, Ends;
    EndsAlone(s, actions, id, u, Delete, "", ok, u);
  }

  /** A login with a key of `u`, sent by anyone: the address if the key is live and can be read, with
      what can be renewed renewed, and otherwise a refusal. */
  lemma {:induction false} LoginAmongOthers(s: State, actions: seq<Action>, id: nat, caller: User, k: ListenKey, u: User,
                                            ok: seq<bool>)
    requires |ok| == 4 && id !in s.requests && MintedFor(s, k, u)
    requires AmongOthers(s, actions, u, Whole(id, caller, Resolve(k), "", ok))
    ensures
      var (t, own) := (Run(s, actions), At(s.forward, u));
      && (!ok[0] || k !in s.reverse ==> Ends(t, id, NotFound, u, own, s.reverse))
      && (ok[0] && k in s.reverse ==>
            Ends(t, id, Address(u), u, if ok[2] && own.Some? then Some(Entry(own.value.value, s.now + 3600)) else own,
                 if ok[1] then s.reverse[k := Entry(u, s.now + 3600)] else s.reverse))
  {
    assert k in s.reverse ==> MintedFor(s, k, s.reverse[k].value);
    MintedGrows(s, actions, Run(s, actions).minted);
    LoginAlone(s, caller, k, ok);
    hide Alone, AmongOthers, Ends;
    EndsAlone(s, actions, id, caller, Resolve(k), "", ok, u);
  }

  /** From a mirrored state a DELETE without failures leaves its caller without any live key. */
  lemma {:induction false} DeleteRevokes(s: State, actions: seq<Action>, id: nat, u: User, ok: seq<bool>)
    requires Mirrored(s) && |ok| == 4 && ok[0] && ok[1] && ok[2] && id !in s.requests
    requires AmongOthers(s, actions, u, Whole(id, u, Delete, "", ok))
    ensures
      var t := Run(s, actions);
      && id in t.requests && t.requests[id].pc == Done(Deleted) && u !in t.forward
      && forall k | k in t.reverse :: t.reverse[k].value != u
  {
    DeleteAmongOthers(s, actions, id, u, ok);
    var t := Run(s, actions);
    OwnedRun(s, actions);
    MintedGrows(s, actions, t.minted);
    hide Run, AmongOthers, Next;
    assert forall k | k in s.reverse :: MintedFor(s, k, s.reverse[k].value);
    assert forall k | MintedFor(t, k, u) :: At(t.reverse, k).None?;
  }

  // ---- Exactly when the one-key rule breaks --------------------------------------------

  /** `a` drops a user's forward entry and leaves the key it names live. */
  ghost predicate DropsForwardOnly(s: State, a: Action) {
    match a
    case Step(id, ok) =>
      && id in s.requests && ok && (s.requests[id].pc.UndoForward? || s.requests[id].pc.DelForward?)
      && var u := s.requests[id].user;
         u in s.forward && s.forward[u].value in s.reverse && s.reverse[s.forward[u].value].value == u
    case Tick(d) =>
      exists u | u in s.forward && s.forward[u].deadline <= s.now + d ::
        var k := s.forward[u].value;
        k in s.reverse && s.reverse[k].value == u && s.now + d < s.reverse[k].deadline
    case _ => false
  }

  /** `a` makes a POST's key live after its claim of the forward map was lost. */
  predicate LatePublish(s: State, a: Action) {
    a.Step? && a.id in s.requests && a.ok && s.requests[a.id].pc.SetReverse? &&
    var r := s.requests[a.id];
    !(r.user in s.forward && s.forward[r.user].value == r.candidate)
  }

  lemma {:induction false} MirrorTick(s: State, a: Action)
    requires Mirrored(s) && a.Tick?
    ensures !Mirrored(Next(s, a)) <==> DropsForwardOnly(s, a)
  {
    var t := Next(s, a);
    if DropsForwardOnly(s, a) {
      var u :| u in s.forward && s.forward[u].deadline <= s.now + a.seconds && s.forward[u].value in s.reverse
               && s.reverse[s.forward[u].value].value == u && s.now + a.seconds < s.reverse[s.forward[u].value].deadline;
      assert s.forward[u].value in t.reverse && u !in t.forward;
    }
  }

  lemma {:induction false} MirrorCommand(s: State, a: Action)
    requires Mirrored(s) && a.Step? && a.id in s.requests
    ensures !Mirrored(Next(s, a)) <==> DropsForwardOnly(s, a) || LatePublish(s, a)
  {
    var (t, r) := (Next(s, a), s.requests[a.id]);
    if DropsForwardOnly(s, a) {
      assert s.forward[r.user].value in t.reverse && r.user !in t.forward;
    } else if LatePublish(s, a) {
      assert r.candidate in t.reverse && t.reverse[r.candidate].value == r.user;
    }
  }

  /** From a mirrored state a step leaves a live key that its owner's forward entry does not name
      exactly in these two ways. The owner may still have only that one live key. */
  lemma {:induction false} MirrorBrokenIff(s: State, a: Action)
    requires Mirrored(s)
    ensures !Mirrored(Next(s, a)) <==> DropsForwardOnly(s, a) || LatePublish(s, a)
  {
    if a.Tick? {
      MirrorTick(s, a);
    } else if a.Step? && a.id in s.requests {
      MirrorCommand(s, a);
    }
  }

  /** No user has two live keys. */
  ghost predicate OneLive(s: State) {
    forall k, l | k in s.reverse && l in s.reverse && s.reverse[k].value == s.reverse[l].value :: k == l
  }

  /** `a` makes a POST's key live while its user has another live key. */
  ghost predicate PublishesSecond(s: State, a: Action) {
    a.Step? && a.id in s.requests && a.ok && s.requests[a.id].pc.SetReverse? &&
    exists k | k in s.reverse && k != s.requests[a.id].candidate :: s.reverse[k].value == s.requests[a.id].user
  }

  /** One step breaks "exactly one listenKey per user" exactly in this way. */
  lemma {:induction false} SecondKeyIff(s: State, a: Action)
    requires OneLive(s)
    ensures !OneLive(Next(s, a)) <==> PublishesSecond(s, a)
  {
    var t := Next(s, a);
    if PublishesSecond(s, a) {
      var r := s.requests[a.id];
      var k :| k in s.reverse && k != r.candidate && s.reverse[k].value == r.user;
      assert k in t.reverse && r.candidate in t.reverse && t.reverse[k].value == t.reverse[r.candidate].value;
    }
  }

  lemma {:induction false} RunConcat(s: State, a: seq<Action>, b: seq<Action>)
    ensures Run(s, a + b) == Run(Run(s, a), b)
    decreases |a|
  {
    if a == [] {
      assert a + b == b;
    } else {
      assert (a + b)[1..] == a[1..] + b;
      RunConcat(Next(s, a[0]), a[1..], b);
    }
  }

  lemma {:induction false} RunSnoc(s: State, actions: seq<Action>, n: nat)
    requires n < |actions|
    ensures Run(s, actions[..n + 1]) == Next(Run(s, actions[..n]), actions[n])
  {
    assert actions[..n + 1] == actions[..n] + [actions[n]];
    RunConcat(s, actions[..n], [actions[n]]);
    assert [actions[n]][1..] == [];
    assert Run(Run(s, actions[..n]), [actions[n]]) == Run(Next(Run(s, actions[..n]), actions[n]), []);
  }

  lemma {:induction false} OneLiveUpTo(actions: seq<Action>, n: nat)
    requires n <= |actions| && forall m | 0 <= m < n :: !PublishesSecond(Run(EMPTY, actions[..m]), actions[m])
    ensures OneLive(Run(EMPTY, actions[..n]))
  {
    if n == 0 {
      assert actions[..0] == [];
    } else {
      OneLiveUpTo(actions, n - 1);
      RunSnoc(EMPTY, actions, n - 1);
      SecondKeyIff(Run(EMPTY, actions[..n - 1]), actions[n - 1]);
    }
  }

  /** In every run, with DELETE, expiry and failures: no user ever has two live keys exactly if no
      step publishes a key whose user has another one. */
  lemma {:induction false} OneLiveRunIff(actions: seq<Action>)
    ensures (forall n | 0 <= n <= |actions| :: OneLive(Run(EMPTY, actions[..n])))
       <==> (forall n | 0 <= n < |actions| :: !PublishesSecond(Run(EMPTY, actions[..n]), actions[n]))
  {
    if forall n | 0 <= n <= |actions| :: OneLive(Run(EMPTY, actions[..n])) {
      forall n | 0 <= n < |actions|
        ensures !PublishesSecond(Run(EMPTY, actions[..n]), actions[n])
      {
        RunSnoc(EMPTY, actions, n);
        SecondKeyIff(Run(EMPTY, actions[..n]), actions[n]);
        assert OneLive(Run(EMPTY, actions[..n + 1]));
      }
    }
    if forall n | 0 <= n < |actions| :: !PublishesSecond(Run(EMPTY, actions[..n]), actions[n]) {
      forall n | 0 <= n <= |actions|
        ensures OneLive(Run(EMPTY, actions[..n]))
      {
        OneLiveUpTo(actions, n);
      }
    }
  }

  ghost predicate BreaksMirror(s: State, a: Action) {
    DropsForwardOnly(s, a) || LatePublish(s, a)
  }

  lemma {:induction false} MirroredUpTo(actions: seq<Action>, n: nat)
    requires n <= |actions| && forall m | 0 <= m < n :: !BreaksMirror(Run(EMPTY, actions[..m]), actions[m])
    ensures Mirrored(Run(EMPTY, actions[..n]))
  {
    if n == 0 {
      assert actions[..0] == [];
    } else {
      MirroredUpTo(actions, n - 1);
      RunSnoc(EMPTY, actions, n - 1);
      assert !BreaksMirror(Run(EMPTY, actions[..n - 1]), actions[n - 1]);
      MirrorBrokenIff(Run(EMPTY, actions[..n - 1]), actions[n - 1]);
    }
  }

  /** A second key goes back to a forward entry that was dropped while its key stayed live, or to
      a key published after its claim was lost, at this step or earlier. */
  lemma {:induction false} SecondKeyCause(actions: seq<Action>, n: nat)
    requires n < |actions| && PublishesSecond(Run(EMPTY, actions[..n]), actions[n])
    ensures exists m | 0 <= m <= n :: BreaksMirror(Run(EMPTY, actions[..m]), actions[m])
  {
    if forall m | 0 <= m < n :: !BreaksMirror(Run(EMPTY, actions[..m]), actions[m]) {
      MirroredUpTo(actions, n);
      assert LatePublish(Run(EMPTY, actions[..n]), actions[n]);
      assert BreaksMirror(Run(EMPTY, actions[..n]), actions[n]);
    }
  }

  /** No step of the run takes the forward entry of `u` away. */
  predicate ForwardKept(s: State, actions: seq<Action>, u: User)
    decreases |actions|
  {
    actions != [] ==>
      && (u in s.forward ==> u in Next(s, actions[0]).forward)
      && ForwardKept(Next(s, actions[0]), actions[1..], u)
  }

  /** All that `u` published or is about to publish is what its forward entry names. */
  ghost predicate Settled(s: State, u: User) {
    && (forall k | k in s.reverse && s.reverse[k].value == u :: u in s.forward && s.forward[u].value == k)
    && (forall id | id in s.requests && s.requests[id].user == u && s.requests[id].pc.SetReverse? ::
          u in s.forward && s.forward[u].value == s.requests[id].candidate)
  }

  lemma {:induction false} SettledCommand(s: State, id: nat, ok: bool, u: User)
    requires Settled(s, u) && id in s.requests && (u in s.forward ==> u in Command(s, id, ok).forward)
    ensures Settled(Command(s, id, ok), u)
  {
  }

  lemma {:induction false} SettledRun(s: State, actions: seq<Action>, u: User)
    requires Settled(s, u) && ForwardKept(s, actions, u)
    ensures Settled(Run(s, actions), u)
    decreases |actions|
  {
    if actions != [] {
      var a := actions[0];
      if a.Step? && a.id in s.requests { SettledCommand(s, a.id, a.ok, u); }
      assert Settled(Next(s, a), u);
      SettledRun(Next(s, a), actions[1..], u);
    }
  }

  /** Whatever else happens, a user whose forward entry is never taken away, by its own DELETE, an
      undone POST or expiry, has at most one live key. */
  lemma {:induction false} KeptEntryOneKey(actions: seq<Action>, u: User, k: ListenKey, l: ListenKey)
    requires ForwardKept(EMPTY, actions, u)
    ensures
      var live := Run(EMPTY, actions).reverse;
      k in live && l in live && live[k].value == u == live[l].value ==> k == l
  {
    SettledRun(EMPTY, actions, u);
  }

  /** The two writes of a POST happen `d` seconds apart; the forward entry expires while the key is
      still live, and a second POST mints another. */
  function ExpiryRun(u: User, k1: ListenKey, k2: ListenKey, d: nat): seq<Action>
    requires d < TTL
  {
    [Arrive(1, u, Post, k1), Step(1, true), Tick(d), Step(1, true)]
    + [Tick(TTL - d), Arrive(2, u, Post, k2), Step(2, true), Step(2, true)]
  }

  lemma {:induction false} ExpiryFirst(u: User, k1: ListenKey, d: nat)
    requires d < TTL
    ensures
      var s := Run(EMPTY, [Arrive(1, u, Post, k1), Step(1, true), Tick(d), Step(1, true)]);
      && s.now == d && s.forward == map[u := Entry(k1, TTL)] && s.reverse == map[k1 := Entry(u, d + TTL)]
      && s.requests.Keys == {1} && s.minted == map[k1 := u]
  {
    RunFour(EMPTY, Arrive(1, u, Post, k1), Step(1, true), Tick(d), Step(1, true));
    var s1 := Next(EMPTY, Arrive(1, u, Post, k1));
    assert s1.requests == map[1 := Request(u, Post, k1, SetForwardNx)];
    var s2 := Next(s1, Step(1, true));
    assert s2.requests == map[1 := Request(u, Post, k1, SetReverse)] && s2.forward == map[u := Entry(k1, TTL)];
    var s3 := Next(s2, Tick(d));
    assert s3.forward == s2.forward && s3.requests == s2.requests;
  }

  lemma {:induction false} ExpirySecond(s: State, u: User, k1: ListenKey, k2: ListenKey, d: nat)
    requires 0 < d < TTL && k1 != k2
    requires s.now == d && s.forward == map[u := Entry(k1, TTL)] && s.reverse == map[k1 := Entry(u, d + TTL)]
    requires s.requests.Keys == {1} && s.minted == map[k1 := u]
    ensures
      var live := Run(s, [Tick(TTL - d), Arrive(2, u, Post, k2), Step(2, true), Step(2, true)]).reverse;
      k1 in live && k2 in live && live[k1].value == u == live[k2].value
  {
    RunFour(s, Tick(TTL - d), Arrive(2, u, Post, k2), Step(2, true), Step(2, true));
    var s1 := Next(s, Tick(TTL - d));
    assert s1.forward == map[] && s1.reverse == s.reverse;
    var s2 := Next(s1, Arrive(2, u, Post, k2));
    assert 2 !in s.requests.Keys && s2.requests[2] == Request(u, Post, k2, SetForwardNx);
    var s3 := Next(s2, Step(2, true));
    assert s3.requests[2] == Request(u, Post, k2, SetReverse);
  }

  /** Expiry alone, with no DELETE and no failure, also gives a user two live keys. */
  lemma {:induction false} ExpiryAllowsTwoKeys(u: User, k1: ListenKey, k2: ListenKey, d: nat)
    requires 0 < d < TTL && k1 != k2
    ensures NoDelete(ExpiryRun(u, k1, k2, d)) && NoFailures(ExpiryRun(u, k1, k2, d))
    ensures !OneLive(Run(EMPTY, ExpiryRun(u, k1, k2, d)))
  {
    var first := [Arrive(1, u, Post, k1), Step(1, true), Tick(d), Step(1, true)];
    var second := [Tick(TTL - d), Arrive(2, u, Post, k2), Step(2, true), Step(2, true)];
    ExpiryFirst(u, k1, d);
    ExpirySecond(Run(EMPTY, first), u, k1, k2, d);
    RunConcat(EMPTY, first, second);
  }

  /** POST 1 claims, a DELETE removes the claim, POST 3 claims and publishes, POST 1 publishes. */
  const TWO_KEYS_RUN: seq<Action> :=
    [Arrive(1, "0xa", Post, "k1"), Step(1, true), Arrive(2, "0xa", Delete, ""), Step(2, true)]
    + [Step(2, true), Step(2, true), Arrive(3, "0xa", Post, "k2"), Step(3, true)]
    + [Step(3, true), Step(1, true), Tick(0), Tick(0)]

  lemma {:induction false} RaceClaim()
    ensures
      var s := Run(EMPTY, TWO_KEYS_RUN[..4]);
      && s.requests == map[1 := Request("0xa", Post, "k1", SetReverse), 2 := Request("0xa", Delete, "", DelReverse("k1"))]
      && s.reverse == map[] && s.minted == map["k1" := "0xa"] && s.now == 0
  {
    var r := TWO_KEYS_RUN;
    assert r[..4] == [r[0], r[1], r[2], r[3]];
    RunFour(EMPTY, r[0], r[1], r[2], r[3]);
    var s1 := Next(EMPTY, r[0]);
    assert s1.requests == map[1 := Request("0xa", Post, "k1", SetForwardNx)];
    var s2 := Next(s1, r[1]);
    assert s2.requests == map[1 := Request("0xa", Post, "k1", SetReverse)] && s2.forward == map["0xa" := Entry("k1", TTL)];
  }

  lemma {:induction false} RaceReclaim(s: State)
    requires s.requests == map[1 := Request("0xa", Post, "k1", SetReverse), 2 := Request("0xa", Delete, "", DelReverse("k1"))]
    requires s.reverse == map[] && s.minted == map["k1" := "0xa"]
    ensures
      var t := Run(s, TWO_KEYS_RUN[4..8]);
      && 1 in t.requests && t.requests[1] == s.requests[1]
      && 3 in t.requests && t.requests[3] == Request("0xa", Post, "k2", SetReverse)
  {
    var r := TWO_KEYS_RUN;
    assert r[4..8] == [r[4], r[5], r[6], r[7]];
    RunFour(s, r[4], r[5], r[6], r[7]);
    var t := Next(Next(s, r[4]), r[5]);
    assert t.requests == map[1 := s.requests[1], 2 := Request("0xa", Delete, "", Done(Deleted))];
    assert "0xa" !in t.forward && t.minted == s.minted && "k2"[1] != "k1"[1];
    assert Next(t, r[6]).requests[3] == Request("0xa", Post, "k2", SetForwardNx);
  }

  lemma {:induction false} RacePublish(s: State)
    requires 1 in s.requests && s.requests[1] == Request("0xa", Post, "k1", SetReverse)
    requires 3 in s.requests && s.requests[3] == Request("0xa", Post, "k2", SetReverse)
    ensures
      var live := Run(s, TWO_KEYS_RUN[8..]).reverse;
      "k1" in live && "k2" in live && live["k1"].value == "0xa" == live["k2"].value
  {
    var r := TWO_KEYS_RUN;
    assert r[8..] == [r[8], r[9], r[10], r[11]];
    RunFour(s, r[8], r[9], r[10], r[11]);
    var t := Next(Next(s, r[8]), r[9]);
    assert t.reverse == s.reverse["k2" := Entry("0xa", s.now + TTL)]["k1" := Entry("0xa", s.now + TTL)];
    assert "k2"[1] != "k1"[1];
  }

  /** The rule does fail with DELETE: it removes a claim between a POST's two writes, a second
      POST claims again, and both keys end up live. */
  lemma {:induction false} DeleteAllowsTwoKeys()
    ensures
      var live := Run(EMPTY, TWO_KEYS_RUN).reverse;
      "k1" in live && "k2" in live && live["k1"].value == "0xa" == live["k2"].value
  {
    var r := TWO_KEYS_RUN;
    RaceClaim();
    RaceReclaim(Run(EMPTY, r[..4]));
    RunConcat(EMPTY, r[..4], r[4..8]);
    RacePublish(Run(EMPTY, r[..4] + r[4..8]));
    RunConcat(EMPTY, r[..4] + r[4..8], r[8..]);
    assert r == r[..4] + r[4..8] + r[8..];
  }

  // ---- What answers tell ---------------------------------------------------------------

  /** At this moment or earlier in the run, the user's forward entry held the key. */
  ghost predicate Held(actions: seq<Action>, u: User, k: ListenKey) {
    exists m | 0 <= m <= |actions| ::
      var s := Run(EMPTY, actions[..m]); u in s.forward && s.forward[u].value == k
  }

  /** At this moment or earlier in the run, the key was live and stood for the user. */
  ghost predicate WasLive(actions: seq<Action>, k: ListenKey, u: User) {
    exists m | 0 <= m <= |actions| ::
      var s := Run(EMPTY, actions[..m]); k in s.reverse && s.reverse[k].value == u
  }

  /** What a request read or wrote accounts for where it stands. */
  ghost predicate Accounted(actions: seq<Action>, r: Request) {
    if r.op.Resolve? then
      && (r.pc.ExpireReverse? || r.pc.ExpireForward? ==> WasLive(actions, r.op.key, r.user))
      && (r.pc.Done? ==> r.pc.outcome == NotFound || (r.pc.outcome.Address? && WasLive(actions, r.op.key, r.pc.outcome.user)))
      && (r.pc.ReadReverse? || r.pc.ExpireReverse? || r.pc.ExpireForward? || r.pc.Done?)
    else
      && (r.pc.SetReverse? ==> Held(actions, r.user, r.candidate))
      && (r.pc.ExpireReverse? || r.pc.ExpireForward? ==> Held(actions, r.user, r.pc.key) && r.op != Delete)
      && (r.pc.DelReverse? || r.pc.DelForward? ==> r.op == Delete)
      && (r.pc.SetReverse? || r.pc.SetForwardNx? || r.pc.UndoForward? ==> r.op == Post)
      && !r.pc.ReadReverse?
      && (r.pc.Done? ==>
            || r.pc.outcome == Failed
            || (r.pc.outcome == NotFound && r.op == Put)
            || (r.pc.outcome == Deleted && r.op == Delete)
            || (r.pc.outcome.KeyIssued? && r.op != Delete && Held(actions, r.user, r.pc.outcome.key)))
  }

  lemma {:induction false} HeldLater(actions: seq<Action>, a: Action, u: User, k: ListenKey)
    ensures Held(actions, u, k) ==> Held(actions + [a], u, k)
    ensures WasLive(actions, k, u) ==> WasLive(actions + [a], k, u)
  {
    assert forall m | 0 <= m <= |actions| :: (actions + [a])[..m] == actions[..m];
  }

  lemma {:induction false} HeldNow(actions: seq<Action>, u: User, k: ListenKey)
    ensures
      var s := Run(EMPTY, actions);
      && (u in s.forward && s.forward[u].value == k ==> Held(actions, u, k))
      && (k in s.reverse && s.reverse[k].value == u ==> WasLive(actions, k, u))
  {
    assert actions[..|actions|] == actions;
  }

  lemma {:induction false} AccountedLater(actions: seq<Action>, a: Action, r: Request)
    requires Accounted(actions, r)
    ensures Accounted(actions + [a], r)
  {
    hide Held, WasLive;
    HeldLater(actions, a, r.user, r.candidate);
    if r.pc.ExpireReverse? || r.pc.ExpireForward? { HeldLater(actions, a, r.user, r.pc.key); }
    if r.op.Resolve? { HeldLater(actions, a, r.user, r.op.key); }
    if r.pc.Done? && r.pc.outcome.KeyIssued? { HeldLater(actions, a, r.user, r.pc.outcome.key); }
    if r.op.Resolve? && r.pc.Done? && r.pc.outcome.Address? { HeldLater(actions, a, r.pc.outcome.user, r.op.key); }
  }

  /** A command that finds only what is accounted for leads to an accounted request. */
  lemma {:induction false} AccountedAfter(longer: seq<Action>, s: State, r: Request, ok: bool)
    requires Accounted(longer, r)
    requires r.user in s.forward ==> Held(longer, r.user, s.forward[r.user].value)
    requires r.op.Resolve? && r.op.key in s.reverse ==> WasLive(longer, r.op.key, s.reverse[r.op.key].value)
    requires r.pc.SetForwardNx? && ok && r.user !in s.forward ==> Held(longer, r.user, r.candidate)
    ensures Accounted(longer, RequestAfter(s, r, ok))
  {
    hide Held, WasLive;
  }

  lemma {:induction false} AccountedCommand(actions: seq<Action>, id: nat, ok: bool, r: Request)
    requires id in Run(EMPTY, actions).requests && Run(EMPTY, actions).requests[id] == r && Accounted(actions, r)
    ensures Accounted(actions + [Step(id, ok)], RequestAfter(Run(EMPTY, actions), r, ok))
  {
    var (s, longer) := (Run(EMPTY, actions), actions + [Step(id, ok)]);
    assert r.pc.SetForwardNx? && ok && r.user !in s.forward ==>
        r.user in ForwardAfter(s, r, ok) && ForwardAfter(s, r, ok)[r.user].value == r.candidate;
    hide *;
    AccountedLater(actions, Step(id, ok), r);
    RunConcat(EMPTY, actions, [Step(id, ok)]);
    RunSingle(s, Step(id, ok));
    CommandIs(s, id, ok);
    HeldNow(longer, r.user, r.candidate);
    if r.user in s.forward {
      HeldNow(actions, r.user, s.forward[r.user].value);
      HeldLater(actions, Step(id, ok), r.user, s.forward[r.user].value);
    }
    if r.op.Resolve? && r.op.key in s.reverse {
      HeldNow(actions, s.reverse[r.op.key].value, r.op.key);
      HeldLater(actions, Step(id, ok), s.reverse[r.op.key].value, r.op.key);
    }
    AccountedAfter(longer, s, r, ok);
  }

  lemma {:induction false} RunSingle(s: State, a: Action)
    ensures Run(s, [a]) == Next(s, a)
  {
    assert [a][1..] == [];
  }

  lemma {:induction false} AllAccounted(actions: seq<Action>, id: nat)
    requires id in Run(EMPTY, actions).requests
    ensures Accounted(actions, Run(EMPTY, actions).requests[id])
    decreases |actions|
  {
    if actions != [] {
      var (init, last) := (actions[..|actions| - 1], actions[|actions| - 1]);
      assert actions == init + [last];
      var s := Run(EMPTY, init);
      RunConcat(EMPTY, init, [last]);
      RunSingle(s, last);
      if id in s.requests {
        AllAccounted(init, id);
        AccountedLater(init, last, s.requests[id]);
        if last.Step? && last.id == id {
          AccountedCommand(init, id, last.ok, s.requests[id]);
          CommandIs(s, id, last.ok);
        }
      }
      hide Held, WasLive, Run, ForwardAfter, ReverseAfter, RequestAfter;
    }
  }

  /** In every run, whatever fails: a key is answered to a POST or PUT only if the caller's forward
      entry held it, and an address to a login only if its key was live and stood for that address,
      at that moment or earlier. No other request gets a key or an address. */
  lemma {:induction false} AnswersWereStored(actions: seq<Action>, id: nat)
    requires id in Run(EMPTY, actions).requests && Run(EMPTY, actions).requests[id].pc.Done?
    ensures
      var r := Run(EMPTY, actions).requests[id];
      && (r.pc.outcome.KeyIssued? ==> (r.op == Post || r.op == Put) && Held(actions, r.user, r.pc.outcome.key))
      && (r.pc.outcome.Address? ==> r.op.Resolve? && WasLive(actions, r.op.key, r.pc.outcome.user))
  {
    AllAccounted(actions, id);
    hide Held, WasLive, Run;
  }

  ghost predicate Unexpired(s: State) {
    && (forall u | u in s.forward :: s.now < s.forward[u].deadline <= s.now + 3600)
    && (forall k | k in s.reverse :: s.now < s.reverse[k].deadline <= s.now + 3600)
  }

  lemma {:induction false} UnexpiredCommand(s: State, r: Request, ok: bool)
    requires Unexpired(s)
    ensures Unexpired(s.(forward := ForwardAfter(s, r, ok), reverse := ReverseAfter(s, r, ok)))
  {
  }

  lemma {:induction false} UnexpiredStep(s: State, a: Action)
    requires Unexpired(s)
    ensures Unexpired(Next(s, a))
  {
    if a.Step? && a.id in s.requests {
      UnexpiredCommand(s, s.requests[a.id], a.ok);
      CommandIs(s, a.id, a.ok);
      hide Next, ForwardAfter, ReverseAfter;
    }
  }

  /** In every run, entries live at most 3600 seconds from now and none outlives its deadline. */
  lemma {:induction false} NothingOutlivesItsDeadline(s: State, actions: seq<Action>)
    requires Unexpired(s)
    ensures Unexpired(Run(s, actions))
    decreases |actions|
  {
    hide Unexpired, Next;
    if actions != [] {
      UnexpiredStep(s, actions[0]);
      NothingOutlivesItsDeadline(Next(s, actions[0]), actions[1..]);
    }
  }

  // ---- The handlers --------------------------------------------------------------------

  /** The Redis maps and the requests in flight, changed one command at a time. */
  class Server {
    var now: nat
    var forward: map<User, Entry<ListenKey>>
    var reverse: map<ListenKey, Entry<User>>
    var requests: map<nat, Request>
    ghost var minted: map<ListenKey, User>

    ghost function View(): State
      reads this
    {
      State(now, forward, reverse, requests, minted)
    }

    constructor ()
      ensures View() == EMPTY
    {
      now, forward, reverse, requests, minted := 0, map[], map[], map[], map[];
    }

    /** A request comes in; a POST draws `candidate` with its random generator. */
    method Accept(id: nat, user: User, op: Op, candidate: ListenKey)
      requires id !in requests && (op == Post ==> candidate !in minted)
      modifies this
      ensures View() == Next(old(View()), Arrive(id, user, op, candidate))
    {
      requests := requests[id := Request(user, op, candidate, FirstPc(op))];
      if op == Post {
        minted := minted[candidate := user];
      }
    }

    method Wait(seconds: nat)
      modifies this
      ensures View() == Next(old(View()), Tick(seconds))
    {
      now := now + seconds;
      forward := map u | u in forward && now < forward[u].deadline :: forward[u];
      reverse := map k | k in reverse && now < reverse[k].deadline :: reverse[k];
    }

    /** `SET forward[user] key NX EX ttl`. */
    method ClaimForward(user: User, key: ListenKey) returns (won: bool)
      modifies this`forward
      ensures won <==> user !in old(forward)
      ensures forward == if won then old(forward)[user := Entry(key, now + TTL)] else old(forward)
    {
      won := user !in forward;
      if won {
        forward := forward[user := Entry(key, now + TTL)];
      }
    }

    method RefreshForward(user: User)
      modifies this`forward
      ensures forward == Extend(old(forward), user, now)
    {
      if user in forward {
        forward := forward[user := Entry(forward[user].value, now + TTL)];
      }
    }

    method RefreshReverse(key: ListenKey)
      modifies this`reverse
      ensures reverse == Extend(old(reverse), key, now)
    {
      if key in reverse {
        reverse := reverse[key := Entry(reverse[key].value, now + TTL)];
      }
    }

    /** Runs the next command of request `id`; `ok` says whether Redis executed it. */
    method Handle(id: nat, ok: bool)
      requires id in requests
      modifies this
      ensures View() == Next(old(View()), Step(id, ok))
    {
      var r := requests[id];
      var pc := r.pc;
      match r.pc {
        case SetForwardNx =>
          pc := Done(Failed);
          if ok {
            var won := ClaimForward(r.user, r.candidate);
            pc := if won then SetReverse else ReadForward;
          }
        case SetReverse =>
          pc := UndoForward;
          if ok {
            reverse := reverse[r.candidate := Entry(r.user, now + TTL)];
            pc := Done(KeyIssued(r.candidate));
          }
        case UndoForward =>
          if ok { forward := forward - {r.user}; }
          pc := Done(Failed);
        case ReadForward =>
          if !ok {
            pc := Done(Failed);
          } else if r.user in forward {
            pc := if r.op == Delete then DelReverse(forward[r.user].value) else ExpireReverse(forward[r.user].value);
          } else {
            pc := Done(if r.op == Put then NotFound else if r.op == Delete then Deleted else Failed);
          }
        case ReadReverse =>
          if ok && r.op.Resolve? && r.op.key in reverse {
            r := r.(user := reverse[r.op.key].value);
            pc := ExpireReverse(r.op.key);
          } else {
            pc := Done(NotFound);
          }
        case ExpireReverse(k) =>
          if ok { RefreshReverse(k); }
          pc := ExpireForward(k);
        case ExpireForward(k) =>
          if ok { RefreshForward(r.user); }
          pc := Done(if r.op.Resolve? then Address(r.user) else KeyIssued(k));
        case DelReverse(k) =>
          if ok { reverse := reverse - {k}; }
          pc := DelForward(k);
        case DelForward(_) =>
          if ok { forward := forward - {r.user}; }
          pc := Done(Deleted);
        case Done(_) =>
      }
      requests := requests[id := r.(pc := pc)];
    }
  }
}
