/** The session of one WebSocket connection: who it is authenticated as and what it subscribed to.

    Client messages and private events are handled one at a time by the select loop.  Tokens,
    listenKeys and signatures are checked by an environment that may change between messages.
    Text is ASCII.  Snapshots sent by spawned tasks are not part of this model. */
module Session {
  import opened Wrappers

  const AUTH_WINDOW_SECS: nat := 300

  const PUBLIC_PREFIXES: seq<string> := [
    "trade:", "trades:", "orderbook:", "ticker:", "kline:", "candle:", "funding_rate:", "liquidation:", "adl:",
    "mark_price:", "index_price:", "spot:depth:", "spot:trade:", "spot:ticker:", "spot:kline:"]

  const PRIVATE_STATIC: seq<string> := [
    "positions", "orders", "balance", "unified_account", "points", "vip_tier", "spot:user:orders", "spot:user:balances"]

  const PRIVATE_PREFIXES: seq<string> := [
    "user_orders:", "user_trades:", "user_positions:", "user_balance:", "user_balances:", "user_account:", "private:"]

  datatype State = State(authenticated: bool, address: Option<string>, subscriptions: set<string>)

  const INITIAL: State := State(false, None, {})

  /** What the checks say at the moment of a message. */
  datatype Env = Env(resolve: string -> Option<string>, jwt: string -> Option<string>,
                     verify: (string, string, nat) -> Option<bool>, now: nat)

  datatype Message =
    | Auth(address: Option<string>, signature: Option<string>, timestamp: Option<nat>, token: Option<string>,
           listenKey: Option<string>)
    | AuthToken(jwtToken: string)
    | Subscribe(channel: string, subscribeToken: Option<string>)
    | Unsubscribe(left: string)
    | Other

  datatype Reply = AuthResult(success: bool) | Subscribed(channel: string) | Unsubscribed(channel: string)
                 | Error(code: string) | NoReply

  function LowerChar(c: char): char {
    if 'A' <= c <= 'Z' then c - 'A' + 'a' else c
  }

  function Lower(s: string): (t: string)
    ensures |t| == |s|
  {
    seq(|s|, i requires 0 <= i < |s| => LowerChar(s[i]))
  }

  predicate StartsWithAny(channel: string, prefixes: seq<string>) {
    exists p | p in prefixes :: p <= channel
  }

  predicate IsPublic(channel: string) {
    StartsWithAny(channel, PUBLIC_PREFIXES)
  }

  predicate IsPrivateStatic(channel: string) {
    channel in PRIVATE_STATIC
  }

  predicate IsPrivatePrefix(channel: string) {
    StartsWithAny(channel, PRIVATE_PREFIXES)
  }

  predicate IsPrivate(channel: string) {
    IsPrivateStatic(channel) || IsPrivatePrefix(channel)
  }

  predicate IsKnown(channel: string) {
    IsPublic(channel) || IsPrivate(channel)
  }

  /** What follows the first `:`. */
  function Suffix(channel: string): string {
    if channel == "" then "" else if channel[0] == ':' then channel[1..] else Suffix(channel[1..])
  }

  function LowerAddress(s: State): string {
    if s.address.Some? then Lower(s.address.value) else ""
  }

  function LogIn(s: State, address: string): State {
    s.(authenticated := true, address := Some(address))
  }

  function HandleAuth(s: State, m: Message, env: Env): (State, Reply)
    requires m.Auth?
  {
    if m.listenKey.Some? then
      match env.resolve(m.listenKey.value)
      case Some(a) => (LogIn(s, a), AuthResult(true))
      case None => (s, AuthResult(false))
    else if m.token.Some? then HandleToken(s, m.token.value, env)
    else if m.address.None? || m.signature.None? || m.timestamp.None? then (s, AuthResult(false))
    else if m.timestamp.value + AUTH_WINDOW_SECS < env.now || env.now + AUTH_WINDOW_SECS < m.timestamp.value then
      (s, AuthResult(false))
    else if env.verify(Lower(m.address.value), m.signature.value, m.timestamp.value) != Some(true) then (s, AuthResult(false))
    else (LogIn(s, Lower(m.address.value)), AuthResult(true))
  }

  function HandleToken(s: State, token: string, env: Env): (State, Reply) {
    match env.jwt(token)
    case Some(subject) => (LogIn(s, Lower(subject)), AuthResult(true))
    case None => (s, AuthResult(false))
  }

  /** A token sent along with a subscription is used only while not authenticated. */
  function AutoAuth(s: State, token: Option<string>, env: Env): State {
    if token.Some? && !s.authenticated && env.jwt(token.value).Some? then LogIn(s, Lower(env.jwt(token.value).value)) else s
  }

  function HandleSubscribe(s: State, channel: string, token: Option<string>, env: Env): (State, Reply) {
    var s := AutoAuth(s, token, env);
    if !IsKnown(channel) then (s, Error("INVALID_CHANNEL"))
    else if IsPrivate(channel) && !s.authenticated then (s, Error("AUTH_REQUIRED"))
    else if IsPrivatePrefix(channel) && Lower(Suffix(channel)) != LowerAddress(s) then (s, Error("FORBIDDEN"))
    else (s.(subscriptions := s.subscriptions + {channel}), Subscribed(channel))
  }

  function Handle(s: State, m: Message, env: Env): (State, Reply) {
    match m
    case Auth(_, _, _, _, _) => HandleAuth(s, m, env)
    case AuthToken(token) => HandleToken(s, token, env)
    case Subscribe(channel, token) => HandleSubscribe(s, channel, token, env)
    case Unsubscribe(channel) => (s.(subscriptions := s.subscriptions - {channel}), Unsubscribed(channel))
    case Other => (s, NoReply)
  }

  // ---- Private pushes ------------------------------------------------------------------

  /** Private arms of the select loop; `owner` is the account an event is about. */
  datatype Event =
    | Points(owner: string)
    | VipTier(owner: string)
    | UnifiedAccount(owner: string)
    | BalanceUpdate(owner: string)
    | OrderUpdate(owner: string)
    | SpotOrder(owner: string)
    | SpotBalance(owner: string)
    | PrivateTick

  datatype Frame = Frame(channel: string, owner: string)

  function EventChannel(e: Event): string {
    match e
    case Points(_) => "points"
    case VipTier(_) => "vip_tier"
    case UnifiedAccount(_) => "unified_account"
    case BalanceUpdate(_) => "balances"
    case OrderUpdate(_) => "orders"
    case SpotOrder(_) => "spot:user:orders"
    case SpotBalance(_) => "spot:user:balances"
    case PrivateTick => ""
  }

  /** Four arms compare the lower-cased session address with the event's as it stands; the
      balance and spot arms ignore case on both sides. */
  predicate Concerns(s: State, e: Event) {
    match e
    case PrivateTick => false
    case BalanceUpdate(o) => s.address.Some? && LowerAddress(s) == Lower(o)
    case SpotOrder(o) => s.address.Some? && LowerAddress(s) == Lower(o)
    case SpotBalance(o) => s.address.Some? && LowerAddress(s) == Lower(o)
    case _ => s.address.Some? && LowerAddress(s) == e.owner
  }

  /** Frames of an event or of a tick; a tick fetches data of the lower-cased session address. */
  function Push(s: State, e: Event): seq<Frame> {
    if !s.authenticated || s.address.None? then []
    else if e.PrivateTick? then
      (if "positions" in s.subscriptions then [Frame("positions", LowerAddress(s))] else [])
      + (if "balance" in s.subscriptions then [Frame("balance", LowerAddress(s))] else [])
      + (if "orders" in s.subscriptions then [Frame("orders", LowerAddress(s))] else [])
    else if Concerns(s, e) && EventChannel(e) in s.subscriptions then [Frame(EventChannel(e), e.owner)]
    else []
  }

  // ---- The connection ------------------------------------------------------------------

  class Connection {
    var authenticated: bool
    var address: Option<string>
    var subscriptions: set<string>

    ghost function View(): State
      reads this
    {
      State(authenticated, address, subscriptions)
    }

    constructor ()
      ensures View() == INITIAL
    {
      authenticated, address, subscriptions := false, None, {};
    }

    method TokenAuth(token: string, env: Env) returns (reply: Reply)
      modifies this
      ensures (View(), reply) == HandleToken(old(View()), token, env)
    {
      match env.jwt(token) {
        case Some(subject) =>
          authenticated, address := true, Some(Lower(subject));
          return AuthResult(true);
        case None =>
          return AuthResult(false);
      }
    }

    method SubscribeTo(channel: string, token: Option<string>, env: Env) returns (reply: Reply)
      modifies this
      ensures (View(), reply) == HandleSubscribe(old(View()), channel, token, env)
    {
      if token.Some? && !authenticated {
        var claims := env.jwt(token.value);
        if claims.Some? {
          authenticated, address := true, Some(Lower(claims.value));
        }
      }
      if !IsKnown(channel) {
        return Error("INVALID_CHANNEL");
      }
      if IsPrivate(channel) && !authenticated {
        return Error("AUTH_REQUIRED");
      }
      if IsPrivatePrefix(channel) {
        var own := if address.Some? then Lower(address.value) else "";
        if Lower(Suffix(channel)) != own {
          return Error("FORBIDDEN");
        }
      }
      subscriptions := subscriptions + {channel};
      return Subscribed(channel);
    }

    /** `handle_client_message`. */
    method HandleClientMessage(m: Message, env: Env) returns (reply: Reply)
      modifies this
      ensures (View(), reply) == Handle(old(View()), m, env)
    {
      match m {
        case Auth(addr, signature, timestamp, token, listenKey) =>
          if listenKey.Some? {
            var found := env.resolve(listenKey.value);
            if found.Some? {
              authenticated, address := true, Some(found.value);
            }
            return AuthResult(found.Some?);
          }
          if token.Some? {
            reply := TokenAuth(token.value, env);
            return;
          }
          if addr.None? || signature.None? || timestamp.None? {
            return AuthResult(false);
          }
          var age := if env.now >= timestamp.value then env.now - timestamp.value else timestamp.value - env.now;
          if age > AUTH_WINDOW_SECS {
            return AuthResult(false);
          }
          if env.verify(Lower(addr.value), signature.value, timestamp.value) != Some(true) {
            return AuthResult(false);
          }
          authenticated, address := true, Some(Lower(addr.value));
          return AuthResult(true);
        case AuthToken(token) =>
          reply := TokenAuth(token, env);
        case Subscribe(channel, token) =>
          reply := SubscribeTo(channel, token, env);
        case Unsubscribe(channel) =>
          subscriptions := subscriptions - {channel};
          return Unsubscribed(channel);
        case Other =>
          return NoReply;
      }
    }
  }

  // ---- What every session keeps --------------------------------------------------------

  function Run(s: State, inputs: seq<(Message, Env)>): State
    decreases |inputs|
  {
    if inputs == [] then s else Run(Handle(s, inputs[0].0, inputs[0].1).0, inputs[1..])
  }

  ghost predicate Sound(s: State) {
    && (s.authenticated <==> s.address.Some?)
    && (forall c | c in s.subscriptions :: IsKnown(c) && (IsPrivate(c) ==> s.authenticated))
  }

  lemma {:induction false} SoundRun(s: State, inputs: seq<(Message, Env)>)
    requires Sound(s)
    ensures Sound(Run(s, inputs)) && (s.authenticated ==> Run(s, inputs).authenticated)
    decreases |inputs|
  {
    if inputs != [] {
      SoundRun(Handle(s, inputs[0].0, inputs[0].1).0, inputs[1..]);
    }
  }

  /** A message and its checks stand for an address: a resolved listenKey, the subject of a valid
      token, or an address with a valid, timely signature. */
  predicate Vouches(m: Message, env: Env, a: string) {
    match m
    case Auth(addr, signature, timestamp, token, listenKey) =>
      || (listenKey.Some? && env.resolve(listenKey.value) == Some(a))
      || (token.Some? && env.jwt(token.value).Some? && a == Lower(env.jwt(token.value).value))
      || (addr.Some? && signature.Some? && timestamp.Some? && a == Lower(addr.value)
          && env.verify(a, signature.value, timestamp.value) == Some(true)
          && timestamp.value <= env.now + AUTH_WINDOW_SECS && env.now <= timestamp.value + AUTH_WINDOW_SECS)
    case AuthToken(token) => env.jwt(token).Some? && a == Lower(env.jwt(token).value)
    case Subscribe(_, token) => token.Some? && env.jwt(token.value).Some? && a == Lower(env.jwt(token.value).value)
    case _ => false
  }

  /** The address of a session was vouched for by one of its messages. */
  lemma {:induction false} AddressIsVouched(inputs: seq<(Message, Env)>, a: string)
    requires Run(INITIAL, inputs).address == Some(a)
    ensures exists i :: 0 <= i < |inputs| && Vouches(inputs[i].0, inputs[i].1, a)
  {
    VouchedFrom(INITIAL, inputs, a);
  }

  lemma {:induction false} VouchedFrom(s: State, inputs: seq<(Message, Env)>, a: string)
    requires Run(s, inputs).address == Some(a)
    ensures s.address == Some(a) || exists i :: 0 <= i < |inputs| && Vouches(inputs[i].0, inputs[i].1, a)
    decreases |inputs|
  {
    if inputs != [] {
      var t := Handle(s, inputs[0].0, inputs[0].1).0;
      VouchedFrom(t, inputs[1..], a);
      if t.address == Some(a) && s.address != Some(a) {
        StepVouched(s, inputs[0].0, inputs[0].1);
      } else if t.address != Some(a) {
        var i :| 0 <= i < |inputs[1..]| && Vouches(inputs[1..][i].0, inputs[1..][i].1, a);
        assert inputs[1..][i] == inputs[i + 1];
      }
    }
  }

  /** A new address is vouched for by the message that sets it, and a session that is already
      authenticated changes identity only by an explicit login message. */
  lemma {:induction false} StepVouched(s: State, m: Message, env: Env)
    requires Handle(s, m, env).0.address != s.address
    ensures Handle(s, m, env).0.address.Some? && Vouches(m, env, Handle(s, m, env).0.address.value)
    ensures s.authenticated ==> m.Auth? || m.AuthToken?
  {
  }

  lemma {:induction false} LowerTwice(a: string)
    ensures Lower(Lower(a)) == Lower(a)
  {
  }

  /** In every session: authenticated exactly when an address is held, never lost again, only known
      channels subscribed, private ones only when authenticated, and each private frame is on a
      subscribed channel and about the address held at that step. */
  lemma {:induction false} SessionIsSafe(inputs: seq<(Message, Env)>, more: seq<(Message, Env)>, e: Event)
    ensures
      var s := Run(INITIAL, inputs);
      && Sound(s) && (s.authenticated ==> Run(s, more).authenticated)
      && forall f | f in Push(s, e) ::
           f.channel in s.subscriptions && IsPrivate(f.channel) && s.address.Some? && Lower(f.owner) == Lower(s.address.value)
  {
    SoundRun(INITIAL, inputs);
    var s := Run(INITIAL, inputs);
    SoundRun(s, more);
    if s.address.Some? { LowerTwice(s.address.value); }
    NotKnown();
  }

  predicate EndsInColon(p: string) {
    p != "" && p[|p| - 1] == ':'
  }

  lemma {:induction false} PublicPrefixesEndInColon(p: string)
    requires p in PUBLIC_PREFIXES
    ensures EndsInColon(p)
  {
  }

  lemma {:induction false} PrivatePrefixesEndInColon(p: string)
    requires p in PRIVATE_PREFIXES
    ensures EndsInColon(p)
  {
  }

  lemma {:induction false} PrefixHasColon(p: string, c: string)
    requires EndsInColon(p) && p <= c
    ensures ':' in c
  {
  }

  lemma {:induction false} BalancesNotStatic()
    ensures "balances" !in PRIVATE_STATIC
  {
  }

  /** `balances` is not a channel a client can subscribe to. */
  lemma {:induction false} NotKnown()
    ensures !IsKnown("balances")
  {
    var c := "balances";
    BalancesNotStatic();
    assert ':' !in c;
    hide *;
    forall p | p in PUBLIC_PREFIXES ensures !(p <= c) { PublicPrefixesEndInColon(p); if p <= c { PrefixHasColon(p, c); } }
    forall p | p in PRIVATE_PREFIXES ensures !(p <= c) { PrivatePrefixesEndInColon(p); if p <= c { PrefixHasColon(p, c); } }
    NothingMatches(c);
  }

  lemma {:induction false} NothingMatches(c: string)
    requires forall p | p in PUBLIC_PREFIXES :: !(p <= c)
    requires forall p | p in PRIVATE_PREFIXES :: !(p <= c)
    requires c !in PRIVATE_STATIC
    ensures !IsKnown(c)
  {
  }

  /** So the balance arm never sends anything, in any session. */
  lemma {:induction false} BalanceUpdatesNeverPushed(inputs: seq<(Message, Env)>, owner: string)
    ensures Push(Run(INITIAL, inputs), BalanceUpdate(owner)) == []
  {
    SoundRun(INITIAL, inputs);
    NotKnown();
  }

  lemma {:induction false} SubscriptionStays(s: State, inputs: seq<(Message, Env)>, channel: string)
    requires channel in s.subscriptions && forall i | 0 <= i < |inputs| :: inputs[i].0 != Unsubscribe(channel)
    ensures channel in Run(s, inputs).subscriptions
    decreases |inputs|
  {
    if inputs != [] {
      assert inputs[0].0 != Unsubscribe(channel);
      assert forall i | 0 <= i < |inputs[1..]| :: inputs[1..][i] == inputs[i + 1];
      SubscriptionStays(Handle(s, inputs[0].0, inputs[0].1).0, inputs[1..], channel);
    }
  }

  lemma {:induction false} PrivateEventChannel(e: Event)
    requires !e.PrivateTick? && IsKnown(EventChannel(e))
    ensures IsPrivate(EventChannel(e))
  {
    if e.BalanceUpdate? {
      NotKnown();
    } else {
      assert EventChannel(e) in PRIVATE_STATIC;
    }
  }

  /** The channel on which the events of a kind are announced. */
  predicate TravelsOn(e: Event, channel: string) {
    match e
    case Points(_) => channel == "points"
    case VipTier(_) => channel == "vip_tier"
    case UnifiedAccount(_) => channel == "unified_account"
    case BalanceUpdate(_) => channel == "balances"
    case OrderUpdate(_) => channel == "orders"
    case SpotOrder(_) => channel == "spot:user:orders"
    case SpotBalance(_) => channel == "spot:user:balances"
    case PrivateTick => false
  }

  /** Whom an event is about: order, points, VIP and margin events spell the account in lower case,
      spot events in any. */
  predicate IsAbout(e: Event, address: string)
    requires !e.PrivateTick?
  {
    || e.owner == Lower(address)
    || ((e.SpotOrder? || e.SpotBalance?) && Lower(e.owner) == Lower(address))
  }

  /** A confirmed subscription to a private channel serves the session until it is cancelled, through
      any further messages: an event on the channel is pushed exactly if it is about the address then
      held, and at every tick positions, balance and open orders of that address. */
  lemma {:induction false} SubscribersAreServed(before: seq<(Message, Env)>, channel: string, token: Option<string>, env: Env,
                                                after: seq<(Message, Env)>, e: Event)
    requires Handle(Run(INITIAL, before), Subscribe(channel, token), env).1 == Subscribed(channel)
    requires forall i | 0 <= i < |after| :: after[i].0 != Unsubscribe(channel)
    ensures
      var s := Run(Handle(Run(INITIAL, before), Subscribe(channel, token), env).0, after);
      && (TravelsOn(e, channel) ==>
            && s.authenticated && s.address.Some?
            && Push(s, e) == if IsAbout(e, s.address.value) then [Frame(channel, e.owner)] else [])
      && (channel in {"positions", "balance", "orders"} ==>
            s.authenticated && s.address.Some? && Frame(channel, Lower(s.address.value)) in Push(s, PrivateTick))
  {
    var joined := Handle(Run(INITIAL, before), Subscribe(channel, token), env).0;
    SoundRun(INITIAL, before);
    assert IsKnown(channel) && Sound(joined) && channel in joined.subscriptions;
    SoundRun(joined, after);
    SubscriptionStays(joined, after, channel);
    var s := Run(joined, after);
    assert Sound(s) && channel in s.subscriptions;
    ServedNow(s, channel, e);
  }

  lemma {:induction false} ServedNow(s: State, channel: string, e: Event)
    requires Sound(s) && channel in s.subscriptions
    ensures TravelsOn(e, channel) ==>
              && s.authenticated && s.address.Some?
              && Push(s, e) == if IsAbout(e, s.address.value) then [Frame(channel, e.owner)] else []
    ensures channel in {"positions", "balance", "orders"} ==>
              s.authenticated && s.address.Some? && Frame(channel, Lower(s.address.value)) in Push(s, PrivateTick)
  {
    if TravelsOn(e, channel) {
      PrivateEventChannel(e);
      if e.BalanceUpdate? { NotKnown(); }
      hide IsKnown, IsPrivate;
    }
    if channel in {"positions", "balance", "orders"} {
      assert channel in PRIVATE_STATIC;
      hide IsKnown;
    }
  }

  // ---- Logging in, subscribing and leaving ---------------------------------------------

  /** A login succeeds exactly with valid credentials: the listenKey if one is sent, else the token if
      one is sent, else address, signature and time, within 300 seconds either way. */
  predicate Credential(m: Message, env: Env, a: string) {
    match m
    case AuthToken(token) => env.jwt(token).Some? && a == Lower(env.jwt(token).value)
    case Auth(addr, signature, timestamp, token, listenKey) =>
      || (listenKey.Some? && env.resolve(listenKey.value) == Some(a))
      || (listenKey.None? && token.Some? && env.jwt(token.value).Some? && a == Lower(env.jwt(token.value).value))
      || (listenKey.None? && token.None? && addr.Some? && signature.Some? && timestamp.Some? && a == Lower(addr.value)
          && timestamp.value - 300 <= env.now <= timestamp.value + 300
          && env.verify(a, signature.value, timestamp.value) == Some(true))
    case _ => false
  }

  /** In every session a login answers truthfully: it takes the address of valid credentials, and
      without them it changes nothing. */
  lemma {:induction false} LoginIff(inputs: seq<(Message, Env)>, m: Message, env: Env)
    requires m.Auth? || m.AuthToken?
    ensures
      var s := Run(INITIAL, inputs);
      var (t, reply) := Handle(s, m, env);
      && t.subscriptions == s.subscriptions
      && (forall a | Credential(m, env, a) :: reply == AuthResult(true) && t.authenticated && t.address == Some(a))
      && ((forall a :: !Credential(m, env, a)) ==> reply == AuthResult(false) && t == s)
  {
    LoginStep(Run(INITIAL, inputs), m, env);
  }

  lemma {:induction false} LoginStep(s: State, m: Message, env: Env)
    requires m.Auth? || m.AuthToken?
    ensures
      var (t, reply) := Handle(s, m, env);
      && t.subscriptions == s.subscriptions
      && (forall a | Credential(m, env, a) :: reply == AuthResult(true) && t.authenticated && t.address == Some(a))
      && ((forall a :: !Credential(m, env, a)) ==> reply == AuthResult(false) && t == s)
  {
    match m {
      case AuthToken(token) =>
        if env.jwt(token).Some? { assert Credential(m, env, Lower(env.jwt(token).value)); }
      case Auth(addr, signature, timestamp, token, listenKey) =>
        if listenKey.Some? {
          if env.resolve(listenKey.value).Some? { assert Credential(m, env, env.resolve(listenKey.value).value); }
        } else if token.Some? {
          if env.jwt(token.value).Some? { assert Credential(m, env, Lower(env.jwt(token.value).value)); }
        } else if addr.Some? && Handle(s, m, env).1 == AuthResult(true) {
          assert Credential(m, env, Lower(addr.value));
        }
    }
  }

  /** The address a session holds once the token of a subscription was looked at. */
  function Joining(s: State, token: Option<string>, env: Env): Option<string> {
    if !s.authenticated && token.Some? && env.jwt(token.value).Some? then Some(Lower(env.jwt(token.value).value)) else s.address
  }

  /** In every session a subscription is confirmed exactly to a public channel, to a private one of
      an authenticated session, and to one naming an address only if it is the session's; the token
      authenticates in any case.  Leaving is always confirmed, and other messages
      leave the session as it is. */
  lemma {:induction false} SubscribeIff(inputs: seq<(Message, Env)>, channel: string, token: Option<string>, env: Env)
    ensures
      var s := Run(INITIAL, inputs);
      var (t, reply) := Handle(s, Subscribe(channel, token), env);
      var held := Joining(s, token, env);
      && t.address == held && (t.authenticated <==> held.Some?)
      && t.subscriptions == (if reply == Subscribed(channel) then s.subscriptions + {channel} else s.subscriptions)
      && (reply == Error("INVALID_CHANNEL") <==> !IsKnown(channel))
      && (reply == Error("AUTH_REQUIRED") <==> IsKnown(channel) && IsPrivate(channel) && held.None?)
      && (reply == Error("FORBIDDEN") <==>
            IsKnown(channel) && held.Some? && IsPrivatePrefix(channel) && Lower(Suffix(channel)) != Lower(held.value))
      && (reply == Subscribed(channel) <==>
            IsKnown(channel) && (IsPrivate(channel) ==>
              held.Some? && (IsPrivatePrefix(channel) ==> Lower(Suffix(channel)) == Lower(held.value))))
      && Handle(s, Unsubscribe(channel), env) == (s.(subscriptions := s.subscriptions - {channel}), Unsubscribed(channel))
      && Handle(s, Other, env).0 == s
  {
    SoundRun(INITIAL, inputs);
    var s := Run(INITIAL, inputs);
    CodesDiffer();
    hide IsKnown, IsPrivateStatic, IsPrivatePrefix, Run, Suffix, Lower;
  }

  lemma {:induction false} CodesDiffer()
    ensures "INVALID_CHANNEL" != "AUTH_REQUIRED" && "INVALID_CHANNEL" != "FORBIDDEN" && "AUTH_REQUIRED" != "FORBIDDEN"
  {
    assert |"INVALID_CHANNEL"| == 15 && |"AUTH_REQUIRED"| == 13 && |"FORBIDDEN"| == 9;
  }

  /** Message `i` of the session subscribed to the channel, and none later left it. */
  ghost predicate JoinedAt(inputs: seq<(Message, Env)>, channel: string, i: nat)
    requires i < |inputs|
  {
    && inputs[i].0.Subscribe? && inputs[i].0.channel == channel
    && Handle(Run(INITIAL, inputs[..i]), inputs[i].0, inputs[i].1).1 == Subscribed(channel)
    && forall j | i < j < |inputs| :: inputs[j].0 != Unsubscribe(channel)
  }

  /** A session is subscribed to exactly the channels whose last confirmed subscription it has not
      cancelled since. */
  lemma {:induction false} SubscriptionsAreHistory(inputs: seq<(Message, Env)>, channel: string)
    ensures channel in Run(INITIAL, inputs).subscriptions <==> exists i | 0 <= i < |inputs| :: JoinedAt(inputs, channel, i)
    decreases |inputs|
  {
    if inputs != [] {
      var n := |inputs| - 1;
      var (init, m, env) := (inputs[..n], inputs[n].0, inputs[n].1);
      var s := Run(INITIAL, init);
      SubscriptionsAreHistory(init, channel);
      RunSnoc(INITIAL, inputs, n);
      assert inputs[..n + 1] == inputs;
      LastMessage(s, m, env, channel);
      hide Handle, Run;
      assert JoinedAt(inputs, channel, n) <==> m.Subscribe? && m.channel == channel && Handle(s, m, env).1 == Subscribed(channel);
      hide JoinedAt;
      forall i | 0 <= i < n
        ensures JoinedAt(inputs, channel, i) <==> JoinedAt(init, channel, i) && m != Unsubscribe(channel)
      {
        JoinedSnoc(inputs, channel, i);
      }
    }
  }

  lemma {:induction false} JoinedSnoc(inputs: seq<(Message, Env)>, channel: string, i: nat)
    requires i < |inputs| - 1
    ensures
      var n := |inputs| - 1;
      JoinedAt(inputs, channel, i) <==> JoinedAt(inputs[..n], channel, i) && inputs[n].0 != Unsubscribe(channel)
  {
    hide Handle, Run;
    assert inputs[..|inputs| - 1][..i] == inputs[..i];
  }

  lemma {:induction false} LastMessage(s: State, m: Message, env: Env, channel: string)
    ensures channel in Handle(s, m, env).0.subscriptions <==>
              || (m.Subscribe? && m.channel == channel && Handle(s, m, env).1 == Subscribed(channel))
              || (channel in s.subscriptions && m != Unsubscribe(channel))
  {
  }

  // ---- Addresses -----------------------------------------------------------------------

  predicate SameIgnoringCase(s: string, t: string) {
    |s| == |t| && forall i | 0 <= i < |s| ::
      || s[i] == t[i]
      || ('A' <= s[i] <= 'Z' && t[i] as int == s[i] as int + 32)
      || ('A' <= t[i] <= 'Z' && s[i] as int == t[i] as int + 32)
  }

  /** Lower-casing leaves no capital letter and changes nothing but the case, so two addresses have
      the same lower case exactly if they differ in case only. */
  lemma {:induction false} LowerIff(s: string, t: string)
    ensures SameIgnoringCase(s, Lower(s)) && forall i | 0 <= i < |s| :: !('A' <= Lower(s)[i] <= 'Z')
    ensures Lower(s) == Lower(t) <==> SameIgnoringCase(s, t)
  {
    if Lower(s) == Lower(t) {
      forall i | 0 <= i < |s|
        ensures LowerChar(s[i]) == LowerChar(t[i])
      {
        assert Lower(s)[i] == Lower(t)[i];
      }
    }
    if SameIgnoringCase(s, t) {
      assert forall i | 0 <= i < |s| :: Lower(s)[i] == Lower(t)[i];
    }
  }

  lemma {:induction false} SuffixBehind(p: string, x: string)
    requires EndsInColon(p) && ':' !in p[..|p| - 1]
    ensures Suffix(p + x) == x
  {
    if |p| == 1 {
      assert (p + x)[1..] == x;
    } else {
      assert p[0] in p[..|p| - 1] && p[1..][..|p| - 2] == p[..|p| - 1][1..] && (p + x)[1..] == p[1..] + x;
      SuffixBehind(p[1..], x);
    }
  }

  lemma {:induction false} OneColon(p: string)
    requires p in PRIVATE_PREFIXES
    ensures EndsInColon(p) && ':' !in p[..|p| - 1]
  {
  }

  lemma {:induction false} PrefixIsPrivate(p: string, x: string)
    requires p in PRIVATE_PREFIXES
    ensures IsPrivatePrefix(p + x)
  {
    assert p <= p + x;
  }

  lemma {:induction false} PrivateIsKnown(channel: string)
    requires IsPrivatePrefix(channel)
    ensures IsKnown(channel) && IsPrivate(channel)
  {
  }

  /** A channel that names an address is open exactly to the session of that address, in any case. */
  lemma {:induction false} OwnChannelsOnly(inputs: seq<(Message, Env)>, p: string, address: string, token: Option<string>, env: Env)
    requires p in PRIVATE_PREFIXES
    ensures
      var s := Run(INITIAL, inputs);
      var held := Joining(s, token, env);
      Handle(s, Subscribe(p + address, token), env).1 == Subscribed(p + address)
      <==> held.Some? && SameIgnoringCase(address, held.value)
  {
    hide *;
    OneColon(p);
    SuffixBehind(p, address);
    PrefixIsPrivate(p, address);
    PrivateIsKnown(p + address);
    SubscribeIff(inputs, p + address, token, env);
    var held := Joining(Run(INITIAL, inputs), token, env);
    if held.Some? { LowerIff(address, held.value); }
  }

  // ---- Channels that name an address ---------------------------------------------------

  /** Every subscribed channel of the form `user_...:<address>` names the session's address. */
  ghost predicate NamesOwnAddress(s: State) {
    forall c | c in s.subscriptions && IsPrivatePrefix(c) :: Lower(Suffix(c)) == LowerAddress(s)
  }

  /** `m` changes the address of a session that is subscribed to a channel naming an address. */
  ghost predicate RenamesSession(s: State, m: Message, env: Env) {
    LowerAddress(Handle(s, m, env).0) != LowerAddress(s) && exists c | c in s.subscriptions :: IsPrivatePrefix(c)
  }

  lemma {:induction false} NamesStep(s: State, m: Message, env: Env)
    requires Sound(s) && NamesOwnAddress(s)
    ensures !NamesOwnAddress(Handle(s, m, env).0) <==> RenamesSession(s, m, env)
  {
  }

  lemma {:induction false} RunSnoc(s: State, inputs: seq<(Message, Env)>, n: nat)
    requires n < |inputs|
    ensures Run(s, inputs[..n + 1]) == Handle(Run(s, inputs[..n]), inputs[n].0, inputs[n].1).0
    decreases n
  {
    if n == 0 {
      assert inputs[..1][1..] == [];
    } else {
      RunSnoc(Handle(s, inputs[0].0, inputs[0].1).0, inputs[1..], n - 1);
      assert inputs[..n + 1][1..] == inputs[1..][..n] && inputs[..n][1..] == inputs[1..][..n - 1];
    }
  }

  lemma {:induction false} NamesUpTo(inputs: seq<(Message, Env)>, n: nat)
    requires n <= |inputs|
    requires forall m | 0 <= m < n :: !RenamesSession(Run(INITIAL, inputs[..m]), inputs[m].0, inputs[m].1)
    ensures NamesOwnAddress(Run(INITIAL, inputs[..n]))
  {
    if n > 0 {
      NamesUpTo(inputs, n - 1);
      SoundRun(INITIAL, inputs[..n - 1]);
      RunSnoc(INITIAL, inputs, n - 1);
      NamesStep(Run(INITIAL, inputs[..n - 1]), inputs[n - 1].0, inputs[n - 1].1);
    }
  }

  /** The channels of a session name its own address at every moment exactly if no message changes
      the address while such a channel is subscribed: a second login as someone else drops none. */
  lemma {:induction false} NamesBrokenIff(inputs: seq<(Message, Env)>)
    ensures (forall n | 0 <= n <= |inputs| :: NamesOwnAddress(Run(INITIAL, inputs[..n])))
       <==> (forall n | 0 <= n < |inputs| :: !RenamesSession(Run(INITIAL, inputs[..n]), inputs[n].0, inputs[n].1))
  {
    if forall n | 0 <= n <= |inputs| :: NamesOwnAddress(Run(INITIAL, inputs[..n])) {
      forall n | 0 <= n < |inputs|
        ensures !RenamesSession(Run(INITIAL, inputs[..n]), inputs[n].0, inputs[n].1)
      {
        SoundRun(INITIAL, inputs[..n]);
        RunSnoc(INITIAL, inputs, n);
        NamesStep(Run(INITIAL, inputs[..n]), inputs[n].0, inputs[n].1);
        assert NamesOwnAddress(Run(INITIAL, inputs[..n + 1]));
      }
    }
    if forall n | 0 <= n < |inputs| :: !RenamesSession(Run(INITIAL, inputs[..n]), inputs[n].0, inputs[n].1) {
      forall n | 0 <= n <= |inputs|
        ensures NamesOwnAddress(Run(INITIAL, inputs[..n]))
      {
        NamesUpTo(inputs, n);
      }
    }
  }
}
