/** API-key signatures: how the signed payload is rebuilt from the received query and body.

    `mac` stands for the hex form of HMAC-SHA256 under the caller's secret; nothing is assumed
    about it.  `now` is the server clock in milliseconds.  Text is UTF-8 bytes. */
module HmacAuth {
  import opened Utf8
  import opened Wrappers

  const RECV_WINDOW: nat := 60_000
  const U64_MAX: nat := 0xFFFF_FFFF_FFFF_FFFF

  const AMP: Byte := 38
  const EQUALS: Byte := 61
  const PERCENT: Byte := 37
  const PLUS: Byte := 43
  const SPACE: Byte := 32
  const SIGNATURE: Bytes := [115, 105, 103, 110, 97, 116, 117, 114, 101]
  const TIMESTAMP: Bytes := [116, 105, 109, 101, 115, 116, 97, 109, 112]

  /** `Crashed`: writing the log line about a mismatch panics, and the request gets no answer. */
  datatype Verdict = Accepted | MissingSignature | MissingTimestamp | OutsideWindow | InvalidSignature | Crashed

  // ---- Splitting and joining -----------------------------------------------------------

  function IndexOf(s: Bytes, c: Byte): (i: nat)
    requires c in s
    ensures i < |s| && s[i] == c && c !in s[..i]
  {
    if s[0] == c then 0 else 1 + IndexOf(s[1..], c)
  }

  /** `str::split`: at least one part, possibly empty ones. */
  function Split(s: Bytes, c: Byte): seq<Bytes> {
    if c !in s then [s] else [s[..IndexOf(s, c)]] + Split(s[IndexOf(s, c) + 1..], c)
  }

  function Join(parts: seq<Bytes>, c: Byte): Bytes {
    if parts == [] then []
    else if |parts| == 1 then parts[0]
    else parts[0] + [c] + Join(parts[1..], c)
  }

  /** The two sides of the first `=`; without one the value is empty. */
  function KeyValue(p: Bytes): (Bytes, Bytes) {
    if EQUALS in p then (p[..IndexOf(p, EQUALS)], p[IndexOf(p, EQUALS) + 1..]) else (p, [])
  }

  function StripPrefix(p: Bytes, prefix: Bytes): Option<Bytes> {
    if prefix <= p then Some(p[|prefix|..]) else None
  }

  // ---- Percent decoding ----------------------------------------------------------------

  function HexValue(b: Byte): (v: Option<nat>)
    ensures v.Some? ==> v.value < 16
  {
    if 48 <= b <= 57 then Some(b - 48)
    else if 65 <= b <= 70 then Some(b - 55)
    else if 97 <= b <= 102 then Some(b - 87)
    else None
  }

  predicate IsEscape(s: Bytes) {
    |s| > 2 && s[0] == PERCENT && HexValue(s[1]).Some? && HexValue(s[2]).Some?
  }

  function EscapedByte(s: Bytes): Byte
    requires IsEscape(s)
  {
    HexValue(s[1]).value * 16 + HexValue(s[2]).value
  }

  /** The decoded bytes; a `%` that starts no escape stays. */
  function DecodeBytes(s: Bytes): (r: Bytes)
    ensures |r| <= |s|
  {
    if s == [] then []
    else if IsEscape(s) then [EscapedByte(s)] + DecodeBytes(s[3..])
    else [if s[0] == PLUS then SPACE else s[0]] + DecodeBytes(s[1..])
  }

  function PercentDecode(s: Bytes): Bytes {
    Lossy(DecodeBytes(s))
  }

  /** One round of decoding, seen from the whole input. */
  lemma {:induction false} DecodeRound(input: Bytes, i: nat)
    requires i < |input|
    ensures IsEscape(input[i..]) <==>
              input[i] == PERCENT && i + 2 < |input| && HexValue(input[i + 1]).Some? && HexValue(input[i + 2]).Some?
    ensures IsEscape(input[i..]) ==>
              DecodeBytes(input[i..])
              == [HexValue(input[i + 1]).value * 16 + HexValue(input[i + 2]).value] + DecodeBytes(input[i + 3..])
    ensures !IsEscape(input[i..]) ==>
              DecodeBytes(input[i..]) == [if input[i] == PLUS then SPACE else input[i]] + DecodeBytes(input[i + 1..])
  {
  }

  /** The decoding loop; its buffer never outgrows the input. */
  method PercentDecodeLoop(input: Bytes) returns (out: Bytes)
    ensures out == PercentDecode(input)
  {
    hide DecodeBytes, IsEscape, HexValue, Lossy;
    var buffer: Bytes := [];
    var i := 0;
    assert input[0..] == input;
    while i < |input|
      invariant 0 <= i <= |input|
      invariant |buffer| <= i
      invariant DecodeBytes(input) == buffer + DecodeBytes(input[i..])
    {
      DecodeRound(input, i);
      if input[i] == PERCENT && i + 2 < |input| {
        var (hi, lo) := (HexValue(input[i + 1]), HexValue(input[i + 2]));
        if hi.Some? && lo.Some? {
          buffer := buffer + [hi.value * 16 + lo.value];
          i := i + 3;
          continue;
        }
      } else if input[i] == PLUS {
        buffer := buffer + [SPACE];
        i := i + 1;
        continue;
      }
      buffer := buffer + [input[i]];
      i := i + 1;
    }
    DecodeEnd(input);
    assert buffer + [] == buffer;
    out := Lossy(buffer);
  }

  lemma {:induction false} DecodeEnd(input: Bytes)
    ensures DecodeBytes(input[|input|..]) == []
  {
  }

  /** `e` is `raw` percent-encoded (RFC 3986, section 2.1): each byte is literal, unless it is
      `%` or `+`, or an escape with hex digits in either case; a space may also be written `+`. */
  predicate Encodes(e: Bytes, raw: Bytes)
    decreases |raw|
  {
    if raw == [] then e == []
    else
      || (e != [] && e[0] == raw[0] && e[0] != PERCENT && e[0] != PLUS && Encodes(e[1..], raw[1..]))
      || (e != [] && e[0] == PLUS && raw[0] == SPACE && Encodes(e[1..], raw[1..]))
      || (IsEscape(e) && EscapedByte(e) == raw[0] && Encodes(e[3..], raw[1..]))
  }

  lemma {:induction false} DecodeInvertsBytes(e: Bytes, raw: Bytes)
    requires Encodes(e, raw)
    ensures DecodeBytes(e) == raw
    decreases |raw|
  {
    if raw != [] {
      if IsEscape(e) {
        DecodeInvertsBytes(e[3..], raw[1..]);
      } else {
        DecodeInvertsBytes(e[1..], raw[1..]);
      }
      assert raw == [raw[0]] + raw[1..];
    }
  }

  /** A hexadecimal digit in either case. */
  function HexDigit(d: nat, upper: bool): Byte
    requires d < 16
  {
    if d < 10 then 48 + d else if upper then 55 + d else 87 + d
  }

  /** A percent-encoder: bytes in `keep` stay, others become `%` and two digits. */
  function PercentEncode(raw: Bytes, keep: set<Byte>, upper: bool): Bytes {
    if raw == [] then []
    else
      (if raw[0] in keep then [raw[0]] else [37, HexDigit(raw[0] / 16, upper), HexDigit(raw[0] % 16, upper)])
      + PercentEncode(raw[1..], keep, upper)
  }

  lemma {:induction false} EscapeOf(b: Byte, upper: bool, rest: Bytes)
    ensures
      var e := [37, HexDigit(b / 16, upper), HexDigit(b % 16, upper)] + rest;
      IsEscape(e) && EscapedByte(e) == b && e[3..] == rest
  {
  }

  lemma {:induction false} EncoderEncodes(raw: Bytes, keep: set<Byte>, upper: bool)
    requires 37 !in keep && 43 !in keep
    ensures Encodes(PercentEncode(raw, keep, upper), raw)
  {
    if raw != [] {
      var rest := PercentEncode(raw[1..], keep, upper);
      EncoderEncodes(raw[1..], keep, upper);
      if raw[0] in keep {
        assert ([raw[0]] + rest)[1..] == rest;
      } else {
        EscapeOf(raw[0], upper, rest);
      }
    }
  }

  /** Decoding undoes the encoder on text, whatever bytes it leaves alone besides `%` and `+`, and in
      whichever case it writes its digits. */
  lemma {:induction false} DecodeOfEncoder(raw: Bytes, keep: set<Byte>, upper: bool)
    requires 37 !in keep && 43 !in keep && Valid(raw)
    ensures PercentDecode(PercentEncode(raw, keep, upper)) == raw
  {
    EncoderEncodes(raw, keep, upper);
    DecodeInverts(PercentEncode(raw, keep, upper), raw);
  }

  /** Decoding undoes every such encoder exactly on well-formed text. */
  lemma {:induction false} DecodeInverts(e: Bytes, raw: Bytes)
    requires Encodes(e, raw)
    ensures PercentDecode(e) == raw <==> Valid(raw)
  {
    DecodeInvertsBytes(e, raw);
    LossyIdentityIff(raw);
  }

  // ---- Scanning the query --------------------------------------------------------------

  function ReadDecimal(s: Bytes): Option<nat> {
    if s == [] then Some(0)
    else
      match ReadDecimal(s[..|s| - 1])
      case Some(high) => if 48 <= s[|s| - 1] <= 57 then Some(10 * high + (s[|s| - 1] - 48)) else None
      case None => None
  }

  /** `str::parse::<u64>`: an optional `+`, at least one digit, within range. */
  function ParseU64(s: Bytes): Option<nat> {
    var digits := if s != [] && s[0] == PLUS then s[1..] else s;
    match if digits == [] then None else ReadDecimal(digits)
    case Some(n) => if n <= U64_MAX then Some(n) else None
    case None => None
  }

  predicate IsSignature(p: Bytes) {
    SIGNATURE + [EQUALS] <= p
  }

  predicate IsTimestamp(p: Bytes) {
    TIMESTAMP + [EQUALS] <= p
  }

  datatype Scan = Scan(signature: Option<Bytes>, timestamp: Option<nat>, params: seq<Bytes>)

  /** One pair of the query: the last signature and the last timestamp win. */
  function ScanPair(sc: Scan, p: Bytes): Scan {
    if p == [] then sc
    else if IsSignature(p) then sc.(signature := StripPrefix(p, SIGNATURE + [EQUALS]))
    else
      sc.(timestamp := if IsTimestamp(p) then ParseU64(p[|TIMESTAMP| + 1..]) else sc.timestamp,
          params := sc.params + [p])
  }

  function ScanPairs(sc: Scan, pairs: seq<Bytes>): Scan
    decreases |pairs|
  {
    if pairs == [] then sc else ScanPairs(ScanPair(sc, pairs[0]), pairs[1..])
  }

  function ScanQuery(query: Bytes): Scan {
    ScanPairs(Scan(None, None, []), Split(query, AMP))
  }

  function WithBody(params: Bytes, body: Bytes): Bytes {
    if Valid(body) then params + body else params
  }

  function DecodePair(p: Bytes): Bytes {
    PercentDecode(KeyValue(p).0) + [EQUALS] + PercentDecode(KeyValue(p).1)
  }

  function DecodePairs(ps: seq<Bytes>): seq<Bytes> {
    if ps == [] then [] else [DecodePair(ps[0])] + DecodePairs(ps[1..])
  }

  predicate InWindow(timestamp: nat, now: nat) {
    timestamp <= now + RECV_WINDOW && now <= timestamp + RECV_WINDOW
  }

  /** The log line of a mismatch shows at most `n` bytes of a text, which must not end inside a character. */
  predicate CutsCharacter(s: Bytes, n: nat) {
    n < |s| && 0x80 <= s[n] < 0xC0
  }

  /** Rejecting a signature, with warnings being logged. */
  function Mismatch(signature: Bytes, payload: Bytes): Verdict {
    if CutsCharacter(signature, 16) || CutsCharacter(payload, 100) then Crashed else InvalidSignature
  }

  function Verify(query: Bytes, body: Bytes, now: nat, mac: Bytes -> Bytes): Verdict {
    var sc := ScanQuery(query);
    if sc.signature.None? then MissingSignature
    else if sc.timestamp.None? then MissingTimestamp
    else if !InWindow(sc.timestamp.value, now) then OutsideWindow
    else if mac(WithBody(Join(sc.params, AMP), body)) == sc.signature.value then Accepted
    else if mac(WithBody(Join(DecodePairs(sc.params), AMP), body)) == sc.signature.value then Accepted
    else Mismatch(sc.signature.value, WithBody(Join(sc.params, AMP), body))
  }

  /** The loop over the pairs of the query. */
  method ScanLoop(query: Bytes) returns (signature: Option<Bytes>, timestamp: Option<nat>, params: seq<Bytes>)
    ensures Scan(signature, timestamp, params) == ScanQuery(query)
  {
    var pairs := Split(query, AMP);
    signature, timestamp, params := None, None, [];
    var i := 0;
    while i < |pairs|
      invariant 0 <= i <= |pairs|
      invariant ScanPairs(Scan(signature, timestamp, params), pairs[i..]) == ScanQuery(query)
    {
      var p := pairs[i];
      assert pairs[i..][1..] == pairs[i + 1..];
      if p != [] {
        if IsSignature(p) {
          signature := Some(p[|SIGNATURE| + 1..]);
        } else {
          if IsTimestamp(p) {
            timestamp := ParseU64(p[|TIMESTAMP| + 1..]);
          }
          params := params + [p];
        }
      }
      i := i + 1;
    }
  }

  method DecodeLoop(params: seq<Bytes>) returns (decoded: seq<Bytes>)
    ensures decoded == DecodePairs(params)
  {
    decoded := [];
    for i := 0 to |params|
      invariant DecodePairs(params) == decoded + DecodePairs(params[i..])
    {
      assert params[i..][1..] == params[i + 1..];
      var (k, v) := KeyValue(params[i]);
      var key := PercentDecodeLoop(k);
      var value := PercentDecodeLoop(v);
      decoded := decoded + [key + [EQUALS] + value];
    }
  }

  method VerifySignature(query: Bytes, body: Bytes, now: nat, mac: Bytes -> Bytes) returns (verdict: Verdict)
    ensures verdict == Verify(query, body, now, mac)
  {
    var signature, timestamp, params := ScanLoop(query);
    if signature.None? {
      return MissingSignature;
    }
    if timestamp.None? {
      return MissingTimestamp;
    }
    var delta := if timestamp.value >= now then timestamp.value - now else now - timestamp.value;
    if delta > RECV_WINDOW {
      return OutsideWindow;
    }
    var payload := Join(params, AMP);
    if Valid(body) {
      payload := payload + body;
    }
    if mac(payload) == signature.value {
      return Accepted;
    }
    var decoded := DecodeLoop(params);
    var decodedPayload := Join(decoded, AMP);
    if Valid(body) {
      decodedPayload := decodedPayload + body;
    }
    if mac(decodedPayload) == signature.value {
      return Accepted;
    }
    if (|signature.value| > 16 && 0x80 <= signature.value[16] < 0xC0) || (|payload| > 100 && 0x80 <= payload[100] < 0xC0) {
      return Crashed;
    }
    return InvalidSignature;
  }

  // ---- Clients -------------------------------------------------------------------------

  /** A parameter as a client means it and as its HTTP library sends it. */
  datatype Param = Param(key: Bytes, value: Bytes, sentKey: Bytes, sentValue: Bytes) {
    function Raw(): Bytes {
      key + [EQUALS] + value
    }

    function Sent(): Bytes {
      sentKey + [EQUALS] + sentValue
    }

    /** The sent key keeps `=` and `&` escaped and is not the signature's; the value keeps `&` escaped. */
    predicate Separable() {
      EQUALS !in sentKey && AMP !in sentKey && AMP !in sentValue && sentKey != SIGNATURE
    }

    predicate Faithful() {
      Encodes(sentKey, key) && Encodes(sentValue, value) && Valid(key) && Valid(value)
    }
  }

  function RawPairs(ps: seq<Param>): seq<Bytes> {
    if ps == [] then [] else [ps[0].Raw()] + RawPairs(ps[1..])
  }

  function SentPairs(ps: seq<Param>): seq<Bytes> {
    if ps == [] then [] else [ps[0].Sent()] + SentPairs(ps[1..])
  }

  /** The timestamp the server reads from the sent parameters. */
  function SentTimestamp(ps: seq<Param>): Option<nat> {
    if ps == [] then None
    else
      var last := ps[|ps| - 1];
      if last.sentKey == TIMESTAMP then ParseU64(last.sentValue) else SentTimestamp(ps[..|ps| - 1])
  }

  /** The query with the signature pair between `before` and `after`. */
  function SignedQuery(before: seq<Param>, signature: Bytes, after: seq<Param>): Bytes {
    Join(SentPairs(before) + [SIGNATURE + [EQUALS] + signature] + SentPairs(after), AMP)
  }

  ghost predicate AllSeparable(ps: seq<Param>) {
    forall p | p in ps :: p.Separable()
  }

  lemma {:induction false} IndexAt(l: Bytes, c: Byte, r: Bytes)
    requires c !in l
    ensures c in l + [c] + r && IndexOf(l + [c] + r, c) == |l|
  {
    var s := l + [c] + r;
    assert s[|l|] == c;
    if l != [] {
      assert s[0] == l[0] && s[1..] == l[1..] + [c] + r;
      IndexAt(l[1..], c, r);
    }
  }

  lemma {:induction false} SplitJoin(parts: seq<Bytes>, c: Byte)
    requires parts != [] && forall p | p in parts :: c !in p
    ensures Split(Join(parts, c), c) == parts
  {
    if |parts| > 1 {
      var (h, t) := (parts[0], Join(parts[1..], c));
      assert h in parts;
      IndexAt(h, c, t);
      assert (h + [c] + t)[..|h|] == h && (h + [c] + t)[|h| + 1..] == t;
      assert forall p | p in parts[1..] :: p in parts;
      SplitJoin(parts[1..], c);
    }
  }

  lemma {:induction false} KeyValueOf(k: Bytes, v: Bytes)
    requires EQUALS !in k
    ensures KeyValue(k + [EQUALS] + v) == (k, v)
  {
    IndexAt(k, EQUALS, v);
    assert (k + [EQUALS] + v)[..|k|] == k && (k + [EQUALS] + v)[|k| + 1..] == v;
  }

  /** A pair begins with `name=` exactly when its key is `name`. */
  lemma {:induction false} PrefixIff(name: Bytes, k: Bytes, v: Bytes)
    requires EQUALS !in name && EQUALS !in k
    ensures name + [EQUALS] <= k + [EQUALS] + v <==> k == name
    ensures k == name ==> (k + [EQUALS] + v)[|name| + 1..] == v
  {
    var p := k + [EQUALS] + v;
    if name + [EQUALS] <= p {
      assert p == name + [EQUALS] + p[|name| + 1..];
      KeyValueOf(name, p[|name| + 1..]);
      KeyValueOf(k, v);
    }
  }

  lemma {:induction false} ScanConcat(sc: Scan, a: seq<Bytes>, b: seq<Bytes>)
    ensures ScanPairs(sc, a + b) == ScanPairs(ScanPairs(sc, a), b)
    decreases |a|
  {
    if a == [] {
      assert a + b == b;
    } else {
      assert (a + b)[0] == a[0] && (a + b)[1..] == a[1..] + b;
      ScanConcat(ScanPair(sc, a[0]), a[1..], b);
    }
  }

  lemma {:induction false} SentSnoc(ps: seq<Param>)
    requires ps != []
    ensures SentPairs(ps) == SentPairs(ps[..|ps| - 1]) + [ps[|ps| - 1].Sent()]
  {
    if |ps| > 1 {
      SentSnoc(ps[1..]);
      assert ps[1..][..|ps| - 2] == ps[..|ps| - 1][1..];
    }
  }

  /** An ordinary parameter is collected; a timestamp is read. */
  lemma {:induction false} ScanOne(sc: Scan, p: Param)
    requires p.Separable()
    ensures ScanPairs(sc, [p.Sent()])
         == Scan(sc.signature, if p.sentKey == TIMESTAMP then ParseU64(p.sentValue) else sc.timestamp, sc.params + [p.Sent()])
  {
    PrefixIff(SIGNATURE, p.sentKey, p.sentValue);
    PrefixIff(TIMESTAMP, p.sentKey, p.sentValue);
    assert ScanPairs(sc, [p.Sent()]) == ScanPairs(ScanPair(sc, p.Sent()), []);
  }

  /** The timestamp after scanning the parameters. */
  function LastTimestamp(ps: seq<Param>, start: Option<nat>): Option<nat> {
    if HasTimestamp(ps) then SentTimestamp(ps) else start
  }

  lemma {:induction false} LastTimestampSnoc(ps: seq<Param>, start: Option<nat>)
    ensures ps == [] ==> LastTimestamp(ps, start) == start
    ensures ps != [] ==>
              var (init, last) := (ps[..|ps| - 1], ps[|ps| - 1]);
              LastTimestamp(ps, start)
              == if last.sentKey == TIMESTAMP then ParseU64(last.sentValue) else LastTimestamp(init, start)
  {
    hide ParseU64;
    if ps != [] {
      var (init, last) := (ps[..|ps| - 1], ps[|ps| - 1]);
      assert forall p :: p in ps <==> p in init || p == last by {
        assert ps == init + [last];
      }
    }
  }

  /** Scanning ordinary parameters collects them and the last timestamp. */
  lemma {:induction false} ScanSent(sc: Scan, ps: seq<Param>)
    requires AllSeparable(ps)
    ensures ScanPairs(sc, SentPairs(ps)) == Scan(sc.signature, LastTimestamp(ps, sc.timestamp), sc.params + SentPairs(ps))
    decreases |ps|
  {
    LastTimestampSnoc(ps, sc.timestamp);
    hide LastTimestamp, ParseU64;
    if ps != [] {
      var (init, last) := (ps[..|ps| - 1], ps[|ps| - 1]);
      assert AllSeparable(init) && last.Separable() by {
        assert forall p | p in init :: p in ps;
        assert last in ps;
      }
      ScanSent(sc, init);
      SentSnoc(ps);
      ScanConcat(sc, SentPairs(init), [last.Sent()]);
      ScanOne(ScanPairs(sc, SentPairs(init)), last);
      hide ScanPairs, SentPairs, AllSeparable;
      assert (sc.params + SentPairs(init)) + [last.Sent()] == sc.params + (SentPairs(init) + [last.Sent()]);
    }
  }

  lemma {:induction false} SentPlain(ps: seq<Param>)
    requires AllSeparable(ps)
    ensures |SentPairs(ps)| == |ps| && forall p | p in SentPairs(ps) :: AMP !in p
  {
    if ps != [] {
      assert ps[0] in ps && forall p | p in ps[1..] :: p in ps;
      SentPlain(ps[1..]);
      assert ps[0].Separable();
    }
  }

  lemma {:induction false} SentConcat(a: seq<Param>, b: seq<Param>)
    ensures SentPairs(a + b) == SentPairs(a) + SentPairs(b)
  {
    if a == [] {
      assert a + b == b;
    } else {
      assert (a + b)[0] == a[0] && (a + b)[1..] == a[1..] + b;
      SentConcat(a[1..], b);
    }
  }

  predicate HasTimestamp(ps: seq<Param>) {
    exists p | p in ps :: p.sentKey == TIMESTAMP
  }

  lemma {:induction false} TimestampConcat(a: seq<Param>, b: seq<Param>)
    ensures SentTimestamp(a + b) == if HasTimestamp(b) then SentTimestamp(b) else SentTimestamp(a)
    decreases |b|
  {
    if b == [] {
      assert a + b == a;
    } else {
      var (init, last) := (b[..|b| - 1], b[|b| - 1]);
      assert (a + b)[..|a + b| - 1] == a + init && (a + b)[|a + b| - 1] == last;
      assert b == init + [last] && last in b && forall p | p in init :: p in b;
      TimestampConcat(a, init);
      NoTimestamp(b);
    }
  }

  lemma {:induction false} NoTimestamp(ps: seq<Param>)
    ensures !HasTimestamp(ps) ==> SentTimestamp(ps) == None
    decreases |ps|
  {
    if ps != [] {
      assert ps == ps[..|ps| - 1] + [ps[|ps| - 1]];
      assert ps[|ps| - 1] in ps && forall p | p in ps[..|ps| - 1] :: p in ps;
      NoTimestamp(ps[..|ps| - 1]);
    }
  }

  lemma {:induction false} SplitSigned(before: seq<Param>, sig: Bytes, after: seq<Param>)
    requires AllSeparable(before) && AllSeparable(after) && AMP !in sig
    ensures
      var pairs := SentPairs(before) + [sig] + SentPairs(after);
      Split(Join(pairs, AMP), AMP) == pairs
  {
    SentPlain(before);
    SentPlain(after);
    SplitJoin(SentPairs(before) + [sig] + SentPairs(after), AMP);
  }

  lemma {:induction false} ScanSignature(sc: Scan, signature: Bytes)
    ensures ScanPairs(sc, [SIGNATURE + [EQUALS] + signature]) == sc.(signature := Some(signature))
  {
  }

  /** What the server reads from a signed query: the signature, wherever it stands, the last
      timestamp, and the other pairs in their order. */
  lemma {:induction false} ScanSigned(before: seq<Param>, signature: Bytes, after: seq<Param>)
    requires AllSeparable(before + after) && AMP !in signature
    ensures ScanQuery(SignedQuery(before, signature, after))
         == Scan(Some(signature), SentTimestamp(before + after), SentPairs(before + after))
  {
    var sig := SIGNATURE + [EQUALS] + signature;
    assert forall p | p in before :: p in before + after;
    assert forall p | p in after :: p in before + after;
    SplitSigned(before, sig, after);
    var start := Scan(None, None, []);
    ScanConcat(start, SentPairs(before) + [sig], SentPairs(after));
    ScanConcat(start, SentPairs(before), [sig]);
    ScanSent(start, before);
    NoTimestamp(before);
    var mid := Scan(None, SentTimestamp(before), SentPairs(before));
    assert start.params + SentPairs(before) == SentPairs(before);
    ScanSignature(mid, signature);
    ScanSent(mid.(signature := Some(signature)), after);
    SentConcat(before, after);
    TimestampConcat(before, after);
  }

  lemma {:induction false} DecodeSent(ps: seq<Param>)
    requires AllSeparable(ps) && forall p | p in ps :: p.Faithful()
    ensures DecodePairs(SentPairs(ps)) == RawPairs(ps)
  {
    if ps != [] {
      var p := ps[0];
      assert p in ps && forall q | q in ps[1..] :: q in ps;
      assert p.Separable() && p.Faithful();
      KeyValueOf(p.sentKey, p.sentValue);
      DecodeInverts(p.sentKey, p.key);
      DecodeInverts(p.sentValue, p.value);
      DecodeSent(ps[1..]);
    }
  }

  /** What is signed: the parameters, followed by the body if it is text. */
  lemma {:induction false} SignedText(params: Bytes, body: Bytes)
    ensures WithBody(params, body) == params + (if Valid(body) then body else [])
  {
    assert params + [] == params;
  }

  /** A client that signs the raw pairs joined by `&` and followed by the body, then lets its library
      percent-encode keys and values, is accepted whenever its clock is within 60 000 ms either way. */
  lemma {:induction false} RawSigningAccepted(before: seq<Param>, after: seq<Param>, body: Bytes, now: nat, mac: Bytes -> Bytes)
    requires AllSeparable(before + after) && forall p | p in before + after :: p.Faithful()
    requires SentTimestamp(before + after).Some?
    requires SentTimestamp(before + after).value - 60_000 <= now <= SentTimestamp(before + after).value + 60_000
    requires AMP !in mac(Join(RawPairs(before + after), AMP) + (if Valid(body) then body else []))
    ensures
      var signature := mac(Join(RawPairs(before + after), AMP) + (if Valid(body) then body else []));
      Verify(SignedQuery(before, signature, after), body, now, mac) == Accepted
  {
    var payload := Join(RawPairs(before + after), AMP);
    SignedText(payload, body);
    AcceptedIff(before, mac(payload + (if Valid(body) then body else [])), after, body, now, mac);
  }

  /** A client that signs the query as sent, followed by the body, is accepted too, however it encodes. */
  lemma {:induction false} EncodedSigningAccepted(before: seq<Param>, after: seq<Param>, body: Bytes, now: nat,
                                                  mac: Bytes -> Bytes)
    requires AllSeparable(before + after)
    requires SentTimestamp(before + after).Some?
    requires SentTimestamp(before + after).value - 60_000 <= now <= SentTimestamp(before + after).value + 60_000
    requires AMP !in mac(Join(SentPairs(before + after), AMP) + (if Valid(body) then body else []))
    ensures
      var signature := mac(Join(SentPairs(before + after), AMP) + (if Valid(body) then body else []));
      Verify(SignedQuery(before, signature, after), body, now, mac) == Accepted
  {
    var (ps, sent) := (before + after, Join(SentPairs(before + after), AMP));
    var signature := mac(sent + (if Valid(body) then body else []));
    var sc := Scan(Some(signature), SentTimestamp(ps), SentPairs(ps));
    assert InWindow(SentTimestamp(ps).value, now);
    hide *;
    ScanSigned(before, signature, after);
    SignedText(sent, body);
    VerifyScanned(SignedQuery(before, signature, after), body, now, mac, sc);
  }

  lemma {:induction false} VerifyScanned(query: Bytes, body: Bytes, now: nat, mac: Bytes -> Bytes, sc: Scan)
    requires ScanQuery(query) == sc && sc.signature.Some?
    ensures
      var (sent, raw) := (WithBody(Join(sc.params, AMP), body), WithBody(Join(DecodePairs(sc.params), AMP), body));
      Verify(query, body, now, mac)
      == if sc.timestamp.None? then MissingTimestamp
         else if !InWindow(sc.timestamp.value, now) then OutsideWindow
         else if sc.signature.value == mac(sent) || sc.signature.value == mac(raw) then Accepted
         else Mismatch(sc.signature.value, sent)
  {
    hide ScanQuery, WithBody, Join, DecodePairs, InWindow, Mismatch;
  }

  /** The verdict on a signed query in terms of the two texts its signature is compared with. */
  lemma {:induction false} VerifySigned(before: seq<Param>, signature: Bytes, after: seq<Param>, body: Bytes, now: nat,
                                        mac: Bytes -> Bytes)
    requires AllSeparable(before + after) && (forall p | p in before + after :: p.Faithful()) && AMP !in signature
    ensures
      var (ps, at) := (before + after, SentTimestamp(before + after));
      var text := if Valid(body) then body else [];
      var (sent, raw) := (Join(SentPairs(ps), AMP) + text, Join(RawPairs(ps), AMP) + text);
      Verify(SignedQuery(before, signature, after), body, now, mac)
      == if at.None? then MissingTimestamp
         else if !InWindow(at.value, now) then OutsideWindow
         else if signature == mac(sent) || signature == mac(raw) then Accepted
         else Mismatch(signature, sent)
  {
    var ps := before + after;
    var sc := Scan(Some(signature), SentTimestamp(ps), SentPairs(ps));
    hide *;
    ScanSigned(before, signature, after);
    DecodeSent(ps);
    SignedText(Join(SentPairs(ps), AMP), body);
    SignedText(Join(RawPairs(ps), AMP), body);
    VerifyScanned(SignedQuery(before, signature, after), body, now, mac, sc);
  }

  /** For any sent parameters and any signature text the verdict is decided by the clock and the
      two texts alone; outside the window nothing is accepted. */
  lemma {:induction false} AcceptedIff(before: seq<Param>, signature: Bytes, after: seq<Param>, body: Bytes, now: nat,
                                       mac: Bytes -> Bytes)
    requires AllSeparable(before + after) && (forall p | p in before + after :: p.Faithful()) && AMP !in signature
    ensures
      var (ps, at) := (before + after, SentTimestamp(before + after));
      var text := if Valid(body) then body else [];
      Verify(SignedQuery(before, signature, after), body, now, mac) == Accepted
      <==> at.Some? && at.value - 60_000 <= now <= at.value + 60_000
           && (signature == mac(Join(SentPairs(ps), AMP) + text) || signature == mac(Join(RawPairs(ps), AMP) + text))
  {
    VerifySigned(before, signature, after, body, now, mac);
  }

  /** A timely request with a wrong signature crashes the handler exactly when the log line would
      end inside a character: after 16 bytes of the signature or 100 of the text as received. */
  lemma {:induction false} CrashedIff(before: seq<Param>, signature: Bytes, after: seq<Param>, body: Bytes, now: nat,
                                      mac: Bytes -> Bytes)
    requires AllSeparable(before + after) && (forall p | p in before + after :: p.Faithful()) && AMP !in signature
    ensures
      var (ps, at) := (before + after, SentTimestamp(before + after));
      var text := if Valid(body) then body else [];
      var sent := Join(SentPairs(ps), AMP) + text;
      Verify(SignedQuery(before, signature, after), body, now, mac) == Crashed
      <==> at.Some? && at.value - 60_000 <= now <= at.value + 60_000
           && signature != mac(sent) && signature != mac(Join(RawPairs(ps), AMP) + text)
           && ((|signature| > 16 && 0x80 <= signature[16] < 0xC0) || (|sent| > 100 && 0x80 <= sent[100] < 0xC0))
  {
    VerifySigned(before, signature, after, body, now, mac);
  }

  /** Which error an unaccepted request gets. */
  lemma {:induction false} RejectedIff(before: seq<Param>, signature: Bytes, after: seq<Param>, body: Bytes, now: nat,
                                       mac: Bytes -> Bytes)
    requires AllSeparable(before + after) && (forall p | p in before + after :: p.Faithful()) && AMP !in signature
    ensures
      var at := SentTimestamp(before + after);
      var verdict := Verify(SignedQuery(before, signature, after), body, now, mac);
      && verdict != MissingSignature
      && (verdict == MissingTimestamp <==> at.None?)
      && (verdict == OutsideWindow <==> at.Some? && !(at.value - 60_000 <= now <= at.value + 60_000))
      && Verify(Join(SentPairs(before + after), AMP), body, now, mac) == MissingSignature
  {
    VerifySigned(before, signature, after, body, now, mac);
    UnsignedScan(before + after);
  }

  /** A query without a signature pair. */
  lemma {:induction false} UnsignedScan(ps: seq<Param>)
    requires AllSeparable(ps)
    ensures ScanQuery(Join(SentPairs(ps), AMP)).signature == None
  {
    var start := Scan(None, None, []);
    if ps == [] {
      assert ScanPairs(start, [[]]) == ScanPairs(ScanPair(start, []), []);
    } else {
      SentPlain(ps);
      SplitJoin(SentPairs(ps), AMP);
      ScanSent(start, ps);
    }
  }

  // ---- Unusual queries -----------------------------------------------------------------

  function Codes(s: string): (b: Bytes)
    requires forall i | 0 <= i < |s| :: s[i] < 128 as char
    ensures |b| == |s|
  {
    seq(|s|, i requires 0 <= i < |s| => s[i] as int)
  }

  /** The characters and names the scheme uses. */
  lemma {:induction false} Vocabulary()
    ensures [AMP, EQUALS, PERCENT, PLUS, SPACE] == Codes("&=%+ ")
    ensures SIGNATURE == Codes("signature") && TIMESTAMP == Codes("timestamp")
  {
  }

  function NonEmpty(pairs: seq<Bytes>): seq<Bytes> {
    if pairs == [] then [] else (if pairs[0] == [] then [] else [pairs[0]]) + NonEmpty(pairs[1..])
  }

  lemma {:induction false} ScanNonEmpty(sc: Scan, pairs: seq<Bytes>)
    ensures ScanPairs(sc, pairs) == ScanPairs(sc, NonEmpty(pairs))
    decreases |pairs|
  {
    if pairs != [] {
      ScanNonEmpty(ScanPair(sc, pairs[0]), pairs[1..]);
      if pairs[0] == [] {
        assert NonEmpty(pairs) == NonEmpty(pairs[1..]);
        assert ScanPair(sc, []) == sc;
      } else {
        assert NonEmpty(pairs)[0] == pairs[0] && NonEmpty(pairs)[1..] == NonEmpty(pairs[1..]);
      }
    }
  }

  /** Empty pairs, as in `a=1&&b=2`, are read as if they were not there. */
  lemma {:induction false} EmptyPairsIgnored(pairs: seq<Bytes>, body: Bytes, now: nat, mac: Bytes -> Bytes)
    requires NonEmpty(pairs) != [] && forall p | p in pairs :: AMP !in p
    ensures Verify(Join(pairs, AMP), body, now, mac) == Verify(Join(NonEmpty(pairs), AMP), body, now, mac)
  {
    hide *;
    NonEmptyFrom(pairs);
    ScanJoined(pairs);
    ScanJoined(NonEmpty(pairs));
    ScanNonEmpty(Scan(None, None, []), pairs);
    SameScan(Join(pairs, AMP), Join(NonEmpty(pairs), AMP), body, now, mac);
  }

  lemma {:induction false} ScanJoined(pairs: seq<Bytes>)
    requires pairs != [] && forall p | p in pairs :: AMP !in p
    ensures ScanQuery(Join(pairs, AMP)) == ScanPairs(Scan(None, None, []), pairs)
  {
    SplitJoin(pairs, AMP);
  }

  lemma {:induction false} SameScan(a: Bytes, b: Bytes, body: Bytes, now: nat, mac: Bytes -> Bytes)
    requires ScanQuery(a) == ScanQuery(b)
    ensures Verify(a, body, now, mac) == Verify(b, body, now, mac)
  {
    hide ScanQuery, Join, WithBody, DecodePairs;
  }

  lemma {:induction false} NonEmptyFrom(pairs: seq<Bytes>)
    ensures forall p | p in NonEmpty(pairs) :: p in pairs && p != []
    ensures NonEmpty(pairs) != [] ==> pairs != []
  {
    if pairs != [] {
      NonEmptyFrom(pairs[1..]);
      assert pairs == [pairs[0]] + pairs[1..];
    }
  }

  /** A parameter without `=` is decoded as one with an empty value. */
  lemma {:induction false} BareParameter(p: Bytes)
    requires EQUALS !in p
    ensures DecodePair(p) == DecodePair(p + [EQUALS]) == PercentDecode(p) + [EQUALS]
  {
    KeyValueOf(p, []);
    assert p + [EQUALS] + [] == p + [EQUALS];
    assert PercentDecode([]) == [];
  }

  // ---- Timestamps ----------------------------------------------------------------------

  /** Decimal digits, as clients write a timestamp. */
  function Digits(n: nat): Bytes {
    (if n < 10 then [] else Digits(n / 10)) + [48 + n % 10]
  }

  lemma {:induction false} ReadDigit(high: Bytes, d: nat)
    requires d < 10
    ensures ReadDecimal(high + [48 + d]) == match ReadDecimal(high) case Some(n) => Some(10 * n + d) case None => None
  {
    var s := high + [48 + d];
    assert s[..|s| - 1] == high;
  }

  lemma {:induction false} DigitsRead(n: nat)
    ensures ReadDecimal(Digits(n)) == Some(n) && Digits(n) != [] && Digits(n)[0] != PLUS
  {
    if n >= 10 {
      DigitsRead(n / 10);
      ReadDigit(Digits(n / 10), n % 10);
    } else {
      ReadDigit([], n);
      assert [] + [48 + n] == [48 + n];
    }
  }

  lemma {:induction false} OnlyDigitsRead(s: Bytes)
    ensures ReadDecimal(s).Some? <==> forall i | 0 <= i < |s| :: 48 <= s[i] <= 57
  {
    if s != [] {
      OnlyDigitsRead(s[..|s| - 1]);
    }
  }

  /** A timestamp parameter in decimal is read, unless a later one follows or it exceeds 64 bits; text
      that is not digits, with an optional `+`, is no timestamp. */
  lemma {:induction false} TimestampRead(before: seq<Param>, p: Param, after: seq<Param>, at: nat)
    requires p.sentKey == TIMESTAMP && forall q | q in after :: q.sentKey != TIMESTAMP
    ensures p.sentValue == Digits(at) ==>
              SentTimestamp(before + [p] + after) == if at < 0x1_0000_0000_0000_0000 then Some(at) else None
    ensures SentTimestamp(before + [p] + after).Some? ==>
              var text := if p.sentValue != [] && p.sentValue[0] == 43 then p.sentValue[1..] else p.sentValue;
              text != [] && forall i | 0 <= i < |text| :: 48 <= text[i] <= 57
  {
    TimestampConcat(before + [p], after);
    TimestampConcat(before, [p]);
    assert [p][..0] == [] && p in [p];
    DigitsRead(at);
    OnlyDigitsRead(if p.sentValue != [] && p.sentValue[0] == PLUS then p.sentValue[1..] else p.sentValue);
  }

  // ---- Plain requests ------------------------------------------------------------------

  predicate Ascii(s: Bytes) {
    forall i | 0 <= i < |s| :: s[i] < 0x80
  }

  predicate AllAscii(parts: seq<Bytes>) {
    forall p | p in parts :: Ascii(p)
  }

  lemma {:induction false} SplitAscii(s: Bytes, c: Byte)
    requires Ascii(s)
    ensures AllAscii(Split(s, c))
  {
    if c in s {
      var i := IndexOf(s, c);
      assert Ascii(s[..i]) && Ascii(s[i + 1..]);
      SplitAscii(s[i + 1..], c);
    }
  }

  lemma {:induction false} JoinAscii(parts: seq<Bytes>, c: Byte)
    requires c < 0x80 && AllAscii(parts)
    ensures Ascii(Join(parts, c))
  {
    if parts != [] {
      assert Ascii(parts[0]);
      JoinAscii(parts[1..], c);
    }
  }

  predicate AsciiScan(sc: Scan) {
    (sc.signature.Some? ==> Ascii(sc.signature.value)) && AllAscii(sc.params)
  }

  lemma {:induction false} ScanPairAscii(sc: Scan, p: Bytes)
    requires AsciiScan(sc) && Ascii(p)
    ensures AsciiScan(ScanPair(sc, p))
  {
    if SIGNATURE + [EQUALS] <= p {
      var n := |SIGNATURE + [EQUALS]|;
      assert forall i | 0 <= i < |p[n..]| :: p[n..][i] == p[n + i];
    }
  }

  lemma {:induction false} ScanAscii(sc: Scan, pairs: seq<Bytes>)
    requires AsciiScan(sc) && AllAscii(pairs)
    ensures AsciiScan(ScanPairs(sc, pairs))
    decreases |pairs|
  {
    if pairs != [] {
      assert Ascii(pairs[0]);
      ScanPairAscii(sc, pairs[0]);
      ScanAscii(ScanPair(sc, pairs[0]), pairs[1..]);
    }
  }

  lemma {:induction false} AsciiMismatch(signature: Bytes, params: Bytes, body: Bytes)
    requires Ascii(signature) && Ascii(params) && Ascii(body)
    ensures Mismatch(signature, WithBody(params, body)) == InvalidSignature
  {
  }

  /** So it never happens to a request whose query and body are ASCII, whatever it says. */
  lemma {:induction false} AsciiNeverCrashes(query: Bytes, body: Bytes, now: nat, mac: Bytes -> Bytes)
    requires Ascii(query) && Ascii(body)
    ensures Verify(query, body, now, mac) != Crashed
  {
    SplitAscii(query, AMP);
    ScanAscii(Scan(None, None, []), Split(query, AMP));
    var sc := ScanQuery(query);
    assert AsciiScan(sc);
    JoinAscii(sc.params, AMP);
    if sc.signature.Some? {
      AsciiMismatch(sc.signature.value, Join(sc.params, AMP), body);
    }
    hide Mismatch, ScanQuery, Join, WithBody, Ascii, DecodePairs;
  }
}
