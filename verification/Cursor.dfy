/** The opaque page cursor `<timestamp_millis>_<uuid>`: its printer, its parser, and the
    decimal and hexadecimal readers and writers they rest on. */
module Cursor {
  import opened Keyset
  import opened Wrappers

  const MIN_MILLIS: int := -8_334_601_228_800_000  // -262143-01-01T00:00:00.000Z
  const MAX_MILLIS: int := 8_210_266_876_799_999   // +262142-12-31T23:59:59.999Z
  const I64_MIN: int := -0x8000_0000_0000_0000
  const I64_MAX: int := 0x7FFF_FFFF_FFFF_FFFF

  // ---- Digits --------------------------------------------------------------------------

  function DigitChar(d: nat): char
    requires d < 16
  {
    "0123456789abcdef"[d]
  }

  /** The value of `c` as a digit of the given radix; letters count in either case. */
  function DigitValue(c: char, radix: nat): (v: Option<nat>)
    ensures v.Some? ==> v.value < radix
  {
    var d := if '0' <= c <= '9' then c as int - '0' as int
             else if 'a' <= c <= 'f' then c as int - 'a' as int + 10
             else if 'A' <= c <= 'F' then c as int - 'A' as int + 10
             else 16;
    if d < radix && d < 16 then Some(d) else None
  }

  /** The number written by `s`; None when some character is not a digit. */
  function ReadDigits(s: string, radix: nat): Option<nat> {
    if s == [] then Some(0)
    else
      match (ReadDigits(s[..|s| - 1], radix), DigitValue(s[|s| - 1], radix))
      case (Some(high), Some(low)) => Some(high * radix + low)
      case _ => None
  }

  function WriteNat(n: nat): (s: string) {
    (if n < 10 then "" else WriteNat(n / 10)) + [DigitChar(n % 10)]
  }

  function WriteHex(n: nat, width: nat): (s: string)
    ensures |s| == width
  {
    if width == 0 then "" else WriteHex(n / 16, width - 1) + [DigitChar(n % 16)]
  }

  function HexSpace(width: nat): nat {
    if width == 0 then 1 else 16 * HexSpace(width - 1)
  }

  lemma {:induction false} DigitRoundTrip(d: nat)
    requires d < 16
    ensures DigitValue(DigitChar(d), 16) == Some(d)
    ensures d < 10 ==> DigitValue(DigitChar(d), 10) == Some(d)
    ensures DigitChar(d) !in "_-+{}u"
    ensures d < 10 ==> '0' <= DigitChar(d) <= '9'
  {
  }

  lemma {:induction false} ReadLast(high: string, d: nat, radix: nat)
    requires d < 16 && DigitValue(DigitChar(d), radix) == Some(d)
    ensures ReadDigits(high + [DigitChar(d)], radix)
         == match ReadDigits(high, radix) case Some(n) => Some(n * radix + d) case None => None
  {
    var s := high + [DigitChar(d)];
    assert s[..|s| - 1] == high && s[|s| - 1] == DigitChar(d);
  }

  lemma {:induction false} WriteNatRoundTrip(n: nat)
    ensures WriteNat(n) != "" && ReadDigits(WriteNat(n), 10) == Some(n)
    ensures forall c | c in WriteNat(n) :: '0' <= c <= '9'
  {
    hide ReadDigits, DigitChar, DigitValue;
    DigitRoundTrip(n % 10);
    ReadNothing(10);
    if n < 10 {
      ReadLast("", n, 10);
    } else {
      WriteNatRoundTrip(n / 10);
      ReadLast(WriteNat(n / 10), n % 10, 10);
    }
  }

  lemma {:induction false} ReadNothing(radix: nat)
    ensures ReadDigits("", radix) == Some(0)
  {
  }

  lemma {:induction false} WriteHexRoundTrip(n: nat, width: nat)
    requires n < HexSpace(width)
    ensures ReadDigits(WriteHex(n, width), 16) == Some(n)
    ensures forall c | c in WriteHex(n, width) :: c !in "_-+{}u"
  {
    hide ReadDigits, DigitChar, DigitValue;
    if width == 0 {
      ReadNothing(16);
    } else {
      DigitRoundTrip(n % 16);
      WriteHexRoundTrip(n / 16, width - 1);
      ReadLast(WriteHex(n / 16, width - 1), n % 16, 16);
    }
  }

  // ---- Signed integers -----------------------------------------------------------------

  function WriteInt(i: int): string {
    if i < 0 then "-" + WriteNat(-i) else WriteNat(i)
  }

  /** `str::parse::<i64>`: an optional sign, then at least one digit, within range. */
  function ParseI64(s: string): Option<int> {
    var negative := s != "" && s[0] == '-';
    var digits := if s != "" && (s[0] == '-' || s[0] == '+') then s[1..] else s;
    match if digits == "" then None else ReadDigits(digits, 10)
    case None => None
    case Some(n) =>
      var i: int := if negative then -(n as int) else n;
      if I64_MIN <= i <= I64_MAX then Some(i) else None
  }

  lemma {:induction false} IntRoundTrip(i: int)
    requires I64_MIN <= i <= I64_MAX
    ensures ParseI64(WriteInt(i)) == Some(i)
    ensures '_' !in WriteInt(i)
  {
    hide ReadDigits, WriteNat;
    WriteNatRoundTrip(if i < 0 then -i else i);
    if i < 0 {
      assert WriteInt(i)[1..] == WriteNat(-i);
    } else {
      assert WriteInt(i)[0] in WriteNat(i);
    }
  }

  // ---- UUIDs ---------------------------------------------------------------------------

  predicate IsUuid(id: nat) {
    id < HexSpace(32)
  }

  /** The hyphenated 8-4-4-4-12 layout. */
  function Hyphenate(h: string): string
    requires |h| == 32
  {
    h[..8] + "-" + h[8..12] + "-" + h[12..16] + "-" + h[16..20] + "-" + h[20..]
  }

  function WriteUuid(id: nat): string {
    Hyphenate(WriteHex(id, 32))
  }

  function ParseHyphenated(s: string): Option<nat> {
    if |s| == 36 && s[8] == '-' && s[13] == '-' && s[18] == '-' && s[23] == '-' then
      ReadDigits(s[..8] + s[9..13] + s[14..18] + s[19..23] + s[24..], 16)
    else
      None
  }

  /** `Uuid::parse_str`: plain, hyphenated, braced and URN forms. */
  function ParseUuid(s: string): Option<nat> {
    if |s| == 32 then ReadDigits(s, 16)
    else if |s| == 36 then ParseHyphenated(s)
    else if |s| == 38 && s[0] == '{' && s[37] == '}' then ParseHyphenated(s[1..37])
    else if |s| == 45 && s[..9] == "urn:uuid:" then ParseHyphenated(s[9..])
    else None
  }

  lemma {:induction false} UuidRoundTrip(id: nat)
    requires IsUuid(id)
    ensures ParseUuid(WriteUuid(id)) == Some(id)
  {
    hide ReadDigits, WriteHex, HexSpace;
    WriteHexRoundTrip(id, 32);
    var h := WriteHex(id, 32);
    var s := Hyphenate(h);
    assert s[..8] == h[..8] && s[9..13] == h[8..12] && s[14..18] == h[12..16];
    assert s[19..23] == h[16..20] && s[24..] == h[20..];
    assert h == h[..8] + h[8..12] + h[12..16] + h[16..20] + h[20..];
  }

  // ---- The cursor ----------------------------------------------------------------------

  /** Whole milliseconds, rounded towards the past also before 1970. */
  function Millis(ts: int): int {
    ts / 1000
  }

  /** A key whose timestamp the date-time type can hold and whose id is a UUID. */
  predicate Representable(k: Key) {
    MIN_MILLIS <= Millis(k.ts) <= MAX_MILLIS && IsUuid(k.id)
  }

  /** The key a cursor stands for: the sub-millisecond part is lost. */
  function CursorKey(k: Key): Key {
    Key(Millis(k.ts) * 1000, k.id)
  }

  function BuildCursor(k: Key): string {
    WriteInt(Millis(k.ts)) + "_" + WriteUuid(k.id)
  }

  function SplitOnce(s: string, c: char): Option<(string, string)> {
    if s == "" then None
    else if s[0] == c then Some(("", s[1..]))
    else
      match SplitOnce(s[1..], c)
      case None => None
      case Some((l, r)) => Some(([s[0]] + l, r))
  }

  function ParseCursor(s: string): Option<Key> {
    match SplitOnce(s, '_')
    case None => None
    case Some((tsText, idText)) =>
      match ParseI64(tsText)
      case None => None
      case Some(millis) =>
        if !(MIN_MILLIS <= millis <= MAX_MILLIS) then None
        else
          match ParseUuid(idText)
          case None => None
          case Some(id) => Some(Key(millis * 1000, id))
  }

  lemma {:induction false} SplitOnceAt(l: string, c: char, r: string)
    requires c !in l
    ensures SplitOnce(l + [c] + r, c) == Some((l, r))
  {
    var s := l + [c] + r;
    if l == "" {
      assert s[1..] == r;
    } else {
      assert s[1..] == l[1..] + [c] + r;
      SplitOnceAt(l[1..], c, r);
      assert [l[0]] + l[1..] == l;
    }
  }

  /** Reading back a printed cursor gives the key with its timestamp cut to milliseconds. */
  lemma {:induction false} CursorRoundTrip(k: Key)
    requires Representable(k)
    ensures ParseCursor(BuildCursor(k)) == Some(CursorKey(k))
  {
    IntRoundTrip(Millis(k.ts));
    UuidRoundTrip(k.id);
    SplitOnceAt(WriteInt(Millis(k.ts)), '_', WriteUuid(k.id));
  }

  /** Two keys print the same cursor exactly when they agree up to the lost microseconds. */
  lemma {:induction false} CursorsAgree(a: Key, b: Key)
    requires Representable(a) && Representable(b)
    ensures BuildCursor(a) == BuildCursor(b) <==> CursorKey(a) == CursorKey(b)
  {
    CursorRoundTrip(a);
    CursorRoundTrip(b);
  }

  lemma {:induction false} ReadHexBound(s: string)
    requires ReadDigits(s, 16).Some?
    ensures ReadDigits(s, 16).value < HexSpace(|s|)
  {
    if s != "" {
      ReadHexBound(s[..|s| - 1]);
    }
  }

  lemma {:induction false} ParseHyphenatedBound(s: string)
    requires ParseHyphenated(s).Some?
    ensures IsUuid(ParseHyphenated(s).value)
  {
    var h := s[..8] + s[9..13] + s[14..18] + s[19..23] + s[24..];
    assert |h| == 32;
    ReadHexBound(h);
  }

  lemma {:induction false} ParseUuidBound(s: string)
    requires ParseUuid(s).Some?
    ensures IsUuid(ParseUuid(s).value)
  {
    if |s| == 32 {
      ReadHexBound(s);
    } else {
      ParseHyphenatedBound(if |s| == 36 then s else if |s| == 38 then s[1..37] else s[9..]);
    }
  }

  /** Whatever spelling of a cursor a client sends, an accepted one denotes a printable key
      that survives being printed and read again. */
  lemma {:induction false} ParsedCursorIsCanonical(s: string)
    requires ParseCursor(s).Some?
    ensures Representable(ParseCursor(s).value)
    ensures ParseCursor(BuildCursor(ParseCursor(s).value)) == ParseCursor(s)
  {
    var k := ParseCursor(s).value;
    assert MIN_MILLIS <= Millis(k.ts) <= MAX_MILLIS && Millis(k.ts) * 1000 == k.ts;
    assert IsUuid(k.id) by {
      ParseUuidBound(SplitOnce(s, '_').value.1);
    }
    CursorRoundTrip(k);
  }

  /** A cursor never lies before the row it was built from: rows already sent stay excluded. */
  lemma {:induction false} CursorAtOrAfter(k: Key)
    ensures NotAfter(k, CursorKey(k))
    ensures CursorKey(k) == k <==> k.ts % 1000 == 0
  {
  }
  // ---- Which texts are cursors ---------------------------------------------------------

  function Zeros(n: nat): string {
    seq(n, _ => '0')
  }

  /** `t` is the decimal number `n`, with or without leading zeros. */
  ghost predicate SpellsNat(t: string, n: nat) {
    exists z: nat :: t == Zeros(z) + WriteNat(n)
  }

  lemma {:induction false} WriteNatSnoc(n: nat, d: nat)
    requires d < 10
    ensures WriteNat(10 * n + d) == if n == 0 then [DigitChar(d)] else WriteNat(n) + [DigitChar(d)]
  {
    assert (10 * n + d) / 10 == n && (10 * n + d) % 10 == d;
  }

  lemma {:induction false} ZerosRead(z: nat, t: string)
    ensures ReadDigits(Zeros(z) + t, 10) == ReadDigits(t, 10)
    decreases |t|
  {
    var s := Zeros(z) + t;
    if t != "" {
      assert s[..|s| - 1] == Zeros(z) + t[..|t| - 1];
      ZerosRead(z, t[..|t| - 1]);
    } else {
      assert s == Zeros(z);
      OnlyZerosRead(z);
    }
  }

  lemma {:induction false} OnlyZerosRead(z: nat)
    ensures ReadDigits(Zeros(z), 10) == Some(0)
  {
    if z > 0 {
      assert Zeros(z)[..z - 1] == Zeros(z - 1);
      OnlyZerosRead(z - 1);
    }
  }

  lemma {:induction false} DigitIs(c: char)
    ensures DigitValue(c, 10).Some? ==> DigitValue(c, 10).value < 10 && c == DigitChar(DigitValue(c, 10).value)
  {
  }

  lemma {:induction false} ReadSnoc(t: string)
    requires t != "" && ReadDigits(t, 10).Some?
    ensures
      var (init, last) := (t[..|t| - 1], DigitValue(t[|t| - 1], 10));
      && last.Some? && last.value < 10 && t == init + [DigitChar(last.value)] && ReadDigits(init, 10).Some?
      && ReadDigits(t, 10).value == 10 * ReadDigits(init, 10).value + last.value
      && (init == "" ==> ReadDigits(init, 10) == Some(0))
  {
    DigitIs(t[|t| - 1]);
  }

  lemma {:induction false} SpellsSnoc(init: string, n: nat, d: nat)
    requires SpellsNat(init, n) && d < 10
    ensures SpellsNat(init + [DigitChar(d)], 10 * n + d)
  {
    var z: nat :| init == Zeros(z) + WriteNat(n);
    WriteNatSnoc(n, d);
    if n == 0 {
      assert WriteNat(0) == [DigitChar(0)] == "0";
      assert init == Zeros(z + 1);
      hide WriteNat, DigitChar;
      assert init + [DigitChar(d)] == Zeros(z + 1) + WriteNat(10 * n + d);
    } else {
      hide WriteNat, DigitChar, Zeros;
      assert init + [DigitChar(d)] == Zeros(z) + WriteNat(10 * n + d);
    }
  }

  lemma {:induction false} ReadSpells(t: string)
    requires t != "" && ReadDigits(t, 10).Some?
    ensures SpellsNat(t, ReadDigits(t, 10).value)
  {
    ReadSnoc(t);
    var (init, d) := (t[..|t| - 1], DigitValue(t[|t| - 1], 10).value);
    hide ReadDigits, DigitValue, DigitChar;
    if init == "" {
      WriteNatSnoc(0, d);
      assert t == Zeros(0) + WriteNat(d);
    } else {
      hide SpellsNat;
      ReadSpells(init);
      SpellsSnoc(init, ReadDigits(init, 10).value, d);
    }
  }

  lemma {:induction false} NatIff(t: string, n: nat)
    ensures t != "" && ReadDigits(t, 10) == Some(n) <==> SpellsNat(t, n)
  {
    if t != "" && ReadDigits(t, 10) == Some(n) {
      ReadSpells(t);
    }
    if SpellsNat(t, n) {
      var z: nat :| t == Zeros(z) + WriteNat(n);
      WriteNatRoundTrip(n);
      ZerosRead(z, WriteNat(n));
    }
  }

  /** `t` is the number `i`: digits behind an optional sign. */
  ghost predicate SpellsInt(t: string, i: int) {
    || (i >= 0 && SpellsNat(t, i))
    || (i >= 0 && t != "" && t[0] == '+' && SpellsNat(t[1..], i))
    || (i <= 0 && t != "" && t[0] == '-' && SpellsNat(t[1..], -i))
  }

  lemma {:induction false} NoSign(t: string, n: nat)
    requires SpellsNat(t, n)
    ensures t != "" && t[0] != '-' && t[0] != '+'
  {
    var z: nat :| t == Zeros(z) + WriteNat(n);
    WriteNatRoundTrip(n);
    assert t[0] == '0' || t[0] == WriteNat(n)[0];
    assert WriteNat(n)[0] in WriteNat(n);
  }

  lemma {:induction false} IntIff(t: string, i: int)
    ensures ParseI64(t) == Some(i) <==> I64_MIN <= i <= I64_MAX && SpellsInt(t, i)
  {
    var digits := if t != "" && (t[0] == '-' || t[0] == '+') then t[1..] else t;
    var abs: nat := if i < 0 then -i else i;
    NatIff(digits, abs);
    if SpellsNat(t, abs) { NoSign(t, abs); }
    hide ReadDigits, SpellsNat;
  }

  /** `h` is the hexadecimal text `w` in any case. */
  predicate SameHex(h: string, w: string) {
    |h| == |w| && forall i | 0 <= i < |h| :: h[i] == w[i] || ('a' <= w[i] <= 'f' && h[i] as int == w[i] as int - 32)
  }

  lemma {:induction false} HexDigitIff(c: char, d: nat)
    requires d < 16
    ensures DigitValue(c, 16) == Some(d) <==> SameHex([c], [DigitChar(d)])
  {
  }

  lemma {:induction false} SameHexSnoc(h: string, c: char, w: string, d: char)
    requires |h| == |w|
    ensures SameHex(h + [c], w + [d]) <==> SameHex(h, w) && SameHex([c], [d])
  {
    if SameHex(h + [c], w + [d]) {
      assert forall i | 0 <= i < |h| :: (h + [c])[i] == h[i] && (w + [d])[i] == w[i];
      assert (h + [c])[|h|] == c && (w + [d])[|h|] == d;
    }
  }

  lemma {:induction false} HexSpaceStep(n: nat, width: nat)
    requires width > 0
    ensures n < HexSpace(width) <==> n / 16 < HexSpace(width - 1)
  {
  }

  lemma {:induction false} ReadHexSnoc(init: string, c: char, n: nat)
    ensures ReadDigits(init + [c], 16) == Some(n) <==> ReadDigits(init, 16) == Some(n / 16) && DigitValue(c, 16) == Some(n % 16)
  {
    assert (init + [c])[..|init|] == init;
  }

  lemma {:induction false} WriteHexSnoc(n: nat, width: nat)
    requires width > 0
    ensures WriteHex(n, width) == WriteHex(n / 16, width - 1) + [DigitChar(n % 16)]
  {
  }

  lemma {:induction false} NoHex(n: nat)
    ensures ReadDigits("", 16) == Some(n) <==> n < HexSpace(0) && SameHex("", WriteHex(n, 0))
  {
  }

  lemma {:induction false} HexIff(h: string, n: nat)
    ensures ReadDigits(h, 16) == Some(n) <==> n < HexSpace(|h|) && SameHex(h, WriteHex(n, |h|))
  {
    hide *;
    if h == "" {
      NoHex(n);
    } else {
      var (init, c) := (h[..|h| - 1], h[|h| - 1]);
      assert h == init + [c];
      HexIff(init, n / 16);
      ReadHexSnoc(init, c, n);
      WriteHexSnoc(n, |h|);
      HexDigitIff(c, n % 16);
      SameHexSnoc(init, c, WriteHex(n / 16, |h| - 1), DigitChar(n % 16));
      HexSpaceStep(n, |h|);
    }
  }

  /** `u` is the UUID `id`: 32 hexadecimal digits in any case, plain or in the hyphenated layout, and
      the latter also in braces or as a URN. */
  ghost predicate SpellsUuid(u: string, id: nat) {
    IsUuid(id) && exists h ::
      && SameHex(h, WriteHex(id, 32))
      && (u == h || u == Hyphenate(h) || u == "{" + Hyphenate(h) + "}" || u == "urn:uuid:" + Hyphenate(h))
  }

  predicate HasHyphens(s: string) {
    |s| == 36 && s[8] == '-' && s[13] == '-' && s[18] == '-' && s[23] == '-'
  }

  function WithoutHyphens(s: string): string
    requires |s| == 36
  {
    s[..8] + s[9..13] + s[14..18] + s[19..23] + s[24..]
  }

  lemma {:induction false} HyphensBack(s: string)
    requires HasHyphens(s)
    ensures |WithoutHyphens(s)| == 32 && Hyphenate(WithoutHyphens(s)) == s
  {
    assert s == s[..8] + "-" + s[9..13] + "-" + s[14..18] + "-" + s[19..23] + "-" + s[24..];
  }

  lemma {:induction false} HyphensAway(h: string)
    requires |h| == 32
    ensures HasHyphens(Hyphenate(h)) && WithoutHyphens(Hyphenate(h)) == h
  {
    assert h == h[..8] + h[8..12] + h[12..16] + h[16..20] + h[20..];
  }

  lemma {:induction false} HyphenatedIs(s: string)
    ensures ParseHyphenated(s) == if HasHyphens(s) then ReadDigits(WithoutHyphens(s), 16) else None
  {
  }

  lemma {:induction false} HyphenatedIff(s: string, id: nat)
    ensures ParseHyphenated(s) == Some(id) <==> IsUuid(id) && exists h :: SameHex(h, WriteHex(id, 32)) && s == Hyphenate(h)
  {
    HyphenatedIs(s);
    hide ReadDigits, HexSpace, WriteHex, Hyphenate, ParseHyphenated, WithoutHyphens;
    if HasHyphens(s) {
      HyphensBack(s);
      HexIff(WithoutHyphens(s), id);
    }
    if IsUuid(id) && exists h :: SameHex(h, WriteHex(id, 32)) && s == Hyphenate(h) {
      var h :| SameHex(h, WriteHex(id, 32)) && s == Hyphenate(h);
      HyphensAway(h);
    }
  }

  lemma {:induction false} UuidIff(u: string, id: nat)
    ensures ParseUuid(u) == Some(id) <==> SpellsUuid(u, id)
  {
    hide ParseHyphenated, ReadDigits, WriteHex, HexSpace, SameHex, Hyphenate;
    HexIff(u, id);
    HyphenatedIff(u, id);
    if |u| == 38 { HyphenatedIff(u[1..37], id); }
    if |u| == 45 { HyphenatedIff(u[9..], id); }
    UuidForms(u, id);
  }

  /** The four forms, told apart by their lengths. */
  lemma {:induction false} UuidForms(u: string, id: nat)
    ensures
      var w := WriteHex(id, 32);
      SpellsUuid(u, id) <==> (IsUuid(id) && (
        if |u| == 32 then SameHex(u, w)
        else if |u| == 36 then exists h :: SameHex(h, w) && u == Hyphenate(h)
        else if |u| == 38 then u[0] == '{' && u[37] == '}' && exists h :: SameHex(h, w) && u[1..37] == Hyphenate(h)
        else |u| == 45 && u[..9] == "urn:uuid:" && exists h :: SameHex(h, w) && u[9..] == Hyphenate(h)))
  {
    hide WriteHex;
    forall h | SameHex(h, WriteHex(id, 32))
      ensures |Hyphenate(h)| == 36
      ensures ("{" + Hyphenate(h) + "}")[1..37] == Hyphenate(h) && ("urn:uuid:" + Hyphenate(h))[9..] == Hyphenate(h)
    {
    }
    if |u| == 38 && u[0] == '{' && u[37] == '}' { assert u == "{" + u[1..37] + "}"; }
    if |u| == 45 && u[..9] == "urn:uuid:" { assert u == "urn:uuid:" + u[9..]; }
  }

  lemma {:induction false} SplitOnceIff(s: string, c: char)
    ensures SplitOnce(s, c).None? <==> c !in s
    ensures SplitOnce(s, c).Some? ==> var (l, r) := SplitOnce(s, c).value; s == l + [c] + r && c !in l
  {
    if s != "" && s[0] != c {
      SplitOnceIff(s[1..], c);
    }
  }

  /** A number of milliseconds, an underscore and a UUID, each in any of its spellings. */
  ghost predicate SpellsCursor(s: string, k: Key) {
    exists t, u :: '_' !in t && s == t + ['_'] + u && SpellsInt(t, k.ts / 1000) && SpellsUuid(u, k.id)
  }

  lemma {:induction false} ParseSplit(s: string, t: string, u: string)
    requires SplitOnce(s, '_') == Some((t, u))
    ensures
      var (millis, id) := (ParseI64(t), ParseUuid(u));
      ParseCursor(s) == if millis.Some? && MIN_MILLIS <= millis.value <= MAX_MILLIS && id.Some?
                        then Some(Key(millis.value * 1000, id.value)) else None
  {
    hide SplitOnce, ParseI64, ParseUuid;
  }

  lemma {:induction false} SplitSpells(s: string, t: string, u: string, k: Key)
    requires SplitOnce(s, '_') == Some((t, u)) && k.ts % 1000 == 0 && Representable(k)
    ensures ParseCursor(s) == Some(k) <==> SpellsInt(t, k.ts / 1000) && SpellsUuid(u, k.id)
  {
    var millis := k.ts / 1000;
    assert millis * 1000 == k.ts && MIN_MILLIS <= millis <= MAX_MILLIS;
    hide *;
    ParseSplit(s, t, u);
    IntIff(t, millis);
    UuidIff(u, k.id);
  }

  /** Exactly which texts are cursors, and of which key: those that spell a representable one in whole
      milliseconds. Anything else is refused. */
  lemma {:induction false} CursorIff(s: string, k: Key)
    ensures ParseCursor(s) == Some(k) <==> k.ts % 1000 == 0 && Representable(k) && SpellsCursor(s, k)
  {
    if ParseCursor(s) == Some(k) {
      ParsedCursorIsCanonical(s);
      CursorRoundTrip(k);
      SplitOnceIff(s, '_');
      var (t, u) := SplitOnce(s, '_').value;
      SplitSpells(s, t, u, k);
    }
    if k.ts % 1000 == 0 && Representable(k) && SpellsCursor(s, k) {
      var t, u :| '_' !in t && s == t + ['_'] + u && SpellsInt(t, k.ts / 1000) && SpellsUuid(u, k.id);
      SplitOnceAt(t, '_', u);
      SplitSpells(s, t, u, k);
    }
    hide SpellsInt, SpellsUuid, ParseI64, ParseUuid, HexSpace, SplitOnce;
  }
}
