/** UTF-8 well-formedness (RFC 3629, section 4) and lossy decoding of byte strings.

    Text is kept as its UTF-8 bytes.  `Lossy` replaces each maximal ill-formed part by
    U+FFFD, as Rust's `String::from_utf8_lossy` does. */
module Utf8 {

  type Byte = b: int | 0 <= b < 256

  type Bytes = seq<Byte>

  const REPLACEMENT: Bytes := [0xEF, 0xBF, 0xBD]

  predicate Tail(b: Bytes, i: nat) {
    i < |b| && 0x80 <= b[i] <= 0xBF
  }

  /** The second byte may be restricted by the first one. */
  predicate SecondOk(b: Bytes)
    requires b != []
  {
    |b| > 1 &&
    if b[0] == 0xE0 then 0xA0 <= b[1] <= 0xBF
    else if b[0] == 0xED then 0x80 <= b[1] <= 0x9F
    else if b[0] == 0xF0 then 0x90 <= b[1] <= 0xBF
    else if b[0] == 0xF4 then 0x80 <= b[1] <= 0x8F
    else 0x80 <= b[1] <= 0xBF
  }

  /** Bytes the first byte announces; 0 for a byte that starts no character. */
  function Announced(first: Byte): nat {
    if first < 0x80 then 1
    else if 0xC2 <= first <= 0xDF then 2
    else if 0xE0 <= first <= 0xEF then 3
    else if 0xF0 <= first <= 0xF4 then 4
    else 0
  }

  /** How many leading bytes of `b` agree with some well-formed character. */
  function Agreeing(b: Bytes): (n: nat)
    requires b != []
    ensures n <= |b| && n <= 4 && n <= Announced(b[0])
  {
    var k := Announced(b[0]);
    if k <= 1 then k
    else if !SecondOk(b) then 1
    else if k == 2 || !Tail(b, 2) then 2
    else if k == 3 || !Tail(b, 3) then 3
    else 4
  }

  predicate StartsWithChar(b: Bytes) {
    b != [] && Agreeing(b) == Announced(b[0]) > 0
  }

  predicate Valid(b: Bytes) {
    b == [] || (StartsWithChar(b) && Valid(b[Agreeing(b)..]))
  }

  function Lossy(b: Bytes): Bytes {
    if b == [] then []
    else if StartsWithChar(b) then b[..Agreeing(b)] + Lossy(b[Agreeing(b)..])
    else REPLACEMENT + Lossy(b[if Agreeing(b) == 0 then 1 else Agreeing(b)..])
  }

  lemma {:induction false} CharPrefix(b: Bytes, rest: Bytes)
    requires StartsWithChar(b)
    ensures
      var c := b[..Agreeing(b)] + rest;
      StartsWithChar(c) && Agreeing(c) == Agreeing(b) && c[Agreeing(c)..] == rest
  {
  }

  lemma {:induction false} LossyOfValid(b: Bytes)
    requires Valid(b)
    ensures Lossy(b) == b
  {
    if b != [] {
      LossyOfValid(b[Agreeing(b)..]);
      assert b == b[..Agreeing(b)] + b[Agreeing(b)..];
    }
  }

  lemma {:induction false} LossyIsValid(b: Bytes)
    ensures Valid(Lossy(b))
  {
    if b == [] {
    } else if StartsWithChar(b) {
      LossyIsValid(b[Agreeing(b)..]);
      CharPrefix(b, Lossy(b[Agreeing(b)..]));
    } else {
      var rest := b[if Agreeing(b) == 0 then 1 else Agreeing(b)..];
      LossyIsValid(rest);
      assert REPLACEMENT[..3] == REPLACEMENT;
      CharPrefix(REPLACEMENT, Lossy(rest));
    }
  }

  /** Lossy decoding changes nothing exactly on well-formed input. */
  lemma {:induction false} LossyIdentityIff(b: Bytes)
    ensures Lossy(b) == b <==> Valid(b)
  {
    LossyIsValid(b);
    if Valid(b) { LossyOfValid(b); }
  }
  // ---- Characters ----------------------------------------------------------------------

  /** Unicode scalar values: code points without the surrogates. */
  type Scalar = c: int | 0 <= c < 0xD800 || 0xE000 <= c < 0x11_0000

  /** The bytes of one character. */
  function Encode(c: Scalar): Bytes {
    if c < 0x80 then [c]
    else if c < 0x800 then [0xC0 + c / 64, 0x80 + c % 64]
    else if c < 0x1_0000 then [0xE0 + c / 4096, 0x80 + c / 64 % 64, 0x80 + c % 64]
    else [0xF0 + c / 262144, 0x80 + c / 4096 % 64, 0x80 + c / 64 % 64, 0x80 + c % 64]
  }

  function EncodeAll(text: seq<Scalar>): Bytes {
    if text == [] then [] else Encode(text[0]) + EncodeAll(text[1..])
  }

  lemma {:induction false} EncodedChar(c: Scalar)
    ensures StartsWithChar(Encode(c)) && Agreeing(Encode(c)) == |Encode(c)|
  {
  }

  lemma {:induction false} EncodedIsValid(text: seq<Scalar>)
    ensures Valid(EncodeAll(text))
  {
    if text != [] {
      EncodedIsValid(text[1..]);
      EncodedChar(text[0]);
      assert Encode(text[0])[..|Encode(text[0])|] == Encode(text[0]);
      CharPrefix(Encode(text[0]), EncodeAll(text[1..]));
    }
  }

  /** The six bits a continuation byte carries. */
  function Low(b: Byte): int {
    b as int - 0x80
  }

  lemma {:induction false} TwoBytes(a: int, x: int)
    requires 0 <= x < 64
    ensures (a * 64 + x) / 64 == a && (a * 64 + x) % 64 == x
  {
  }

  lemma {:induction false} ThreeBytes(a: int, x: int, y: int)
    requires 0 <= x < 64 && 0 <= y < 64
    ensures
      var c := a * 4096 + x * 64 + y;
      c / 4096 == a && c / 64 == a * 64 + x && c % 64 == y
  {
    TwoBytes(a * 64 + x, y);
  }

  lemma {:induction false} FourBytes(a: int, x: int, y: int, z: int)
    requires 0 <= x < 64 && 0 <= y < 64 && 0 <= z < 64
    ensures
      var c := a * 262144 + x * 4096 + y * 64 + z;
      c / 262144 == a && c / 4096 == a * 64 + x && c / 64 == a * 4096 + x * 64 + y && c % 64 == z
  {
    TwoBytes(a * 4096 + x * 64 + y, z);
    ThreeBytes(a * 64 + x, y, z);
  }

  lemma {:induction false} DecodeTwo(b: Bytes) returns (c: Scalar)
    requires StartsWithChar(b) && Announced(b[0]) == 2
    ensures Encode(c) == b[..2]
  {
    var a: int := b[0];
    TwoBytes(a - 0xC0, Low(b[1]));
    c := (a - 0xC0) * 64 + Low(b[1]);
  }

  lemma {:induction false} DecodeThree(b: Bytes) returns (c: Scalar)
    requires StartsWithChar(b) && Announced(b[0]) == 3
    ensures Encode(c) == b[..3]
  {
    var a: int := b[0];
    ThreeBytes(a - 0xE0, Low(b[1]), Low(b[2]));
    TwoBytes(a - 0xE0, Low(b[1]));
    c := (a - 0xE0) * 4096 + Low(b[1]) * 64 + Low(b[2]);
  }

  lemma {:induction false} DecodeFour(b: Bytes) returns (c: Scalar)
    requires StartsWithChar(b) && Announced(b[0]) == 4
    ensures Encode(c) == b[..4]
  {
    var a: int := b[0];
    FourBytes(a - 0xF0, Low(b[1]), Low(b[2]), Low(b[3]));
    TwoBytes(a - 0xF0, Low(b[1]));
    TwoBytes((a - 0xF0) * 64 + Low(b[1]), Low(b[2]));
    c := (a - 0xF0) * 262144 + Low(b[1]) * 4096 + Low(b[2]) * 64 + Low(b[3]);
  }

  lemma {:induction false} DecodeChar(b: Bytes) returns (c: Scalar)
    requires StartsWithChar(b)
    ensures Encode(c) == b[..Agreeing(b)]
  {
    var k := Announced(b[0]);
    if k == 1 {
      c := b[0];
    } else if k == 2 {
      c := DecodeTwo(b);
    } else if k == 3 {
      c := DecodeThree(b);
    } else {
      c := DecodeFour(b);
    }
  }

  lemma {:induction false} EncodeCons(c: Scalar, rest: seq<Scalar>)
    ensures EncodeAll([c] + rest) == Encode(c) + EncodeAll(rest)
  {
    hide Encode;
    assert ([c] + rest)[1..] == rest;
  }

  lemma {:induction false} DecodeAll(b: Bytes) returns (text: seq<Scalar>)
    requires Valid(b)
    ensures EncodeAll(text) == b
  {
    hide Encode, Agreeing;
    if b == [] {
      text := [];
    } else {
      var c := DecodeChar(b);
      var rest := DecodeAll(b[Agreeing(b)..]);
      hide *;
      text := [c] + rest;
      EncodeCons(c, rest);
      assert b == b[..Agreeing(b)] + b[Agreeing(b)..];
    }
  }

  /** A byte string is well formed exactly if it encodes some sequence of characters. */
  lemma {:induction false} ValidIff(b: Bytes)
    ensures Valid(b) <==> exists text :: EncodeAll(text) == b
  {
    if Valid(b) {
      var text := DecodeAll(b);
      assert EncodeAll(text) == b;
    }
    if exists text :: EncodeAll(text) == b {
      var text :| EncodeAll(text) == b;
      EncodedIsValid(text);
    }
  }
  lemma {:induction false} LossyOfChar(a: Bytes, rest: Bytes)
    requires StartsWithChar(a)
    ensures
      var n := Agreeing(a);
      Lossy(a[..n] + rest) == a[..n] + Lossy(rest)
  {
    var c := a[..Agreeing(a)] + rest;
    CharPrefix(a, rest);
    assert c[..Agreeing(a)] == a[..Agreeing(a)];
    hide StartsWithChar, Agreeing;
  }

  /** Lossy decoding copies text up to the first ill-formed part. */
  lemma {:induction false} LossyCopiesText(a: Bytes, rest: Bytes)
    requires Valid(a)
    ensures Lossy(a + rest) == a + Lossy(rest)
  {
    if a == [] {
      assert a + rest == rest;
    } else {
      var n := Agreeing(a);
      LossyCopiesText(a[n..], rest);
      LossyOfChar(a, a[n..] + rest);
      hide *;
      Regroup(a, n, rest);
      Regroup(a, n, Lossy(rest));
    }
  }

  lemma {:induction false} Regroup(a: Bytes, n: nat, rest: Bytes)
    requires n <= |a|
    ensures a[..n] + (a[n..] + rest) == a + rest
  {
  }

  lemma {:induction false} CharStarts(b: Bytes)
    ensures StartsWithChar(b) <==> exists c :: Encode(c) <= b
  {
    if StartsWithChar(b) {
      var c := DecodeChar(b);
      assert Encode(c) <= b;
    }
    if exists c :: Encode(c) <= b {
      var c :| Encode(c) <= b;
      EncodedChar(c);
      assert Encode(c)[..|Encode(c)|] == Encode(c) && b == Encode(c) + b[|Encode(c)|..];
      CharPrefix(Encode(c), b[|Encode(c)|..]);
    }
  }

  /** Where no character starts, U+FFFD stands for one to three bytes. */
  lemma {:induction false} LossyReplaces(b: Bytes)
    requires b != [] && forall c :: !(Encode(c) <= b)
    ensures exists k :: 1 <= k <= 3 && k <= |b| && Lossy(b) == Encode(0xFFFD) + Lossy(b[k..])
  {
    CharStarts(b);
    var k := if Agreeing(b) == 0 then 1 else Agreeing(b);
    assert Encode(0xFFFD) == [0xEF, 0xBF, 0xBD];
    assert Lossy(b) == Encode(0xFFFD) + Lossy(b[k..]);
  }
}
