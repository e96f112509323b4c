/** Byte strings and the UTF-8 form of RFC 3629, as Go's unicode/utf8 decodes it: a byte that
    starts no well-formed rune is an error of width one. */
module Utf8 {

  type byte = b: int | 0 <= b < 256

  type Bytes = seq<byte>

  predicate Continuation(b: byte) {
    0x80 <= b < 0xC0
  }

  /** The width of the well-formed rune `s` starts with, 0 if there is none. */
  function RuneLen(s: Bytes): (n: nat)
    ensures n <= 4 && n <= |s|
  {
    if |s| == 0 then 0
    else if s[0] < 0x80 then 1
    else if 0xC2 <= s[0] < 0xE0 then
      if |s| >= 2 && Continuation(s[1]) then 2 else 0
    else if 0xE0 <= s[0] < 0xF0 then
      var lo := if s[0] == 0xE0 then 0xA0 else 0x80;
      var hi := if s[0] == 0xED then 0xA0 else 0xC0;
      if |s| >= 3 && lo <= s[1] < hi && Continuation(s[2]) then 3 else 0
    else if 0xF0 <= s[0] < 0xF5 then
      var lo := if s[0] == 0xF0 then 0x90 else 0x80;
      var hi := if s[0] == 0xF4 then 0x90 else 0xC0;
      if |s| >= 4 && lo <= s[1] < hi && Continuation(s[2]) && Continuation(s[3]) then 4 else 0
    else 0
  }

  predicate Valid(s: Bytes) {
    s == [] || (RuneLen(s) > 0 && Valid(s[RuneLen(s)..]))
  }

  /** The encoding of U+FFFD. */
  const REPLACEMENT: Bytes := [0xEF, 0xBF, 0xBD]

  /** Every byte that starts no rune becomes U+FFFD; runes are kept. */
  function Sanitize(s: Bytes): Bytes {
    var n := RuneLen(s);
    if s == [] then []
    else if n == 0 then REPLACEMENT + Sanitize(s[1..])
    else s[..n] + Sanitize(s[n..])
  }

  /** A rune is recognised whatever follows it. */
  lemma RuneLenPrefix(s: Bytes, t: Bytes)
    requires RuneLen(s) > 0
    ensures RuneLen(s[..RuneLen(s)] + t) == RuneLen(s)
  {
    var n := RuneLen(s);
    var u := s[..n] + t;
    assert forall i :: 0 <= i < n ==> u[i] == s[i];
  }

  lemma {:induction false} SanitizeIsValid(s: Bytes)
    ensures Valid(Sanitize(s))
  {
    if s != [] {
      var n := RuneLen(s);
      if n == 0 {
        SanitizeIsValid(s[1..]);
        var r := REPLACEMENT + Sanitize(s[1..]);
        assert RuneLen(r) == 3 && r[3..] == Sanitize(s[1..]);
      } else {
        SanitizeIsValid(s[n..]);
        RuneLenPrefix(s, Sanitize(s[n..]));
        assert (s[..n] + Sanitize(s[n..]))[n..] == Sanitize(s[n..]);
      }
    }
  }

  lemma {:induction false} SanitizeValid(s: Bytes)
    requires Valid(s)
    ensures Sanitize(s) == s
  {
    if s != [] {
      SanitizeValid(s[RuneLen(s)..]);
    }
  }

  lemma {:induction false} AsciiIsValid(s: Bytes)
    requires forall i :: 0 <= i < |s| ==> s[i] < 0x80
    ensures Valid(s)
  {
    if s != [] {
      AsciiIsValid(s[1..]);
    }
  }

  /** Sanitizing changes exactly the ill-formed strings. */
  lemma SanitizeFixesExactlyInvalid(s: Bytes)
    ensures Sanitize(s) == s <==> Valid(s)
  {
    SanitizeIsValid(s);
    if Valid(s) {
      SanitizeValid(s);
    }
  }

  /** The encoding of one scalar value; anything else becomes U+FFFD. */
  function EncodeRune(c: nat): Bytes {
    if c < 0x80 then [c]
    else if c < 0x800 then [0xC0 + c / 64, 0x80 + c % 64]
    else if 0xD800 <= c < 0xE000 || c >= 0x11_0000 then REPLACEMENT
    else if c < 0x1_0000 then [0xE0 + c / 4096, 0x80 + c / 64 % 64, 0x80 + c % 64]
    else [0xF0 + c / 262144, 0x80 + c / 4096 % 64, 0x80 + c / 64 % 64, 0x80 + c % 64]
  }

  // ----- Strings -----

  /** The bytes of a string. */
  function Encode(s: string): Bytes {
    if s == "" then [] else EncodeRune(s[0] as int) + Encode(s[1..])
  }

  predicate Scalar(c: nat) {
    c < 0xD800 || 0xE000 <= c < 0x11_0000
  }

  lemma RuneIsFirst(c: nat, rest: Bytes)
    requires Scalar(c)
    ensures RuneLen(EncodeRune(c) + rest) == |EncodeRune(c)| > 0
  {
    var r := EncodeRune(c);
    assert forall i :: 0 <= i < |r| ==> (r + rest)[i] == r[i];
  }

  /** The number a well-formed rune stands for. */
  function RuneValue(r: Bytes): int {
    match |r|
    case 1 => r[0] as int
    case 2 => (r[0] as int - 0xC0) * 64 + (r[1] as int - 0x80)
    case 3 => (r[0] as int - 0xE0) * 4096 + (r[1] as int - 0x80) * 64 + (r[2] as int - 0x80)
    case 4 =>
      (r[0] as int - 0xF0) * 262144 + (r[1] as int - 0x80) * 4096
      + (r[2] as int - 0x80) * 64 + (r[3] as int - 0x80)
    case _ => 0
  }

  lemma RuneValueIs(c: nat)
    requires Scalar(c)
    ensures RuneValue(EncodeRune(c)) == c
  {
    assert c / 4096 == c / 64 / 64 && c / 262144 == c / 64 / 64 / 64;
  }

  lemma {:induction false} EncodeIsValid(s: string)
    ensures Valid(Encode(s))
  {
    if s != "" {
      var r := EncodeRune(s[0] as int);
      RuneIsFirst(s[0] as int, Encode(s[1..]));
      EncodeIsValid(s[1..]);
      assert (r + Encode(s[1..]))[|r|..] == Encode(s[1..]);
    }
  }

  /** Different strings have different bytes. */
  lemma {:induction false} EncodeIsInjective(a: string, b: string)
    requires Encode(a) == Encode(b)
    ensures a == b
  {
    if a != "" {
      RuneIsFirst(a[0] as int, Encode(a[1..]));
    }
    if b != "" {
      RuneIsFirst(b[0] as int, Encode(b[1..]));
    }
    if a != "" && b != "" {
      var (r, q) := (EncodeRune(a[0] as int), EncodeRune(b[0] as int));
      assert r == Encode(a)[..|r|] && q == Encode(b)[..|q|];
      assert Encode(a[1..]) == Encode(a)[|r|..] && Encode(b[1..]) == Encode(b)[|q|..];
      RuneValueIs(a[0] as int);
      RuneValueIs(b[0] as int);
      EncodeIsInjective(a[1..], b[1..]);
      assert a == [a[0]] + a[1..] && b == [b[0]] + b[1..];
    }
  }

  /** Up to U+007F the bytes are the characters. */
  lemma {:induction false} AsciiText(s: string, b: Bytes)
    requires |s| == |b| && forall i :: 0 <= i < |s| ==> s[i] as int == b[i] < 0x80
    ensures Encode(s) == b
  {
    if s != "" {
      AsciiText(s[1..], b[1..]);
      assert b == [b[0]] + b[1..];
    }
  }

  /** A well-formed rune is the encoding of the scalar value it stands for. */
  lemma RuneIsEncoded(s: Bytes)
    requires RuneLen(s) > 0
    ensures var c := RuneValue(s[..RuneLen(s)]);
      c >= 0 && Scalar(c) && EncodeRune(c) == s[..RuneLen(s)]
  {
    var n := RuneLen(s);
    if n == 2 {
      TwoByteRune(s[..2]);
    } else if n == 3 {
      ThreeByteRune(s[..3]);
    } else if n == 4 {
      FourByteRune(s[..4]);
    }
  }

  lemma TwoByteRune(r: Bytes)
    requires |r| == 2 && 0xC2 <= r[0] < 0xE0 && Continuation(r[1])
    ensures 0x80 <= RuneValue(r) < 0x800 && EncodeRune(RuneValue(r)) == r
  {
    Sixth(r[0] as int - 0xC0, r[1] as int - 0x80);
  }

  lemma ThreeByteRune(r: Bytes)
    requires |r| == 3 && 0xE0 <= r[0] < 0xF0 && Continuation(r[1]) && Continuation(r[2])
    requires (r[0] == 0xE0 ==> r[1] >= 0xA0) && (r[0] == 0xED ==> r[1] < 0xA0)
    ensures 0x800 <= RuneValue(r) < 0x1_0000 && Scalar(RuneValue(r)) && EncodeRune(RuneValue(r)) == r
  {
    var (x, y, z) := (r[0] as int - 0xE0, r[1] as int - 0x80, r[2] as int - 0x80);
    Sixth(x * 64 + y, z);
    Sixth(x, y);
    SixthTwice(RuneValue(r));
  }

  lemma FourByteRune(r: Bytes)
    requires |r| == 4 && 0xF0 <= r[0] < 0xF5 && Continuation(r[1]) && Continuation(r[2]) && Continuation(r[3])
    requires (r[0] == 0xF0 ==> r[1] >= 0x90) && (r[0] == 0xF4 ==> r[1] < 0x90)
    ensures 0x1_0000 <= RuneValue(r) < 0x11_0000 && EncodeRune(RuneValue(r)) == r
  {
    var (x, y, z, w) := (r[0] as int - 0xF0, r[1] as int - 0x80, r[2] as int - 0x80, r[3] as int - 0x80);
    Sixth((x * 64 + y) * 64 + z, w);
    Sixth(x * 64 + y, z);
    Sixth(x, y);
    SixthTwice(RuneValue(r));
  }

  lemma Sixth(high: int, low: int)
    requires 0 <= low < 64
    ensures (high * 64 + low) / 64 == high && (high * 64 + low) % 64 == low
  {
  }

  lemma SixthTwice(n: int)
    ensures n / 4096 == n / 64 / 64 && n / 262144 == n / 64 / 64 / 64
  {
  }

  /** The string that some well-formed bytes are the encoding of. */
  lemma {:induction false} Decoded(b: Bytes) returns (s: string)
    requires Valid(b)
    ensures Encode(s) == b
    decreases |b|
  {
    s := "";
    if b != [] {
      var n := RuneLen(b);
      RuneIsEncoded(b);
      var rest := Decoded(b[n..]);
      s := [RuneValue(b[..n]) as char] + rest;
      assert s[1..] == rest;
      assert b == b[..n] + b[n..];
    }
  }

  /** Bytes are well-formed exactly when they are the encoding of some string. */
  lemma ValidIsEncoded(b: Bytes)
    ensures Valid(b) <==> exists s: string :: Encode(s) == b
  {
    if Valid(b) {
      var s := Decoded(b);
    }
    if s: string :| Encode(s) == b {
      EncodeIsValid(s);
    }
  }

  /** The examples of section 7 of RFC 3629, and U+FFFD. */
  lemma Rfc3629Examples()
    ensures EncodeRune(0x41) == [0x41] && EncodeRune(0x391) == [0xCE, 0x91]
    ensures EncodeRune(0x2262) == [0xE2, 0x89, 0xA2] && EncodeRune(0x233B4) == [0xF0, 0xA3, 0x8E, 0xB4]
    ensures EncodeRune(0xFFFD) == REPLACEMENT
  {
  }
}
