/** Base64 with the standard alphabet and padding (section 4 of RFC 4648), decoding as Go's
    encoding/base64 does: line breaks are ignored and the bytes before an error are returned. */
module Base64 {
  import opened Utf8

  const PAD: byte := 0x3D

  function Digit(v: int): byte
    requires 0 <= v < 64
  {
    if v < 26 then 0x41 + v
    else if v < 52 then 0x61 + (v - 26)
    else if v < 62 then 0x30 + (v - 52)
    else if v == 62 then 0x2B
    else 0x2F
  }

  /** The value of an alphabet character, -1 for any other byte. */
  function Value(c: byte): (v: int)
    ensures -1 <= v < 64
  {
    if 0x41 <= c <= 0x5A then c - 0x41
    else if 0x61 <= c <= 0x7A then c - 0x61 + 26
    else if 0x30 <= c <= 0x39 then c - 0x30 + 52
    else if c == 0x2B then 62
    else if c == 0x2F then 63
    else -1
  }

  /** The four digits of three bytes. */
  function Digits(b0: byte, b1: byte, b2: byte): (r: Bytes)
    ensures |r| == 4
  {
    [Digit(b0 / 4), Digit(b0 % 4 * 16 + b1 / 16), Digit(b1 % 16 * 4 + b2 / 64), Digit(b2 % 64)]
  }

  /** A short last group is completed with zero bits and padded to four characters. */
  function Encode(b: Bytes): Bytes {
    if |b| == 0 then []
    else if |b| == 1 then Digits(b[0], 0, 0)[..2] + [PAD, PAD]
    else if |b| == 2 then Digits(b[0], b[1], 0)[..3] + [PAD]
    else Digits(b[0], b[1], b[2]) + Encode(b[3..])
  }

  /** What was decoded before the end or the first error, and whether there was no error. */
  datatype Decoded = Decoded(bytes: Bytes, ok: bool)

  function First(v0: int, v1: int): byte
    requires 0 <= v0 < 64 && 0 <= v1 < 64
  {
    v0 * 4 + v1 / 16
  }

  function Second(v1: int, v2: int): byte
    requires 0 <= v1 < 64 && 0 <= v2 < 64
  {
    v1 % 16 * 16 + v2 / 4
  }

  function Third(v2: int, v3: int): byte
    requires 0 <= v2 < 64 && 0 <= v3 < 64
  {
    v2 % 4 * 64 + v3
  }

  /** Decodes quanta of four characters; only the last may be padded. */
  function DecodeQuanta(s: Bytes): Decoded {
    if |s| == 0 then Decoded([], true)
    else if |s| < 4 || Value(s[0]) < 0 || Value(s[1]) < 0 then Decoded([], false)
    else
      var (v0, v1, v2, v3) := (Value(s[0]), Value(s[1]), Value(s[2]), Value(s[3]));
      if v2 >= 0 && v3 >= 0 then
        var rest := DecodeQuanta(s[4..]);
        Decoded([First(v0, v1), Second(v1, v2), Third(v2, v3)] + rest.bytes, rest.ok)
      else if s[3] != PAD then Decoded([], false)
      else if v2 >= 0 then Decoded([First(v0, v1), Second(v1, v2)], |s| == 4)
      else if s[2] == PAD then Decoded([First(v0, v1)], |s| == 4)
      else Decoded([], false)
  }

  function StripNewlines(s: Bytes): (r: Bytes)
    ensures |r| <= |s|
  {
    if s == [] then []
    else (if s[0] == 0x0A || s[0] == 0x0D then [] else [s[0]]) + StripNewlines(s[1..])
  }

  function Decode(s: Bytes): Decoded {
    DecodeQuanta(StripNewlines(s))
  }

  lemma DigitValue(v: int)
    requires 0 <= v < 64
    ensures Value(Digit(v)) == v
    ensures Digit(v) != 0x0A && Digit(v) != 0x0D && Digit(v) != PAD
  {
  }

  /** One full quantum: three bytes survive four digits. */
  lemma Quantum(b0: byte, b1: byte, b2: byte)
    ensures First(b0 / 4, b0 % 4 * 16 + b1 / 16) == b0
    ensures Second(b0 % 4 * 16 + b1 / 16, b1 % 16 * 4 + b2 / 64) == b1
    ensures Third(b1 % 16 * 4 + b2 / 64, b2 % 64) == b2
  {
  }

  lemma DigitsHaveNoNewline(b0: byte, b1: byte, b2: byte)
    ensures forall d :: d in Digits(b0, b1, b2) ==> d != 0x0A && d != 0x0D
  {
  }

  lemma {:induction false} EncodeHasNoNewline(b: Bytes)
    ensures StripNewlines(Encode(b)) == Encode(b)
  {
    if |b| >= 3 {
      EncodeHasNoNewline(b[3..]);
      DigitsHaveNoNewline(b[0], b[1], b[2]);
      StripKeeps(Digits(b[0], b[1], b[2]), Encode(b[3..]));
    } else {
      if |b| > 0 {
        DigitsHaveNoNewline(b[0], if |b| == 2 then b[1] else 0, 0);
      }
      StripKeeps(Encode(b), []);
      assert Encode(b) + [] == Encode(b);
    }
  }

  lemma {:induction false} StripKeeps(q: Bytes, rest: Bytes)
    requires forall i :: 0 <= i < |q| ==> q[i] != 0x0A && q[i] != 0x0D
    ensures StripNewlines(q + rest) == q + StripNewlines(rest)
  {
    if q == [] {
      assert q + rest == rest;
    } else {
      StripKeeps(q[1..], rest);
      assert (q + rest)[1..] == q[1..] + rest;
    }
  }

  lemma DecodeFullQuantum(v0: int, v1: int, v2: int, v3: int, rest: Bytes)
    requires 0 <= v0 < 64 && 0 <= v1 < 64 && 0 <= v2 < 64 && 0 <= v3 < 64
    ensures DecodeQuanta([Digit(v0), Digit(v1), Digit(v2), Digit(v3)] + rest)
         == Decoded([First(v0, v1), Second(v1, v2), Third(v2, v3)] + DecodeQuanta(rest).bytes,
                    DecodeQuanta(rest).ok)
  {
    var s := [Digit(v0), Digit(v1), Digit(v2), Digit(v3)] + rest;
    DigitValue(v0);
    DigitValue(v1);
    DigitValue(v2);
    DigitValue(v3);
    assert s[4..] == rest;
  }

  lemma DecodePaddedQuantum(v0: int, v1: int, v2: int)
    requires 0 <= v0 < 64 && 0 <= v1 < 64 && 0 <= v2 < 64
    ensures DecodeQuanta([Digit(v0), Digit(v1), Digit(v2), PAD])
         == Decoded([First(v0, v1), Second(v1, v2)], true)
    ensures DecodeQuanta([Digit(v0), Digit(v1), PAD, PAD]) == Decoded([First(v0, v1)], true)
  {
    DigitValue(v0);
    DigitValue(v1);
    DigitValue(v2);
    assert Value(PAD) == -1;
  }

  lemma FullQuantumRoundTrip(b0: byte, b1: byte, b2: byte, rest: Bytes)
    ensures DecodeQuanta(Digits(b0, b1, b2) + rest)
         == Decoded([b0, b1, b2] + DecodeQuanta(rest).bytes, DecodeQuanta(rest).ok)
  {
    Quantum(b0, b1, b2);
    DecodeFullQuantum(b0 / 4, b0 % 4 * 16 + b1 / 16, b1 % 16 * 4 + b2 / 64, b2 % 64, rest);
  }

  lemma PaddedDigits(b0: byte, b1: byte)
    ensures Digits(b0, b1, 0)[..3] + [PAD]
         == [Digit(b0 / 4), Digit(b0 % 4 * 16 + b1 / 16), Digit(b1 % 16 * 4), PAD]
    ensures Digits(b0, 0, 0)[..2] + [PAD, PAD]
         == [Digit(b0 / 4), Digit(b0 % 4 * 16), PAD, PAD]
  {
  }

  lemma TwoByteRoundTrip(b0: byte, b1: byte)
    ensures DecodeQuanta(Digits(b0, b1, 0)[..3] + [PAD]) == Decoded([b0, b1], true)
  {
    var v0, v1, v2 := b0 / 4, b0 % 4 * 16 + b1 / 16, b1 % 16 * 4;
    assert First(v0, v1) == b0 && Second(v1, v2) == b1 by {
      Quantum(b0, b1, 0);
    }
    PaddedDigits(b0, b1);
    DecodePaddedQuantum(v0, v1, v2);
  }

  lemma OneByteRoundTrip(b0: byte)
    ensures DecodeQuanta(Digits(b0, 0, 0)[..2] + [PAD, PAD]) == Decoded([b0], true)
  {
    var v0, v1 := b0 / 4, b0 % 4 * 16;
    assert First(v0, v1) == b0 by {
      Quantum(b0, 0, 0);
    }
    PaddedDigits(b0, 0);
    DecodePaddedQuantum(v0, v1, 0);
  }

  lemma NoQuanta()
    ensures DecodeQuanta([]) == Decoded([], true)
  {
  }

  lemma {:induction false} QuantaRoundTrip(b: Bytes)
    ensures DecodeQuanta(Encode(b)) == Decoded(b, true)
  {
    hide Value, Digits, DecodeQuanta;
    NoQuanta();
    if |b| >= 3 {
      QuantaRoundTrip(b[3..]);
      FullQuantumRoundTrip(b[0], b[1], b[2], Encode(b[3..]));
      assert b == [b[0], b[1], b[2]] + b[3..];
    } else if |b| == 2 {
      TwoByteRoundTrip(b[0], b[1]);
      assert b == [b[0], b[1]];
    } else if |b| == 1 {
      OneByteRoundTrip(b[0]);
      assert b == [b[0]];
    }
  }

  /** Decoding undoes encoding, for every length modulo three. */
  lemma RoundTrip(b: Bytes)
    ensures Decode(Encode(b)) == Decoded(b, true)
  {
    EncodeHasNoNewline(b);
    QuantaRoundTrip(b);
  }

  // ----- Section 4 of RFC 4648 -----

  const UPPER := "ABCDEFGHIJKLMNOPQRSTUVWXYZ"
  const LOWER := "abcdefghijklmnopqrstuvwxyz"
  const OTHERS := "0123456789+/"
  const ALPHABET := UPPER + LOWER + OTHERS

  /** The alphabet and its reverse. */
  lemma AlphabetIs(v: int)
    requires 0 <= v < 64
    ensures Digit(v) == ALPHABET[v] as int
  {
    if v < 26 {
      assert UPPER[v] as int == 0x41 + v;
    } else if v < 52 {
      assert LOWER[v - 26] as int == 0x61 + (v - 26);
    } else {
      assert OTHERS[v - 52] as int == Digit(v);
    }
  }

  lemma ValueIsIndex(c: byte)
    ensures Value(c) == -1 ==> forall v :: 0 <= v < 64 ==> ALPHABET[v] as int != c
    ensures Value(c) >= 0 ==> ALPHABET[Value(c)] as int == c
  {
    if Value(c) >= 0 {
      AlphabetIs(Value(c));
    } else {
      forall v | 0 <= v < 64
        ensures ALPHABET[v] as int != c
      {
        AlphabetIs(v);
        DigitValue(v);
      }
    }
  }

  /** Four digits hold the 24 bits of three bytes, most significant first. */
  lemma DigitsHoldBits(b0: byte, b1: byte, b2: byte)
    ensures var d := Digits(b0, b1, b2);
      Value(d[0]) * 262144 + Value(d[1]) * 4096 + Value(d[2]) * 64 + Value(d[3]) == b0 * 65536 + b1 * 256 + b2
  {
    DigitValue(b0 / 4);
    DigitValue(b0 % 4 * 16 + b1 / 16);
    DigitValue(b1 % 16 * 4 + b2 / 64);
    DigitValue(b2 % 64);
    hide Value, Digit;
    assert b0 == b0 / 4 * 4 + b0 % 4 && b1 == b1 / 16 * 16 + b1 % 16 && b2 == b2 / 64 * 64 + b2 % 64;
  }

  /** The test vectors of section 10 of RFC 4648. */
  lemma Rfc4648Vectors()
    ensures Encode([]) == []
    ensures Encode([0x66]) == [0x5A, 0x67, 0x3D, 0x3D]                           // f: Zg==
    ensures Encode([0x66, 0x6F]) == [0x5A, 0x6D, 0x38, 0x3D]                     // fo: Zm8=
    ensures Encode([0x66, 0x6F, 0x6F]) == [0x5A, 0x6D, 0x39, 0x76]               // foo: Zm9v
    ensures Encode([0x66, 0x6F, 0x6F, 0x62]) == [0x5A, 0x6D, 0x39, 0x76, 0x59, 0x67, 0x3D, 0x3D]
  {
    var foob: Bytes := [0x66, 0x6F, 0x6F, 0x62];
    assert foob[3..] == [0x62];
    var foo: Bytes := [0x66, 0x6F, 0x6F];
    assert foo[3..] == [];
  }

  /** Whole groups of four characters of the alphabet, up to two of the last replaced by padding. */
  ghost predicate WellPadded(t: Bytes) {
    exists pads :: 0 <= pads <= 2 && HasPads(t, pads)
  }

  ghost predicate HasPads(t: Bytes, pads: int)
    requires 0 <= pads
  {
    && |t| % 4 == 0 && pads <= |t|
    && (forall i :: 0 <= i < |t| - pads ==> Value(t[i]) >= 0)
    && (forall i :: |t| - pads <= i < |t| ==> t[i] == PAD)
  }

  /** What is decoded without an error is exactly what is well padded once line breaks are removed. */
  lemma DecodesExactly(s: Bytes)
    ensures Decode(s).ok <==> WellPadded(StripNewlines(s))
  {
    QuantaDecodeExactly(StripNewlines(s));
  }

  lemma PadsOfRest(t: Bytes, pads: int)
    requires 0 <= pads <= 2 && |t| >= 4 && HasPads(t, pads) && Value(t[2]) >= 0 && Value(t[3]) >= 0
    ensures HasPads(t[4..], pads)
  {
    assert Value(PAD) == -1;
    assert pads > 0 ==> t[|t| - 1] == PAD && t[|t| - pads] == PAD;
  }

  lemma PadsOfWhole(t: Bytes, pads: int)
    requires 0 <= pads <= 2 && |t| >= 4 && HasPads(t[4..], pads)
    requires forall i :: 0 <= i < 4 ==> Value(t[i]) >= 0
    ensures HasPads(t, pads)
  {
    assert forall i :: 4 <= i < |t| ==> t[i] == t[4..][i - 4];
  }

  lemma {:induction false} QuantaDecodeExactly(t: Bytes)
    ensures DecodeQuanta(t).ok <==> WellPadded(t)
  {
    if t == [] {
      assert HasPads(t, 0);
    } else if |t| >= 4 && forall i :: 0 <= i < 4 ==> Value(t[i]) >= 0 {
      QuantaDecodeExactly(t[4..]);
      if pads :| 0 <= pads <= 2 && HasPads(t, pads) {
        PadsOfRest(t, pads);
      }
      if pads :| 0 <= pads <= 2 && HasPads(t[4..], pads) {
        PadsOfWhole(t, pads);
      }
    } else {
      LastQuantum(t);
    }
  }

  lemma LastQuantum(t: Bytes)
    requires t != [] && !(|t| >= 4 && forall i :: 0 <= i < 4 ==> Value(t[i]) >= 0)
    ensures DecodeQuanta(t).ok <==> WellPadded(t)
  {
    assert Value(PAD) == -1;
    if pads :| 0 <= pads <= 2 && HasPads(t, pads) {
      assert |t| == 4;
    }
    if DecodeQuanta(t).ok {
      assert |t| == 4 && t[3] == PAD;
      assert HasPads(t, if t[2] == PAD then 2 else 1);
    }
  }

  lemma {:induction false} StripConcat(a: Bytes, b: Bytes)
    ensures StripNewlines(a + b) == StripNewlines(a) + StripNewlines(b)
  {
    if a == [] {
      assert a + b == b;
    } else {
      StripConcat(a[1..], b);
      assert (a + b)[1..] == a[1..] + b;
      var first := if a[0] == 0x0A || a[0] == 0x0D then [] else [a[0]];
      Append(first, StripNewlines(a[1..]), StripNewlines(b));
    }
  }

  lemma Append(x: Bytes, y: Bytes, z: Bytes)
    ensures x + (y + z) == x + y + z
  {
  }

  /** A line break anywhere makes no difference. */
  lemma LineBreaksAreIgnored(a: Bytes, b: Bytes, c: byte)
    requires c == 0x0A || c == 0x0D
    ensures Decode(a + [c] + b) == Decode(a + b)
  {
    StripConcat(a + [c], b);
    StripConcat(a, [c]);
    StripConcat(a, b);
    assert [c][1..] == [] && StripNewlines([c]) == [];
    assert StripNewlines(a) + [] == StripNewlines(a);
  }
}
