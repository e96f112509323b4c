/** The JSON of one summary entry: strings as encoding/json writes and reads them (section 7 of
    RFC 8259, with Go's HTML escapes), and flat objects whose members are strings. */
module Json {
  import opened Seqs
  import opened Utf8

  const QUOTE: byte := 0x22
  const BACKSLASH: byte := 0x5C
  const NEWLINE: byte := 0x0A

  // ----- Strings -----

  function HexDigit(n: int): byte
    requires 0 <= n < 16
  {
    if n < 10 then 0x30 + n else 0x61 + (n - 10)
  }

  function HexValue(b: byte): (v: int)
    ensures -1 <= v < 16
  {
    if 0x30 <= b <= 0x39 then b - 0x30
    else if 0x61 <= b <= 0x66 then b - 0x61 + 10
    else if 0x41 <= b <= 0x46 then b - 0x41 + 10
    else -1
  }

  /** \uXXXX */
  function UnicodeEscape(c: nat): Bytes
    requires c < 0x1_0000
  {
    [BACKSLASH, 0x75, HexDigit(c / 4096), HexDigit(c / 256 % 16), HexDigit(c / 16 % 16), HexDigit(c % 16)]
  }

  /** The second byte of a two-byte escape, 0 if the character has none. */
  function ShortEscape(b: byte): byte {
    if b == QUOTE || b == BACKSLASH then b
    else if b == 0x08 then 0x62
    else if b == 0x0C then 0x66
    else if b == 0x0A then 0x6E
    else if b == 0x0D then 0x72
    else if b == 0x09 then 0x74
    else 0
  }

  function EscapeAscii(b: byte): Bytes
    requires b < 0x80
  {
    if ShortEscape(b) != 0 then [BACKSLASH, ShortEscape(b)]
    else if b < 0x20 || b == 0x3C || b == 0x3E || b == 0x26 then UnicodeEscape(b)
    else [b]
  }

  /** U+2028 and U+2029 */
  predicate LineSeparator(s: Bytes) {
    |s| >= 3 && s[0] == 0xE2 && s[1] == 0x80 && (s[2] == 0xA8 || s[2] == 0xA9)
  }

  /** The escape of the first rune of `s`, or of its first byte if that starts none. */
  function EscapeRune(s: Bytes): Bytes
    requires s != []
  {
    var n := RuneLen(s);
    if n == 0 then UnicodeEscape(0xFFFD)
    else if n == 1 then EscapeAscii(s[0])
    else if LineSeparator(s) then UnicodeEscape(if s[2] == 0xA8 then 0x2028 else 0x2029)
    else s[..n]
  }

  function Width(s: Bytes): (n: nat)
    requires s != []
    ensures 1 <= n <= |s|
  {
    if RuneLen(s) == 0 then 1 else RuneLen(s)
  }

  /** The body of the JSON string literal for `s`. */
  function Escape(s: Bytes): Bytes {
    if s == [] then [] else EscapeRune(s) + Escape(s[Width(s)..])
  }

  function Hex4(s: Bytes): (c: int)
    ensures -1 <= c < 0x1_0000
  {
    if |s| >= 6 && s[0] == BACKSLASH && s[1] == 0x75 && HexValue(s[2]) >= 0 && HexValue(s[3]) >= 0
       && HexValue(s[4]) >= 0 && HexValue(s[5]) >= 0
    then HexValue(s[2]) * 4096 + HexValue(s[3]) * 256 + HexValue(s[4]) * 16 + HexValue(s[5])
    else -1
  }

  /** The character a two-byte escape stands for. */
  function Unescaped(b: byte): Option<byte> {
    if b == QUOTE || b == BACKSLASH || b == 0x2F then Some(b)
    else if b == 0x62 then Some(0x08)
    else if b == 0x66 then Some(0x0C)
    else if b == 0x6E then Some(0x0A)
    else if b == 0x72 then Some(0x0D)
    else if b == 0x74 then Some(0x09)
    else None
  }

  /** One character of a string literal: the text it stands for and how many bytes it takes. */
  function ReadRune(s: Bytes): (r: Option<(Bytes, nat)>)
    requires s != []
    ensures r.Some? ==> 1 <= r.value.1 <= |s|
  {
    if s[0] == BACKSLASH then
      var c := Hex4(s);
      if c >= 0 then
        var low := Hex4(s[6..]);
        if 0xD800 <= c < 0xDC00 && 0xDC00 <= low < 0xE000 then
          Some((EncodeRune(0x1_0000 + (c - 0xD800) * 0x400 + (low - 0xDC00)), 12))
        else Some((EncodeRune(c), 6))
      else if |s| >= 2 && Unescaped(s[1]).Some? then Some(([Unescaped(s[1]).value], 2))
      else None
    else if s[0] == QUOTE || s[0] < 0x20 then None
    else if RuneLen(s) == 0 then Some((REPLACEMENT, 1))
    else Some((s[..RuneLen(s)], RuneLen(s)))
  }

  /** Reads a string literal after its opening quote: its text and what follows the closing one. */
  function ReadString(s: Bytes): (r: Option<(Bytes, Bytes)>)
    ensures r.Some? ==> |r.value.1| < |s|
    decreases |s|
  {
    if s == [] then None
    else if s[0] == QUOTE then Some(([], s[1..]))
    else match ReadRune(s)
      case None => None
      case Some((text, n)) =>
        match ReadString(s[n..])
        case None => None
        case Some((more, rest)) => Some((text + more, rest))
  }

  lemma HexRoundTrip(n: int)
    requires 0 <= n < 16
    ensures HexValue(HexDigit(n)) == n
  {
  }

  lemma FourHexDigits(c: nat)
    requires c < 0x1_0000
    ensures c == c / 4096 * 4096 + c / 256 % 16 * 256 + c / 16 % 16 * 16 + c % 16
  {
    assert c / 256 == c / 4096 * 16 + c / 256 % 16;
    assert c / 16 == c / 256 * 16 + c / 16 % 16;
  }

  lemma Hex4Digits(d0: int, d1: int, d2: int, d3: int, rest: Bytes)
    requires 0 <= d0 < 16 && 0 <= d1 < 16 && 0 <= d2 < 16 && 0 <= d3 < 16
    ensures Hex4([BACKSLASH, 0x75, HexDigit(d0), HexDigit(d1), HexDigit(d2), HexDigit(d3)] + rest)
         == d0 * 4096 + d1 * 256 + d2 * 16 + d3
  {
    HexRoundTrip(d0);
    HexRoundTrip(d1);
    HexRoundTrip(d2);
    HexRoundTrip(d3);
  }

  lemma Hex4RoundTrip(c: nat, rest: Bytes)
    requires c < 0x1_0000
    ensures Hex4(UnicodeEscape(c) + rest) == c
  {
    FourHexDigits(c);
    Hex4Digits(c / 4096, c / 256 % 16, c / 16 % 16, c % 16, rest);
  }

  lemma UnicodeEscapeReads(c: nat, rest: Bytes)
    requires c < 0xD800 || 0xE000 <= c < 0x1_0000
    ensures ReadRune(UnicodeEscape(c) + rest) == Some((EncodeRune(c), 6))
  {
    Hex4RoundTrip(c, rest);
  }

  lemma EscapeShape(c: nat)
    requires c < 0x1_0000
    ensures |UnicodeEscape(c)| == 6 && UnicodeEscape(c)[0] == BACKSLASH
  {
  }

  lemma SeparatorCodes()
    ensures EncodeRune(0x2028) == [0xE2, 0x80, 0xA8] && EncodeRune(0x2029) == [0xE2, 0x80, 0xA9]
  {
  }

  /** U+2028 and U+2029 are the two runes beyond ASCII that are escaped. */
  lemma SeparatorRoundTrip(s: Bytes, rest: Bytes)
    requires LineSeparator(s)
    ensures RuneLen(s) == 3 && EscapeRune(s)[0] == BACKSLASH && |EscapeRune(s)| == 6
    ensures ReadRune(EscapeRune(s) + rest) == Some((s[..3], 6))
  {
    hide UnicodeEscape, ReadRune, EncodeRune;
    var c: nat := if s[2] == 0xA8 then 0x2028 else 0x2029;
    UnicodeEscapeReads(c, rest);
    EscapeShape(c);
    SeparatorCodes();
    assert s[..3] == [s[0], s[1], s[2]];
  }

  lemma PlainRuneRoundTrip(s: Bytes, rest: Bytes)
    requires RuneLen(s) >= 2
    ensures ReadRune(s[..RuneLen(s)] + rest) == Some((s[..RuneLen(s)], RuneLen(s)))
  {
    var t := s[..RuneLen(s)] + rest;
    RuneLenPrefix(s, rest);
    assert t[0] == s[0] >= 0x80;
    assert t[..RuneLen(s)] == s[..RuneLen(s)];
  }

  /** What is written for a rune is read as that rune, and for a stray byte as U+FFFD. */
  lemma RuneRoundTrip(s: Bytes, rest: Bytes)
    requires s != []
    ensures ReadRune(EscapeRune(s) + rest)
         == Some((if RuneLen(s) == 0 then REPLACEMENT else s[..RuneLen(s)], |EscapeRune(s)|))
    ensures EscapeRune(s)[0] != QUOTE
  {
    var n := RuneLen(s);
    if n == 0 {
      UnicodeEscapeReads(0xFFFD, rest);
    } else if n == 1 {
      AsciiRoundTrip(s[0], rest);
      assert s[..1] == [s[0]];
    } else if LineSeparator(s) {
      SeparatorRoundTrip(s, rest);
    } else {
      PlainRuneRoundTrip(s, rest);
    }
  }

  lemma AsciiRoundTrip(b: byte, rest: Bytes)
    requires b < 0x80
    ensures ReadRune(EscapeAscii(b) + rest) == Some(([b], |EscapeAscii(b)|))
    ensures EscapeAscii(b)[0] != QUOTE
  {
    if ShortEscape(b) == 0 {
      if b < 0x20 || b == 0x3C || b == 0x3E || b == 0x26 {
        UnicodeEscapeReads(b, rest);
      } else {
        assert ([b] + rest)[..1] == [b];
      }
    }
  }

  /** Reading back a written string gives it sanitized. */
  lemma {:induction false} StringRoundTrip(s: Bytes, rest: Bytes)
    ensures ReadString(Escape(s) + [QUOTE] + rest) == Some((Sanitize(s), rest))
    decreases |s|
  {
    hide EscapeRune, ReadRune, RuneLen;
    if s == [] {
      assert Escape(s) + [QUOTE] + rest == [QUOTE] + rest;
    } else {
      var tail := s[Width(s)..];
      StringRoundTrip(tail, rest);
      var more := Escape(tail) + [QUOTE] + rest;
      var all := Escape(s) + [QUOTE] + rest;
      assert all == EscapeRune(s) + more;
      RuneRoundTrip(s, more);
      assert all[0] == EscapeRune(s)[0];
      assert all[|EscapeRune(s)|..] == more;
    }
  }

  /** Escaping keeps raw control characters, newlines among them, out of the literal. */
  lemma {:induction false} EscapeHasNoControl(s: Bytes)
    ensures forall b :: b in Escape(s) ==> b >= 0x20
    decreases |s|
  {
    if s != [] {
      EscapeHasNoControl(s[Width(s)..]);
      EscapeRuneHasNoControl(s);
    }
  }

  lemma EscapeRuneHasNoControl(s: Bytes)
    requires s != []
    ensures forall b :: b in EscapeRune(s) ==> b >= 0x20
  {
    var n := RuneLen(s);
    if n >= 2 {
      assert forall i :: 0 <= i < n ==> s[i] >= 0x80;
    }
  }

  // ----- Entries -----

  datatype Entry = Entry(name: Bytes, outcome: Bytes, message: Bytes)

  const BLANK := Entry([], [], [])

  /** "name", "outcome", "message" */
  const NAME: Bytes := [0x6E, 0x61, 0x6D, 0x65]
  const OUTCOME: Bytes := [0x6F, 0x75, 0x74, 0x63, 0x6F, 0x6D, 0x65]
  const MESSAGE: Bytes := [0x6D, 0x65, 0x73, 0x73, 0x61, 0x67, 0x65]

  const COLON: byte := 0x3A
  const COMMA: byte := 0x2C
  const OPEN: byte := 0x7B
  const CLOSE: byte := 0x7D

  function Literal(s: Bytes): Bytes {
    [QUOTE] + Escape(s) + [QUOTE]
  }

  function Member(key: Bytes, value: Bytes): Bytes {
    Literal(key) + [COLON] + Literal(value)
  }

  /** The members of an entry from one of them on, closed by `end`. */
  function FromMessage(e: Entry, end: Bytes): Bytes {
    Member(MESSAGE, e.message) + end
  }

  function FromOutcome(e: Entry, end: Bytes): Bytes {
    Member(OUTCOME, e.outcome) + [COMMA] + FromMessage(e, end)
  }

  function FromName(e: Entry, end: Bytes): Bytes {
    Member(NAME, e.name) + [COMMA] + FromOutcome(e, end)
  }

  /** json.Marshal of the summary entry struct. */
  function MarshalEntry(e: Entry): Bytes {
    [OPEN] + FromName(e, [CLOSE])
  }

  function SkipSpace(s: Bytes): (r: Bytes)
    ensures |r| <= |s|
  {
    if s != [] && (s[0] == 0x20 || s[0] == 0x09 || s[0] == 0x0A || s[0] == 0x0D)
    then SkipSpace(s[1..]) else s
  }

  /** The rest of `s` after spaces, `b` and more spaces. */
  function Expect(s: Bytes, b: byte): (r: Option<Bytes>)
    ensures r.Some? ==> |r.value| < |s|
  {
    var t := SkipSpace(s);
    if t != [] && t[0] == b then Some(SkipSpace(t[1..])) else None
  }

  function ReadMember(s: Bytes): (r: Option<(Bytes, Bytes, Bytes)>)
    ensures r.Some? ==> |r.value.2| < |s|
  {
    match Expect(s, QUOTE)
    case None => None
    case Some(_) =>
      match ReadString(SkipSpace(s)[1..])
      case None => None
      case Some((key, afterKey)) =>
        match Expect(afterKey, COLON)
        case None => None
        case Some(v) =>
          if v == [] || v[0] != QUOTE then None
          else match ReadString(v[1..])
            case None => None
            case Some((value, rest)) => Some((key, value, rest))
  }

  /** Unknown members are ignored; of two with one name the later counts. */
  function Assign(e: Entry, key: Bytes, value: Bytes): Entry {
    if key == NAME then e.(name := value)
    else if key == OUTCOME then e.(outcome := value)
    else if key == MESSAGE then e.(message := value)
    else e
  }

  /** The members up to the closing brace and the end of the line. */
  function ReadMembers(s: Bytes, e: Entry): Option<Entry>
    decreases |s|
  {
    match ReadMember(s)
    case None => None
    case Some((key, value, rest)) =>
      var e' := Assign(e, key, value);
      match Expect(rest, COMMA)
      case Some(more) => ReadMembers(more, e')
      case None =>
        match Expect(rest, CLOSE)
        case Some(end) => if end == [] then Some(e') else None
        case None => None
  }

  /** json.Unmarshal of one line into a fresh entry. */
  function UnmarshalEntry(line: Bytes): Option<Entry> {
    match Expect(line, OPEN)
    case None => None
    case Some(s) =>
      if Expect(s, CLOSE) == Some([]) then Some(BLANK) else ReadMembers(s, BLANK)
  }

  function SanitizeEntry(e: Entry): Entry {
    Entry(Sanitize(e.name), Sanitize(e.outcome), Sanitize(e.message))
  }

  lemma FieldNamesAreValid()
    ensures Sanitize(NAME) == NAME && Sanitize(OUTCOME) == OUTCOME && Sanitize(MESSAGE) == MESSAGE
  {
    hide Sanitize, Valid;
    AsciiIsValid(NAME);
    AsciiIsValid(OUTCOME);
    AsciiIsValid(MESSAGE);
    SanitizeFixesExactlyInvalid(NAME);
    SanitizeFixesExactlyInvalid(OUTCOME);
    SanitizeFixesExactlyInvalid(MESSAGE);
  }

  lemma ExpectHere(b: byte, rest: Bytes)
    requires b > 0x20
    ensures SkipSpace([b] + rest) == [b] + rest
    ensures Expect([b] + rest, b) == Some(SkipSpace(rest))
  {
    assert ([b] + rest)[1..] == rest;
  }

  lemma LiteralReads(text: Bytes, rest: Bytes)
    ensures Literal(text) + rest == [QUOTE] + (Escape(text) + [QUOTE] + rest)
    ensures SkipSpace(Literal(text) + rest) == Literal(text) + rest
    ensures ReadString((Literal(text) + rest)[1..]) == Some((Sanitize(text), rest))
  {
    var body := Escape(text) + [QUOTE] + rest;
    assert Literal(text) + rest == [QUOTE] + body;
    ExpectHere(QUOTE, body);
    assert ([QUOTE] + body)[1..] == body;
    StringRoundTrip(text, rest);
  }

  lemma MemberRoundTrip(key: Bytes, value: Bytes, rest: Bytes)
    ensures ReadMember(Member(key, value) + rest) == Some((Sanitize(key), Sanitize(value), rest))
  {
    var afterColon := Literal(value) + rest;
    var afterKey := [COLON] + afterColon;
    var s := Literal(key) + afterKey;
    assert Member(key, value) + rest == s;
    LiteralReads(key, afterKey);
    ExpectHere(QUOTE, Escape(key) + [QUOTE] + afterKey);
    assert Expect(s, QUOTE).Some?;
    LiteralReads(value, rest);
    ExpectHere(COLON, afterColon);
    assert Expect(afterKey, COLON) == Some(afterColon);
  }

  /** One more member before a comma. */
  lemma MembersStep(key: Bytes, value: Bytes, more: Bytes, e: Entry)
    requires more != [] && more[0] == QUOTE
    ensures ReadMembers(Member(key, value) + [COMMA] + more, e)
         == ReadMembers(more, Assign(e, Sanitize(key), Sanitize(value)))
  {
    var rest := [COMMA] + more;
    assert Member(key, value) + [COMMA] + more == Member(key, value) + rest;
    MemberRoundTrip(key, value, rest);
    ExpectHere(COMMA, more);
    ExpectHere(QUOTE, more[1..]);
    assert [QUOTE] + more[1..] == more;
  }

  lemma MembersEnd(key: Bytes, value: Bytes, e: Entry)
    ensures ReadMembers(Member(key, value) + [CLOSE, NEWLINE], e)
         == Some(Assign(e, Sanitize(key), Sanitize(value)))
  {
    var rest: Bytes := [CLOSE, NEWLINE];
    MemberRoundTrip(key, value, rest);
    assert rest == [CLOSE] + [NEWLINE];
    ExpectHere(CLOSE, [NEWLINE]);
    assert Expect(rest, COMMA).None?;
  }

  lemma AssignAll(name: Bytes, outcome: Bytes, message: Bytes)
    ensures Assign(Assign(Assign(BLANK, NAME, name), OUTCOME, outcome), MESSAGE, message)
         == Entry(name, outcome, message)
  {
    assert |NAME| == 4 && |OUTCOME| == 7 && |MESSAGE| == 7 && OUTCOME[0] != MESSAGE[0];
  }

  lemma EntryLine(e: Entry)
    ensures MarshalEntry(e) + [NEWLINE] == [OPEN] + FromName(e, [CLOSE, NEWLINE])
  {
    assert [CLOSE] + [NEWLINE] == [CLOSE, NEWLINE];
    Regroup(Member(MESSAGE, e.message), [CLOSE], [NEWLINE]);
    Regroup(Member(OUTCOME, e.outcome) + [COMMA], FromMessage(e, [CLOSE]), [NEWLINE]);
    Regroup(Member(NAME, e.name) + [COMMA], FromOutcome(e, [CLOSE]), [NEWLINE]);
  }

  lemma StartsWithQuote(e: Entry, end: Bytes)
    ensures FromName(e, end) != [] && FromName(e, end)[0] == QUOTE
    ensures FromOutcome(e, end) != [] && FromOutcome(e, end)[0] == QUOTE
    ensures FromMessage(e, end) != [] && FromMessage(e, end)[0] == QUOTE
  {
  }

  /** A written entry is read back sanitized, from the line with its newline. */
  lemma EntryRoundTrip(e: Entry)
    ensures UnmarshalEntry(MarshalEntry(e) + [NEWLINE]) == Some(SanitizeEntry(e))
  {
    FieldNamesAreValid();
    var end: Bytes := [CLOSE, NEWLINE];
    EntryLine(e);
    StartsWithQuote(e, end);
    ExpectMembers(FromName(e, end));
    MembersReadBack(e, end);
  }

  lemma ExpectMembers(members: Bytes)
    requires members != [] && members[0] == QUOTE
    ensures UnmarshalEntry([OPEN] + members) == ReadMembers(members, BLANK)
  {
    ExpectHere(OPEN, members);
    ExpectHere(QUOTE, members[1..]);
    assert [QUOTE] + members[1..] == members;
  }

  lemma MembersReadBack(e: Entry, end: Bytes)
    requires end == [CLOSE, NEWLINE]
    ensures ReadMembers(FromName(e, end), BLANK) == Some(SanitizeEntry(e))
  {
    var (name, outcome, message) := (Sanitize(e.name), Sanitize(e.outcome), Sanitize(e.message));
    FieldNamesAreValid();
    StartsWithQuote(e, end);
    MembersStep(NAME, e.name, FromOutcome(e, end), BLANK);
    var e1 := Assign(BLANK, NAME, name);
    MembersStep(OUTCOME, e.outcome, FromMessage(e, end), e1);
    MembersEnd(MESSAGE, e.message, Assign(e1, OUTCOME, outcome));
    AssignAll(name, outcome, message);
  }

  lemma MemberHasNoNewline(key: Bytes, value: Bytes)
    ensures NEWLINE !in Member(key, value)
  {
    EscapeHasNoControl(key);
    EscapeHasNoControl(value);
  }

  /** The line of an entry holds no newline of its own. */
  lemma EntryHasNoNewline(e: Entry)
    ensures NEWLINE !in MarshalEntry(e)
  {
    MemberHasNoNewline(NAME, e.name);
    MemberHasNoNewline(OUTCOME, e.outcome);
    MemberHasNoNewline(MESSAGE, e.message);
    NotInConcat(NEWLINE, Member(MESSAGE, e.message), [CLOSE]);
    NotInConcat(NEWLINE, Member(OUTCOME, e.outcome) + [COMMA], FromMessage(e, [CLOSE]));
    NotInConcat(NEWLINE, Member(NAME, e.name) + [COMMA], FromOutcome(e, [CLOSE]));
    NotInConcat(NEWLINE, [OPEN], FromName(e, [CLOSE]));
  }

  lemma NotInConcat(b: byte, x: Bytes, y: Bytes)
    requires b !in x && b !in y
    ensures b !in x + y
  {
  }

  // ----- Escapes of section 7 of RFC 8259 -----

  /** What is written with an escape: quotes, backslashes, control characters and, for HTML, three more. */
  lemma EscapesWritten(b: byte)
    requires b < 0x80
    ensures b >= 0x20 && b !in {0x22, 0x5C, 0x3C, 0x3E, 0x26} ==> EscapeAscii(b) == [b]
    ensures b in {0x22, 0x5C} ==> EscapeAscii(b) == [0x5C, b]
    ensures EscapeAscii(0x08) == [0x5C, 0x62] && EscapeAscii(0x0C) == [0x5C, 0x66]               // \b \f
    ensures EscapeAscii(0x0A) == [0x5C, 0x6E] && EscapeAscii(0x0D) == [0x5C, 0x72]               // \n \r
    ensures EscapeAscii(0x09) == [0x5C, 0x74]                                                    // \t
    ensures EscapeAscii(0x3C) == [0x5C, 0x75, 0x30, 0x30, 0x33, 0x63]                            // \u003c
    ensures EscapeAscii(0x1F) == [0x5C, 0x75, 0x30, 0x30, 0x31, 0x66]                            // \u001f
  {
  }

  /** What is read: the two-character escapes, any code unit outside the surrogates in hexadecimal of
      either case, and pairs of surrogates. */
  lemma EscapesRead(rest: Bytes)
    ensures ReadRune([0x5C, 0x22] + rest) == Some(([0x22], 2)) && ReadRune([0x5C, 0x5C] + rest) == Some(([0x5C], 2))
    ensures ReadRune([0x5C, 0x2F] + rest) == Some(([0x2F], 2)) && ReadRune([0x5C, 0x62] + rest) == Some(([0x08], 2))
    ensures ReadRune([0x5C, 0x66] + rest) == Some(([0x0C], 2)) && ReadRune([0x5C, 0x6E] + rest) == Some(([0x0A], 2))
    ensures ReadRune([0x5C, 0x72] + rest) == Some(([0x0D], 2)) && ReadRune([0x5C, 0x74] + rest) == Some(([0x09], 2))
    ensures ReadRune([0x5C, 0x75, 0x30, 0x30, 0x45, 0x39] + rest) == Some((EncodeRune(0xE9), 6))  // \u00E9
    ensures ReadRune([0x5C, 0x75, 0x30, 0x30, 0x65, 0x39] + rest) == Some((EncodeRune(0xE9), 6))  // \u00e9
  {
    hide EncodeRune;
    assert ([0x5C, 0x75, 0x30, 0x30, 0x45, 0x39] + rest)[6..] == rest;
  }

  lemma SurrogatesRead(high: nat, low: nat, rest: Bytes)
    requires 0xD800 <= high < 0xDC00 <= low < 0xE000
    ensures ReadRune(UnicodeEscape(high) + UnicodeEscape(low) + rest)
         == Some((EncodeRune(0x1_0000 + (high - 0xD800) * 0x400 + (low - 0xDC00)), 12))
  {
    hide EncodeRune, UnicodeEscape, Hex4;
    Hex4RoundTrip(high, UnicodeEscape(low) + rest);
    Hex4RoundTrip(low, rest);
    EscapeShape(high);
    EscapeShape(low);
    var s := UnicodeEscape(high) + UnicodeEscape(low) + rest;
    assert s == UnicodeEscape(high) + (UnicodeEscape(low) + rest);
    assert s[6..] == UnicodeEscape(low) + rest;
  }

  // ----- Other writers -----

  /** Spaces, tabs and line breaks. */
  predicate Space(w: Bytes) {
    forall i :: 0 <= i < |w| ==> w[i] in {0x20, 0x09, 0x0A, 0x0D}
  }

  /** A member with whitespace around its parts. */
  datatype Spaced = Spaced(w0: Bytes, key: Bytes, w1: Bytes, w2: Bytes, value: Bytes, w3: Bytes)

  predicate IsSpaced(m: Spaced) {
    Space(m.w0) && Space(m.w1) && Space(m.w2) && Space(m.w3)
  }

  function MemberText(m: Spaced, rest: Bytes): Bytes {
    m.w0 + (Literal(m.key) + (m.w1 + ([COLON] + (m.w2 + (Literal(m.value) + (m.w3 + rest))))))
  }

  function MembersText(ms: seq<Spaced>, end: Bytes): Bytes
    requires ms != []
  {
    MemberText(ms[0], if |ms| == 1 then [CLOSE] + end else [COMMA] + MembersText(ms[1..], end))
  }

  lemma {:induction false} SkipsSpaces(w: Bytes, rest: Bytes)
    requires Space(w)
    ensures SkipSpace(w + rest) == SkipSpace(rest)
  {
    if w == [] {
      assert w + rest == rest;
    } else {
      SkipsSpaces(w[1..], rest);
      assert (w + rest)[1..] == w[1..] + rest;
    }
  }

  lemma {:induction false} SkipsAll(s: Bytes)
    ensures SkipSpace(SkipSpace(s)) == SkipSpace(s)
  {
    if s != [] && (s[0] == 0x20 || s[0] == 0x09 || s[0] == 0x0A || s[0] == 0x0D) {
      SkipsAll(s[1..]);
    }
  }

  lemma ExpectSpaced(w: Bytes, b: byte, rest: Bytes)
    requires Space(w) && b > 0x20
    ensures Expect(w + ([b] + rest), b) == Some(SkipSpace(rest))
    ensures SkipSpace(w + ([b] + rest)) == [b] + rest
    ensures forall c: byte :: c > 0x20 && c != b ==> Expect(w + ([b] + rest), c).None?
  {
    SkipsSpaces(w, [b] + rest);
    ExpectHere(b, rest);
    assert ([b] + rest)[1..] == rest;
  }

  lemma MemberTextReads(m: Spaced, rest: Bytes)
    requires IsSpaced(m)
    ensures ReadMember(MemberText(m, rest)) == Some((Sanitize(m.key), Sanitize(m.value), m.w3 + rest))
    ensures ReadMember(SkipSpace(MemberText(m, rest))) == ReadMember(MemberText(m, rest))
  {
    hide Escape, Sanitize, SkipSpace;
    var afterValue := m.w3 + rest;
    var afterColon := m.w2 + (Literal(m.value) + afterValue);
    var afterKey := m.w1 + ([COLON] + afterColon);
    var s := MemberText(m, rest);
    LiteralReads(m.key, afterKey);
    ExpectSpaced(m.w0, QUOTE, Escape(m.key) + [QUOTE] + afterKey);
    assert s == m.w0 + (Literal(m.key) + afterKey);
    ExpectSpaced(m.w1, COLON, afterColon);
    LiteralReads(m.value, afterValue);
    ExpectSpaced(m.w2, QUOTE, Escape(m.value) + [QUOTE] + afterValue);
    SkipsAll(s);
  }

  /** The entry after some members: of several with one name the last counts. */
  function Assigned(ms: seq<Spaced>, e: Entry): Entry {
    if ms == [] then e else Assigned(ms[1..], Assign(e, Sanitize(ms[0].key), Sanitize(ms[0].value)))
  }

  lemma {:induction false} MembersTextReads(ms: seq<Spaced>, end: Bytes, e: Entry)
    requires ms != [] && (forall i :: 0 <= i < |ms| ==> IsSpaced(ms[i]))
    ensures ReadMembers(MembersText(ms, end), e) == if SkipSpace(end) == [] then Some(Assigned(ms, e)) else None
    ensures ReadMembers(SkipSpace(MembersText(ms, end)), e) == ReadMembers(MembersText(ms, end), e)
    decreases |ms|
  {
    hide MemberText, Assign, ReadMember, Sanitize, Space, SkipSpace, Expect;
    var m := ms[0];
    var e' := Assign(e, Sanitize(m.key), Sanitize(m.value));
    if |ms| == 1 {
      MemberTextReads(m, [CLOSE] + end);
      LastMember(m.w3, end);
      assert ms[1..] == [];
    } else {
      var more := MembersText(ms[1..], end);
      MemberTextReads(m, [COMMA] + more);
      ExpectSpaced(m.w3, COMMA, more);
      MembersTextReads(ms[1..], end, e');
    }
  }

  lemma LastMember(w: Bytes, end: Bytes)
    requires Space(w)
    ensures Expect(w + ([CLOSE] + end), COMMA).None?
    ensures Expect(w + ([CLOSE] + end), CLOSE) == Some(SkipSpace(end))
  {
    ExpectSpaced(w, CLOSE, end);
  }

  lemma {:induction false} SkippedToNothing(w: Bytes)
    ensures SkipSpace(w) == [] <==> Space(w)
  {
    if w != [] {
      SkippedToNothing(w[1..]);
      assert Space(w) <==> w[0] in {0x20, 0x09, 0x0A, 0x0D} && Space(w[1..]) by {
        assert forall i :: 1 <= i < |w| ==> w[i] == w[1..][i - 1];
      }
    }
  }

  /** A line with any members, in any order and with any whitespace between its parts, is read exactly
      when nothing but whitespace follows it. */
  lemma SpacedEntryReads(w: Bytes, ms: seq<Spaced>, end: Bytes)
    requires Space(w) && ms != [] && forall i :: 0 <= i < |ms| ==> IsSpaced(ms[i])
    ensures UnmarshalEntry(w + ([OPEN] + MembersText(ms, end)))
         == if Space(end) then Some(Assigned(ms, BLANK)) else None
  {
    SkippedToNothing(end);
    hide ReadMembers, Assigned, Sanitize, MemberText;
    var text := MembersText(ms, end);
    MembersTextReads(ms, end, BLANK);
    ExpectSpaced(w, OPEN, text);
    NotClosed(ms[0], if |ms| == 1 then [CLOSE] + end else [COMMA] + MembersText(ms[1..], end));
    assert IsSpaced(ms[0]);
  }

  /** An object without members is read as an entry without texts. */
  lemma EmptyObjectReads(w: Bytes, inside: Bytes, end: Bytes)
    requires Space(w) && Space(inside) && Space(end)
    ensures UnmarshalEntry(w + ([OPEN] + (inside + ([CLOSE] + end)))) == Some(BLANK)
  {
    hide SkipSpace;
    ExpectSpaced(w, OPEN, inside + ([CLOSE] + end));
    ExpectSpaced(inside, CLOSE, end);
    SkipsAll(inside + ([CLOSE] + end));
    SkippedToNothing(end);
  }

  lemma NotClosed(m: Spaced, rest: Bytes)
    ensures IsSpaced(m) ==> Expect(SkipSpace(MemberText(m, rest)), CLOSE).None?
  {
    if IsSpaced(m) {
      var body := Escape(m.key) + [QUOTE] + (m.w1 + ([COLON] + (m.w2 + (Literal(m.value) + (m.w3 + rest)))));
      LiteralReads(m.key, m.w1 + ([COLON] + (m.w2 + (Literal(m.value) + (m.w3 + rest)))));
      ExpectSpaced(m.w0, QUOTE, body);
      SkipsAll(MemberText(m, rest));
    }
  }

  /** The value of the last member of that name, or nothing. */
  function LastOf(ms: seq<Spaced>, name: Bytes): Bytes {
    if ms == [] then []
    else
      var n := |ms| - 1;
      if Sanitize(ms[n].key) == name then Sanitize(ms[n].value) else LastOf(ms[..n], name)
  }

  lemma {:induction false} AssignedLast(ms: seq<Spaced>, m: Spaced, e: Entry)
    ensures Assigned(ms + [m], e) == Assign(Assigned(ms, e), Sanitize(m.key), Sanitize(m.value))
  {
    hide Sanitize, Assign;
    if ms == [] {
      assert ms + [m] == [m] && [m][1..] == [];
    } else {
      assert (ms + [m])[1..] == ms[1..] + [m];
      AssignedLast(ms[1..], m, Assign(e, Sanitize(ms[0].key), Sanitize(ms[0].value)));
    }
  }

  lemma NamesAre()
    ensures NAME == Utf8.Encode("name") && OUTCOME == Utf8.Encode("outcome") && MESSAGE == Utf8.Encode("message")
    ensures NAME != OUTCOME && NAME != MESSAGE && OUTCOME != MESSAGE
  {
    hide Utf8.Encode;
    AsciiText("name", NAME);
    AsciiText("outcome", OUTCOME);
    AsciiText("message", MESSAGE);
    assert |NAME| == 4 && |OUTCOME| == 7 && |MESSAGE| == 7 && OUTCOME[0] != MESSAGE[0];
  }

  /** Each field of the entry is the last member of its name; members of other names do not matter. */
  lemma {:induction false} FieldsAre(ms: seq<Spaced>)
    ensures Assigned(ms, BLANK)
         == Entry(LastOf(ms, Utf8.Encode("name")), LastOf(ms, Utf8.Encode("outcome")),
                  LastOf(ms, Utf8.Encode("message")))
  {
    hide Sanitize, Utf8.Encode;
    NamesAre();
    if ms != [] {
      var n := |ms| - 1;
      FieldsAre(ms[..n]);
      AssignedLast(ms[..n], ms[n], BLANK);
      assert ms == ms[..n] + [ms[n]];
      hide NAME, OUTCOME, MESSAGE;
    }
  }

  /** What is written has no whitespace and the members in this order. */
  lemma WrittenIs(e: Entry)
    ensures MarshalEntry(e) == [0x7B]
      + (Literal(Utf8.Encode("name")) + [0x3A] + Literal(e.name)) + [0x2C]
      + ((Literal(Utf8.Encode("outcome")) + [0x3A] + Literal(e.outcome)) + [0x2C]
         + ((Literal(Utf8.Encode("message")) + [0x3A] + Literal(e.message)) + [0x7D]))
  {
    hide Utf8.Encode, Literal;
    NamesAre();
    var outcome := FromOutcome(e, [CLOSE]);
    assert [OPEN] + (Member(NAME, e.name) + [COMMA] + outcome) == [OPEN] + Member(NAME, e.name) + [COMMA] + outcome;
  }
}
