/** The wire form of temporal.api.common.v1.Payload: the Protocol Buffers encoding guide,
    "Base 128 Varints", "Length-Delimited Records" and "Maps", as Go's protobuf runtime reads it. */
module Protobuf {
  import opened Seqs
  import opened Utf8

  /** A payload message: metadata is field 1 (a map), data is field 2; all other fields are kept as
      they were read. */
  datatype Payload = Payload(metadata: map<Bytes, Bytes>, data: Bytes, unknown: Bytes)

  const EMPTY := Payload(map[], [], [])

  datatype Error = Truncated | BadUtf8

  // ----- Varints -----

  function EncodeVarint(n: nat): (r: Bytes) {
    if n < 128 then [n] else [128 + n % 128] + EncodeVarint(n / 128)
  }

  /** What is left of the 64-bit range after `k` bytes of seven bits each. */
  function Limit(k: nat): nat
    requires k <= 9
    decreases 9 - k
  {
    if k == 9 then 2 else 128 * Limit(k + 1)
  }

  /** Reads a varint of which `k` bytes are already consumed: at most ten bytes, 64 bits. */
  function DecodeVarint(s: Bytes, k: nat): (r: Option<(nat, Bytes)>)
    requires k <= 9
    ensures r.Some? ==> |r.value.1| < |s|
    decreases |s|
  {
    if |s| == 0 then None
    else if s[0] < 128 then
      if k == 9 && s[0] >= 2 then None else Some((s[0], s[1..]))
    else if k == 9 then None
    else match DecodeVarint(s[1..], k + 1)
      case None => None
      case Some((v, rest)) => Some((s[0] - 128 + 128 * v, rest))
  }

  lemma {:induction false} VarintRoundTrip(n: nat, k: nat, rest: Bytes)
    requires k <= 9 && n < Limit(k)
    ensures DecodeVarint(EncodeVarint(n) + rest, k) == Some((n, rest))
    decreases n
  {
    var s := EncodeVarint(n) + rest;
    if n < 128 {
      assert s[1..] == rest;
    } else {
      VarintRoundTrip(n / 128, k + 1, rest);
      assert s[1..] == EncodeVarint(n / 128) + rest;
    }
  }

  lemma LimitIs64Bit()
    ensures Limit(0) == 0x1_0000_0000_0000_0000
  {
    assert Limit(6) == 128 * (128 * (128 * 2));
    assert Limit(3) == 128 * (128 * (128 * Limit(6)));
  }

  // ----- Length-delimited records -----

  function Delimited(b: Bytes): Bytes {
    EncodeVarint(|b|) + b
  }

  function DecodeDelimited(s: Bytes): (r: Option<(Bytes, Bytes)>)
    ensures r.Some? ==> |r.value.1| < |s| && |r.value.0| < |s|
  {
    match DecodeVarint(s, 0)
    case None => None
    case Some((n, rest)) => if n <= |rest| then Some((rest[..n], rest[n..])) else None
  }

  lemma DelimitedRoundTrip(b: Bytes, rest: Bytes)
    requires |b| < Limit(0)
    ensures DecodeDelimited(Delimited(b) + rest) == Some((b, rest))
  {
    VarintRoundTrip(|b|, 0, b + rest);
    assert Delimited(b) + rest == EncodeVarint(|b|) + (b + rest);
    assert (b + rest)[..|b|] == b && (b + rest)[|b|..] == rest;
  }

  // ----- Tags and unknown fields -----

  const MAX_FIELD: nat := 0x1FFF_FFFF
  const MAX_GROUP_FIELD: nat := 0x7FFF_FFFF
  const RECURSION_LIMIT: nat := 10000

  datatype Tag = Tag(field: nat, wire: nat, rest: Bytes)

  function DecodeTag(s: Bytes, maxField: nat): (r: Option<Tag>)
    ensures r.Some? ==> |r.value.rest| < |s|
  {
    match DecodeVarint(s, 0)
    case None => None
    case Some((v, rest)) =>
      if 1 <= v / 8 <= maxField then Some(Tag(v / 8, v % 8, rest)) else None
  }

  /** What follows the value of a field that is not read. */
  function SkipValue(field: nat, wire: nat, s: Bytes, depth: int): (r: Option<Bytes>)
    ensures r.Some? ==> |r.value| <= |s|
    decreases |s|, 1
  {
    match wire
    case 0 => (match DecodeVarint(s, 0) case None => None case Some((_, rest)) => Some(rest))
    case 1 => if |s| >= 8 then Some(s[8..]) else None
    case 2 => (match DecodeDelimited(s) case None => None case Some((_, rest)) => Some(rest))
    case 3 => if depth < 0 then None else SkipGroup(field, s, depth)
    case 5 => if |s| >= 4 then Some(s[4..]) else None
    case _ => None
  }

  function SkipGroup(field: nat, s: Bytes, depth: int): (r: Option<Bytes>)
    ensures r.Some? ==> |r.value| <= |s|
    decreases |s|, 0
  {
    match DecodeTag(s, MAX_GROUP_FIELD)
    case None => None
    case Some(Tag(inner, wire, rest)) =>
      if wire == 4 then (if inner == field then Some(rest) else None)
      else match SkipValue(inner, wire, rest, depth - 1)
        case None => None
        case Some(after) => SkipGroup(field, after, depth)
  }

  // ----- Reading -----

  /** One map entry: key is field 1, value is field 2, both default to empty, the last wins. */
  function ParseEntry(s: Bytes, key: Bytes, value: Bytes): Result<(Bytes, Bytes), Error>
    decreases |s|
  {
    if s == [] then Ok((key, value))
    else match DecodeTag(s, MAX_FIELD)
      case None => Err(Truncated)
      case Some(Tag(field, wire, rest)) =>
        if wire == 2 && field <= 2 then
          match DecodeDelimited(rest)
          case None => Err(Truncated)
          case Some((b, after)) =>
            if field == 2 then ParseEntry(after, key, b)
            else if !Valid(b) then Err(BadUtf8)
            else ParseEntry(after, b, value)
        else
          match SkipValue(field, wire, rest, RECURSION_LIMIT)
          case None => Err(Truncated)
          case Some(after) => ParseEntry(after, key, value)
  }

  /** The bytes in front of `after`, which ends `s`. */
  function Before(s: Bytes, after: Bytes): Bytes
    requires |after| <= |s|
  {
    s[..|s| - |after|]
  }

  /** The fields of `s` merged into `acc`. */
  function ParsePayload(s: Bytes, acc: Payload): Result<Payload, Error>
    decreases |s|
  {
    if s == [] then Ok(acc)
    else match DecodeTag(s, MAX_FIELD)
      case None => Err(Truncated)
      case Some(Tag(field, wire, rest)) =>
        if wire == 2 && field <= 2 then
          match DecodeDelimited(rest)
          case None => Err(Truncated)
          case Some((b, after)) =>
            if field == 2 then ParsePayload(after, acc.(data := b))
            else match ParseEntry(b, [], [])
              case Err(e) => Err(e)
              case Ok((k, v)) => ParsePayload(after, acc.(metadata := acc.metadata[k := v]))
        else
          match SkipValue(field, wire, rest, RECURSION_LIMIT)
          case None => Err(Truncated)
          case Some(after) => ParsePayload(after, acc.(unknown := acc.unknown + Before(s, after)))
  }

  /** What is kept of fields that are not read: any sequence of well-formed others. */
  predicate IsUnknown(s: Bytes)
    decreases |s|
  {
    s == [] || match DecodeTag(s, MAX_FIELD)
      case None => false
      case Some(Tag(field, wire, rest)) =>
        && !(wire == 2 && field <= 2)
        && match SkipValue(field, wire, rest, RECURSION_LIMIT)
           case None => false
           case Some(after) => IsUnknown(after)
  }

  function Unmarshal(s: Bytes): Result<Payload, Error> {
    ParsePayload(s, EMPTY)
  }

  // ----- Writing -----

  function Field(tag: byte, b: Bytes): Bytes {
    [tag] + Delimited(b)
  }

  function MarshalEntry(k: Bytes, v: Bytes): Bytes {
    Field(0x0A, k) + Field(0x12, v)
  }

  /** `order` is one iteration order of a map with these keys. */
  ghost predicate IsOrdering(order: seq<Bytes>, keys: set<Bytes>) {
    NoDuplicates(order) && (forall k :: k in order <==> k in keys)
  }

  /** The message with its metadata written in the given order. */
  function MarshalOrdered(order: seq<Bytes>, p: Payload): Bytes
    requires forall k :: k in order ==> k in p.metadata
  {
    if order == [] then
      (if p.data == [] then [] else Field(0x12, p.data)) + p.unknown
    else
      assert order[0] in order;
      Field(0x0A, MarshalEntry(order[0], p.metadata[order[0]])) + MarshalOrdered(order[1..], p)
  }

  predicate KeysValid(p: Payload) {
    forall k :: k in p.metadata ==> Valid(k)
  }

  /** Marshalling refuses keys that are not UTF-8. */
  function Marshal(order: seq<Bytes>, p: Payload): Result<Bytes, Error>
    requires forall k :: k in order ==> k in p.metadata
  {
    if KeysValid(p) then Ok(MarshalOrdered(order, p)) else Err(BadUtf8)
  }

  // ----- Reading undoes writing -----

  lemma FieldTag(tag: byte, b: Bytes, rest: Bytes)
    requires tag == 0x0A || tag == 0x12
    ensures DecodeTag(Field(tag, b) + rest, MAX_FIELD) == Some(Tag(tag / 8, 2, Delimited(b) + rest))
  {
    var s := Field(tag, b) + rest;
    assert s[1..] == Delimited(b) + rest;
  }

  lemma EntryRoundTrip(k: Bytes, v: Bytes)
    requires |MarshalEntry(k, v)| < Limit(0) && Valid(k)
    ensures ParseEntry(MarshalEntry(k, v), [], []) == Ok((k, v))
  {
    var value := Field(0x12, v);
    FieldTag(0x0A, k, value);
    DelimitedRoundTrip(k, value);
    FieldTag(0x12, v, []);
    DelimitedRoundTrip(v, []);
    assert value + [] == value;
    assert ParseEntry(value, k, []) == ParseEntry([], k, v);
  }

  lemma {:induction false} ParseUnknown(s: Bytes, acc: Payload)
    requires IsUnknown(s)
    ensures ParsePayload(s, acc) == Ok(acc.(unknown := acc.unknown + s))
    decreases |s|
  {
    hide DecodeTag, SkipValue, DecodeDelimited, ParseEntry;
    if s == [] {
      assert acc.unknown + s == acc.unknown;
    } else {
      var Tag(field, wire, rest) := DecodeTag(s, MAX_FIELD).value;
      var after := SkipValue(field, wire, rest, RECURSION_LIMIT).value;
      TagConsumes(s, MAX_FIELD);
      SkipConsumes(field, wire, rest, RECURSION_LIMIT, []);
      ParseUnknown(after, acc.(unknown := acc.unknown + Before(s, after)));
      assert Before(s, after) + after == s;
      Regroup(acc.unknown, Before(s, after), after);
    }
  }

  lemma ParseData(p: Payload, acc: Payload)
    requires p.data != [] && |p.data| < Limit(0) && IsUnknown(p.unknown)
    ensures ParsePayload(Field(0x12, p.data) + p.unknown, acc)
         == Ok(acc.(data := p.data, unknown := acc.unknown + p.unknown))
  {
    FieldTag(0x12, p.data, p.unknown);
    DelimitedRoundTrip(p.data, p.unknown);
    ParseUnknown(p.unknown, acc.(data := p.data));
  }

  lemma {:induction false} ParseOrdered(order: seq<Bytes>, p: Payload, acc: Payload)
    requires forall k :: k in order ==> k in p.metadata && Valid(k)
    requires |MarshalOrdered(order, p)| < Limit(0) && IsUnknown(p.unknown)
    ensures ParsePayload(MarshalOrdered(order, p), acc)
         == Ok(Payload(acc.metadata + (map k | k in order :: p.metadata[k]),
                       if p.data == [] then acc.data else p.data,
                       acc.unknown + p.unknown))
    decreases |order|
  {
    if order == [] {
      assert acc.metadata + (map k | k in order :: p.metadata[k]) == acc.metadata;
      if p.data != [] {
        ParseData(p, acc);
      } else {
        assert [] + p.unknown == p.unknown;
        ParseUnknown(p.unknown, acc);
      }
    } else {
      var k := order[0];
      assert k in order;
      var v := p.metadata[k];
      var rest := MarshalOrdered(order[1..], p);
      var entry := MarshalEntry(k, v);
      FieldTag(0x0A, entry, rest);
      DelimitedRoundTrip(entry, rest);
      EntryRoundTrip(k, v);
      var acc' := acc.(metadata := acc.metadata[k := v]);
      assert ParsePayload(MarshalOrdered(order, p), acc) == ParsePayload(rest, acc');
      ParseOrdered(order[1..], p, acc');
      OverrideStep(order, p.metadata, acc.metadata);
    }
  }

  /** Writing the first key and then the others is writing all of them. */
  lemma OverrideStep(order: seq<Bytes>, m: map<Bytes, Bytes>, acc: map<Bytes, Bytes>)
    requires order != [] && forall k :: k in order ==> k in m
    ensures order[0] in order
    ensures acc[order[0] := m[order[0]]] + (map k | k in order[1..] :: m[k])
         == acc + (map k | k in order :: m[k])
  {
    assert forall k :: k in order <==> k == order[0] || k in order[1..];
  }

  // ----- What reading consumes -----

  lemma {:induction false} VarintConsumes(s: Bytes, k: nat, t: Bytes)
    requires k <= 9 && DecodeVarint(s, k).Some?
    ensures var (v, rest) := DecodeVarint(s, k).value;
      s == Before(s, rest) + rest && DecodeVarint(Before(s, rest) + t, k) == Some((v, t))
    decreases |s|
  {
    var (v, rest) := DecodeVarint(s, k).value;
    var u := Before(s, rest) + t;
    if s[0] < 128 {
      assert u == [s[0]] + t;
    } else {
      VarintConsumes(s[1..], k + 1, t);
      assert s[1..] == Before(s[1..], rest) + rest;
      assert u[1..] == Before(s[1..], rest) + t;
    }
  }

  lemma DelimitedConsumes(s: Bytes, t: Bytes)
    requires DecodeDelimited(s).Some?
    ensures var (b, rest) := DecodeDelimited(s).value;
      s == Before(s, rest) + rest && DecodeDelimited(Before(s, rest) + t) == Some((b, t))
  {
    var (n, more) := DecodeVarint(s, 0).value;
    var (b, rest) := DecodeDelimited(s).value;
    VarintConsumes(s, 0, b + t);
    hide DecodeVarint;
    assert more == b + rest;
    assert s == Before(s, more) + (b + rest);
    assert Before(s, rest) == Before(s, more) + b;
    assert Before(s, rest) + t == Before(s, more) + (b + t);
    assert (b + t)[..n] == b && (b + t)[n..] == t;
  }

  lemma TagConsumes(s: Bytes, maxField: nat)
    requires DecodeTag(s, maxField).Some?
    ensures var rest := DecodeTag(s, maxField).value.rest; s == Before(s, rest) + rest
  {
    VarintConsumes(s, 0, []);
  }

  lemma TagStays(s: Bytes, maxField: nat, t: Bytes)
    requires DecodeTag(s, maxField).Some?
    ensures var tag := DecodeTag(s, maxField).value;
      DecodeTag(Before(s, tag.rest) + t, maxField) == Some(tag.(rest := t))
  {
    VarintConsumes(s, 0, t);
  }

  lemma {:induction false} SkipConsumes(field: nat, wire: nat, s: Bytes, depth: int, t: Bytes)
    requires SkipValue(field, wire, s, depth).Some?
    ensures var after := SkipValue(field, wire, s, depth).value;
      s == Before(s, after) + after && SkipValue(field, wire, Before(s, after) + t, depth) == Some(t)
    decreases |s|, 1
  {
    match wire
    case 0 => VarintConsumes(s, 0, t);
    case 1 => assert (s[..8] + t)[8..] == t;
    case 2 => DelimitedConsumes(s, t);
    case 3 => SkipGroupConsumes(field, s, depth, t);
    case 5 => assert (s[..4] + t)[4..] == t;
    case _ =>
  }

  /** A group is what its first field and then the rest of the group make it. */
  lemma GroupIs(field: nat, s: Bytes, depth: int)
    requires DecodeTag(s, MAX_GROUP_FIELD).Some?
    ensures var Tag(inner, wire, rest) := DecodeTag(s, MAX_GROUP_FIELD).value;
      SkipGroup(field, s, depth)
        == if wire == 4 then (if inner == field then Some(rest) else None)
           else match SkipValue(inner, wire, rest, depth - 1)
             case None => None
             case Some(next) => SkipGroup(field, next, depth)
  {
  }

  lemma GroupHasTag(field: nat, s: Bytes, depth: int)
    requires SkipGroup(field, s, depth).Some?
    ensures DecodeTag(s, MAX_GROUP_FIELD).Some?
  {
  }

  lemma {:induction false} SkipGroupConsumes(field: nat, s: Bytes, depth: int, t: Bytes)
    requires SkipGroup(field, s, depth).Some?
    ensures var after := SkipGroup(field, s, depth).value;
      s == Before(s, after) + after && SkipGroup(field, Before(s, after) + t, depth) == Some(t)
    decreases |s|, 0
  {
    hide DecodeTag, SkipValue, SkipGroup;
    GroupHasTag(field, s, depth);
    GroupIs(field, s, depth);
    var Tag(inner, wire, rest) := DecodeTag(s, MAX_GROUP_FIELD).value;
    var after := SkipGroup(field, s, depth).value;
    TagConsumes(s, MAX_GROUP_FIELD);
    var u := Before(s, after) + t;
    if wire == 4 {
      TagStays(s, MAX_GROUP_FIELD, t);
    } else {
      var next := SkipValue(inner, wire, rest, depth - 1).value;
      var (a, b, c) := (Before(s, rest), Before(rest, next), Before(next, after));
      SkipGroupConsumes(field, next, depth, t);
      SkipConsumes(inner, wire, rest, depth - 1, c + t);
      TagStays(s, MAX_GROUP_FIELD, b + (c + t));
      FourParts(s, a, b, c, after, t);
    }
    GroupIs(field, u, depth);
  }

  lemma FourParts(s: Bytes, a: Bytes, b: Bytes, c: Bytes, after: Bytes, t: Bytes)
    requires s == a + (b + (c + after))
    ensures s == Before(s, after) + after && Before(s, after) + t == a + (b + (c + t))
  {
    assert s == a + b + c + after;
    assert Before(s, after) == a + b + c;
  }

  lemma {:induction false} UnknownConcat(a: Bytes, b: Bytes)
    requires IsUnknown(a) && IsUnknown(b)
    ensures IsUnknown(a + b)
    decreases |a|
  {
    hide DecodeTag, SkipValue;
    if a == [] {
      assert a + b == b;
    } else {
      var Tag(field, wire, rest) := DecodeTag(a, MAX_FIELD).value;
      var after := SkipValue(field, wire, rest, RECURSION_LIMIT).value;
      TagConsumes(a, MAX_FIELD);
      SkipConsumes(field, wire, rest, RECURSION_LIMIT, after + b);
      TagStays(a, MAX_FIELD, rest + b);
      UnknownConcat(after, b);
      assert a + b == Before(a, rest) + (rest + b);
      assert rest + b == Before(rest, after) + (after + b);
    }
  }

  lemma SkippedIsUnknown(s: Bytes)
    requires DecodeTag(s, MAX_FIELD).Some?
    requires var Tag(field, wire, rest) := DecodeTag(s, MAX_FIELD).value;
      !(wire == 2 && field <= 2) && SkipValue(field, wire, rest, RECURSION_LIMIT).Some?
    ensures var Tag(field, wire, rest) := DecodeTag(s, MAX_FIELD).value;
      IsUnknown(Before(s, SkipValue(field, wire, rest, RECURSION_LIMIT).value))
  {
    var Tag(field, wire, rest) := DecodeTag(s, MAX_FIELD).value;
    var after := SkipValue(field, wire, rest, RECURSION_LIMIT).value;
    TagConsumes(s, MAX_FIELD);
    SkipConsumes(field, wire, rest, RECURSION_LIMIT, []);
    TagStays(s, MAX_FIELD, Before(rest, after));
    assert Before(s, after) == Before(s, rest) + Before(rest, after);
    assert Before(rest, after) + [] == Before(rest, after);
  }

  /** A payload that a message can be: what it keeps are fields, and its keys are UTF-8. */
  predicate WellFormed(p: Payload) {
    IsUnknown(p.unknown) && KeysValid(p)
  }

  lemma {:induction false} EntryKeyIsValid(s: Bytes, key: Bytes, value: Bytes)
    requires Valid(key)
    ensures var r := ParseEntry(s, key, value); r.Ok? ==> Valid(r.value.0)
    decreases |s|
  {
    if s != [] && DecodeTag(s, MAX_FIELD).Some? {
      var Tag(field, wire, rest) := DecodeTag(s, MAX_FIELD).value;
      if wire == 2 && field <= 2 {
        if DecodeDelimited(rest).Some? {
          var (b, after) := DecodeDelimited(rest).value;
          if field == 2 {
            EntryKeyIsValid(after, key, b);
          } else if Valid(b) {
            EntryKeyIsValid(after, b, value);
          }
        }
      } else if SkipValue(field, wire, rest, RECURSION_LIMIT).Some? {
        EntryKeyIsValid(SkipValue(field, wire, rest, RECURSION_LIMIT).value, key, value);
      }
    }
  }

  lemma {:induction false} ParsedIsWellFormed(s: Bytes, acc: Payload)
    requires WellFormed(acc)
    ensures ParsePayload(s, acc).Ok? ==> WellFormed(ParsePayload(s, acc).value)
    decreases |s|
  {
    if s != [] && DecodeTag(s, MAX_FIELD).Some? {
      var Tag(field, wire, rest) := DecodeTag(s, MAX_FIELD).value;
      if wire == 2 && field <= 2 {
        if DecodeDelimited(rest).Some? {
          var (b, after) := DecodeDelimited(rest).value;
          if field == 2 {
            ParsedIsWellFormed(after, acc.(data := b));
          } else if ParseEntry(b, [], []).Ok? {
            var (k, v) := ParseEntry(b, [], []).value;
            EntryKeyIsValid(b, [], []);
            ParsedIsWellFormed(after, acc.(metadata := acc.metadata[k := v]));
          }
        }
      } else if SkipValue(field, wire, rest, RECURSION_LIMIT).Some? {
        var after := SkipValue(field, wire, rest, RECURSION_LIMIT).value;
        SkippedIsUnknown(s);
        UnknownConcat(acc.unknown, Before(s, after));
        ParsedIsWellFormed(after, acc.(unknown := acc.unknown + Before(s, after)));
      }
    }
  }

  /** Whatever bytes are read, the message read is one that can be written. */
  lemma UnmarshalIsWellFormed(s: Bytes)
    ensures Unmarshal(s).Ok? ==> WellFormed(Unmarshal(s).value)
  {
    ParsedIsWellFormed(s, EMPTY);
  }

  /** Whatever order the runtime writes the map in, reading gives the message back. */
  lemma UnmarshalMarshal(order: seq<Bytes>, p: Payload)
    requires IsOrdering(order, p.metadata.Keys)
    requires WellFormed(p)
    requires |MarshalOrdered(order, p)| < Limit(0)
    ensures Unmarshal(MarshalOrdered(order, p)) == Ok(p)
  {
    hide ParsePayload, MarshalOrdered, IsUnknown;
    ParseOrdered(order, p, EMPTY);
    assert [] + p.unknown == p.unknown;
    assert EMPTY.metadata + (map k | k in order :: p.metadata[k]) == p.metadata;
  }

  // ----- The encoding guide -----

  /** The bytes of "Base 128 Varints" (150) and of a small message, whose one map entry is a message of
      its own: key 1, value 2. */
  lemma GuideExamples(k: Bytes, v: Bytes, data: Bytes)
    requires |k| + |v| < 100 && 0 < |data| < 128
    ensures EncodeVarint(150) == [0x96, 0x01]
    ensures MarshalOrdered([k], Payload(map[k := v], data, []))
         == [0x0A, 4 + |k| + |v|] + ([0x0A, |k|] + k + [0x12, |v|] + v) + [0x12, |data|] + data
  {
    var p := Payload(map[k := v], data, []);
    assert EncodeVarint(150) == [128 + 150 % 128] + EncodeVarint(1);
    var entry := [0x0A, |k|] + k + [0x12, |v|] + v;
    assert MarshalEntry(k, v) == entry && |entry| == 4 + |k| + |v|;
    assert MarshalOrdered([], p) == [0x12, |data|] + data + [];
    assert [k][1..] == [] && [k][0] in [k];
    assert Field(0x0A, entry) == [0x0A, 4 + |k| + |v|] + entry;
  }

  /** A first field is found the same way whatever follows. */
  lemma KnownFieldStays(a: Bytes, b: Bytes, tag: Tag, x: Bytes, after: Bytes)
    requires DecodeTag(a, MAX_FIELD) == Some(tag) && DecodeDelimited(tag.rest) == Some((x, after))
    ensures DecodeTag(a + b, MAX_FIELD) == Some(tag.(rest := tag.rest + b))
    ensures DecodeDelimited(tag.rest + b) == Some((x, after + b))
  {
    hide DecodeTag, DecodeDelimited;
    TagConsumes(a, MAX_FIELD);
    TagStays(a, MAX_FIELD, tag.rest + b);
    assert a + b == Before(a, tag.rest) + (tag.rest + b);
    DelimitedConsumes(tag.rest, after + b);
    assert tag.rest + b == Before(tag.rest, after) + (after + b);
  }

  lemma OtherFieldStays(a: Bytes, b: Bytes, tag: Tag, after: Bytes)
    requires DecodeTag(a, MAX_FIELD) == Some(tag)
    requires SkipValue(tag.field, tag.wire, tag.rest, RECURSION_LIMIT) == Some(after)
    ensures |after| <= |a|
    ensures DecodeTag(a + b, MAX_FIELD) == Some(tag.(rest := tag.rest + b))
    ensures SkipValue(tag.field, tag.wire, tag.rest + b, RECURSION_LIMIT) == Some(after + b)
    ensures Before(a + b, after + b) == Before(a, after)
  {
    hide DecodeTag, SkipValue;
    TagConsumes(a, MAX_FIELD);
    TagStays(a, MAX_FIELD, tag.rest + b);
    assert a + b == Before(a, tag.rest) + (tag.rest + b);
    SkipConsumes(tag.field, tag.wire, tag.rest, RECURSION_LIMIT, after + b);
    assert tag.rest + b == Before(tag.rest, after) + (after + b);
  }

  /** Where one field ends the next begins: reading `a` followed by `b` is reading `b` into what was read
      from `a`, so that of a field that occurs twice the later value counts and fields may come in any
      order. */
  lemma {:induction false} ConcatIsMerge(a: Bytes, b: Bytes, acc: Payload)
    ensures ParsePayload(a, acc).Ok? ==> ParsePayload(a + b, acc) == ParsePayload(b, ParsePayload(a, acc).value)
    decreases |a|
  {
    if a == [] {
      assert a + b == b;
    } else if ParsePayload(a, acc).Ok? {
      hide DecodeTag, DecodeDelimited, SkipValue, ParsePayload, ParseEntry, AfterField;
      FirstFieldIsRead(a, acc);
      var tag := DecodeTag(a, MAX_FIELD).value;
      if tag.wire == 2 && tag.field <= 2 {
        var (x, after) := DecodeDelimited(tag.rest).value;
        KnownFieldStays(a, b, tag, x, after);
        KnownFieldFirst(a, acc, tag, x, after);
        KnownFieldFirst(a + b, acc, tag.(rest := tag.rest + b), x, after + b);
        ConcatIsMerge(after, b, AfterField(tag.field, x, acc));
      } else {
        var after := SkipValue(tag.field, tag.wire, tag.rest, RECURSION_LIMIT).value;
        OtherFieldStays(a, b, tag, after);
        OtherFieldFirst(a, acc, tag, after);
        OtherFieldFirst(a + b, acc, tag.(rest := tag.rest + b), after + b);
        ConcatIsMerge(after, b, acc.(unknown := acc.unknown + Before(a, after)));
      }
    }
  }

  /** A message that is read begins with a field that is. */
  lemma FirstFieldIsRead(s: Bytes, acc: Payload)
    requires s != [] && ParsePayload(s, acc).Ok?
    ensures DecodeTag(s, MAX_FIELD).Some?
    ensures var Tag(field, wire, rest) := DecodeTag(s, MAX_FIELD).value;
      if wire == 2 && field <= 2 then
        DecodeDelimited(rest).Some? && (field == 1 ==> ParseEntry(DecodeDelimited(rest).value.0, [], []).Ok?)
      else SkipValue(field, wire, rest, RECURSION_LIMIT).Some?
  {
    hide DecodeDelimited, SkipValue, ParseEntry;
  }

  lemma KnownFieldFirst(s: Bytes, acc: Payload, tag: Tag, x: Bytes, after: Bytes)
    requires DecodeTag(s, MAX_FIELD) == Some(tag) && tag.wire == 2 && tag.field <= 2
    requires DecodeDelimited(tag.rest) == Some((x, after))
    requires tag.field == 1 ==> ParseEntry(x, [], []).Ok?
    ensures ParsePayload(s, acc) == ParsePayload(after, AfterField(tag.field, x, acc))
  {
    hide DecodeDelimited, SkipValue, ParseEntry;
    TagInRange(s);
  }

  lemma OtherFieldFirst(s: Bytes, acc: Payload, tag: Tag, after: Bytes)
    requires DecodeTag(s, MAX_FIELD) == Some(tag) && !(tag.wire == 2 && tag.field <= 2)
    requires SkipValue(tag.field, tag.wire, tag.rest, RECURSION_LIMIT) == Some(after)
    ensures |after| <= |s|
    ensures ParsePayload(s, acc) == ParsePayload(after, acc.(unknown := acc.unknown + Before(s, after)))
  {
    hide DecodeDelimited, SkipValue, ParseEntry;
  }

  lemma TagInRange(s: Bytes)
    requires DecodeTag(s, MAX_FIELD).Some?
    ensures DecodeTag(s, MAX_FIELD).value.field >= 1
  {
  }

  /** What a metadata or data field adds. */
  function AfterField(field: nat, x: Bytes, acc: Payload): Payload {
    if field == 2 then acc.(data := x)
    else match ParseEntry(x, [], [])
      case Err(_) => acc
      case Ok((k, v)) => acc.(metadata := acc.metadata[k := v])
  }

  /** A data field, and a metadata entry, wherever they come. */
  lemma FieldsAreRead(k: Bytes, v: Bytes, data: Bytes, acc: Payload)
    requires Valid(k) && |data| < Limit(0) && |MarshalEntry(k, v)| < Limit(0)
    ensures ParsePayload(Field(0x12, data), acc) == Ok(acc.(data := data))
    ensures ParsePayload(Field(0x0A, MarshalEntry(k, v)), acc) == Ok(acc.(metadata := acc.metadata[k := v]))
  {
    FieldTag(0x12, data, []);
    DelimitedRoundTrip(data, []);
    assert Field(0x12, data) + [] == Field(0x12, data);
    assert ParsePayload(Field(0x12, data), acc) == ParsePayload([], acc.(data := data));
    var entry := MarshalEntry(k, v);
    FieldTag(0x0A, entry, []);
    DelimitedRoundTrip(entry, []);
    EntryRoundTrip(k, v);
    assert Field(0x0A, entry) + [] == Field(0x0A, entry);
    assert ParsePayload(Field(0x0A, entry), acc) == ParsePayload([], acc.(metadata := acc.metadata[k := v]));
  }

  /** Field numbers are those from 1 to 2^29 - 1. */
  lemma FieldNumbersAre(field: nat, wire: nat, rest: Bytes)
    requires wire < 8 && 8 * field + wire < 0x1_0000_0000_0000_0000
    ensures DecodeTag(EncodeVarint(8 * field + wire) + rest, MAX_FIELD)
         == if 1 <= field < 0x2000_0000 then Some(Tag(field, wire, rest)) else None
  {
    hide EncodeVarint, DecodeVarint, Limit;
    LimitIs64Bit();
    VarintRoundTrip(8 * field + wire, 0, rest);
    assert (8 * field + wire) / 8 == field && (8 * field + wire) % 8 == wire;
  }
}
