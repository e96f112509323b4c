/** The base64 payload codec of the data_converter/codec feature. */
module PayloadCodec {
  import opened Seqs
  import opened Utf8
  import Base64
  import opened Protobuf

  /** "encoding", the metadata key converter.MetadataEncoding. */
  const ENCODING_KEY: Bytes := [0x65, 0x6E, 0x63, 0x6F, 0x64, 0x69, 0x6E, 0x67]

  /** "my-encoding" */
  const MY_ENCODING: Bytes := [0x6D, 0x79, 0x2D, 0x65, 0x6E, 0x63, 0x6F, 0x64, 0x69, 0x6E, 0x67]

  datatype CodecError = BadBase64 | Wire(error: Error)

  /** `order` gives, payload by payload, the order in which the runtime walks its metadata. */
  ghost predicate AreOrderings(orders: seq<seq<Bytes>>, ps: seq<Payload>) {
    |orders| == |ps| && forall i :: 0 <= i < |ps| ==> IsOrdering(orders[i], ps[i].metadata.Keys)
  }

  /** A Go byte slice holds fewer than 2^64 bytes; the marshalled form must fit one. */
  predicate Fits(order: seq<Bytes>, p: Payload)
    requires forall k :: k in order ==> k in p.metadata
  {
    |MarshalOrdered(order, p)| < 0x1_0000_0000_0000_0000
  }

  function Wrap(b: Bytes): Payload {
    Payload(map[ENCODING_KEY := MY_ENCODING], Base64.Encode(b), [])
  }

  /** Only payloads with our encoding are decoded. */
  predicate Ours(p: Payload) {
    ENCODING_KEY in p.metadata && p.metadata[ENCODING_KEY] == MY_ENCODING
  }

  function EncodeOne(order: seq<Bytes>, p: Payload): Result<Payload, CodecError>
    requires forall k :: k in order ==> k in p.metadata
  {
    match Marshal(order, p)
    case Err(e) => Err(Wire(e))
    case Ok(b) => Ok(Wrap(b))
  }

  function DecodeOne(p: Payload): Result<Payload, CodecError> {
    if !Ours(p) then Ok(p)
    else
      var d := Base64.Decode(p.data);
      if !d.ok then Err(BadBase64)
      else match Unmarshal(d.bytes)
        case Err(e) => Err(Wire(e))
        case Ok(q) => Ok(q)
  }

  /** The result of a list is the list of results, or the error of the first that fails. */
  ghost predicate IsPointwise(rs: seq<Result<Payload, CodecError>>, out: Result<seq<Payload>, CodecError>) {
    match out
    case Ok(qs) => |qs| == |rs| && forall i :: 0 <= i < |rs| ==> rs[i] == Ok(qs[i])
    case Err(e) =>
      exists i :: 0 <= i < |rs| && rs[i] == Err(e) && forall j :: 0 <= j < i ==> rs[j].Ok?
  }

  ghost function EncodeResults(orders: seq<seq<Bytes>>, ps: seq<Payload>): (rs: seq<Result<Payload, CodecError>>)
    requires AreOrderings(orders, ps)
    ensures |rs| == |ps|
  {
    seq(|ps|, i requires 0 <= i < |ps| && IsOrdering(orders[i], ps[i].metadata.Keys) =>
      EncodeOne(orders[i], ps[i]))
  }

  function DecodeResults(ps: seq<Payload>): (rs: seq<Result<Payload, CodecError>>)
    ensures |rs| == |ps|
  {
    Map(ps, p => DecodeOne(p))
  }

  /** A Go (value, error) pair read as one result. */
  function Outcome(values: seq<Payload>, err: Option<CodecError>): Result<seq<Payload>, CodecError> {
    if err.None? then Ok(values) else Err(err.value)
  }

  /** base64Codec.Encode: a fresh slice filled element by element; on an error the input itself. */
  method Encode(payloads: array<Payload>, orders: seq<seq<Bytes>>)
    returns (result: array<Payload>, err: Option<CodecError>)
    requires AreOrderings(orders, payloads[..])
    ensures if err.None? then fresh(result) else result == payloads
    ensures IsPointwise(EncodeResults(orders, payloads[..]), Outcome(result[..], err))
  {
    result := new Payload[payloads.Length](_ => EMPTY);
    ghost var rs := EncodeResults(orders, payloads[..]);
    for i := 0 to payloads.Length
      invariant payloads[..] == old(payloads[..])
      invariant forall j :: 0 <= j < i ==> rs[j] == Ok(result[j])
    {
      assert IsOrdering(orders[i], payloads[..][i].metadata.Keys);
      match Marshal(orders[i], payloads[i])
      case Err(e) =>
        assert rs[i] == Err(Wire(e));
        return payloads, Some(Wire(e));
      case Ok(b) =>
        result[i] := Wrap(b);
    }
    err := None;
  }

  /** base64Codec.Decode: foreign payloads are copied, ours are decoded. */
  method Decode(payloads: array<Payload>) returns (result: array<Payload>, err: Option<CodecError>)
    ensures if err.None? then fresh(result) else result == payloads
    ensures IsPointwise(DecodeResults(payloads[..]), Outcome(result[..], err))
  {
    result := new Payload[payloads.Length](_ => EMPTY);
    ghost var rs := DecodeResults(payloads[..]);
    for i := 0 to payloads.Length
      invariant payloads[..] == old(payloads[..])
      invariant forall j :: 0 <= j < i ==> rs[j] == Ok(result[j])
    {
      var p := payloads[i];
      assert rs[i] == DecodeOne(p);
      if !Ours(p) {
        result[i] := p;
        continue;
      }
      var d := Base64.Decode(p.data);
      if !d.ok {
        return payloads, Some(BadBase64);
      }
      match Unmarshal(d.bytes)
      case Err(e) => return payloads, Some(Wire(e));
      case Ok(q) => result[i] := q;
    }
    err := None;
  }

  lemma PointwiseIsUnique(rs: seq<Result<Payload, CodecError>>, a: Result<seq<Payload>, CodecError>,
                          b: Result<seq<Payload>, CodecError>)
    requires IsPointwise(rs, a) && IsPointwise(rs, b)
    ensures a == b
  {
    match (a, b) {
      case (Ok(x), Ok(y)) =>
        assert forall i :: 0 <= i < |rs| ==> Result<Payload, CodecError>.Ok(x[i]) == rs[i] == Ok(y[i]);
        assert x == y;
      case (Err(e), Err(f)) =>
        var i :| 0 <= i < |rs| && rs[i] == Err(e) && forall j :: 0 <= j < i ==> rs[j].Ok?;
        var k :| 0 <= k < |rs| && rs[k] == Err(f) && forall j :: 0 <= j < k ==> rs[j].Ok?;
        assert !(i < k) && !(k < i);
      case _ =>
    }
  }

  lemma OneRoundTrip(order: seq<Bytes>, p: Payload)
    requires IsOrdering(order, p.metadata.Keys) && Fits(order, p) && WellFormed(p)
    ensures EncodeOne(order, p).Ok? && DecodeOne(EncodeOne(order, p).value) == Ok(p)
  {
    hide Unmarshal, MarshalOrdered, IsUnknown;
    LimitIs64Bit();
    Base64.RoundTrip(MarshalOrdered(order, p));
    UnmarshalMarshal(order, p);
  }

  /** Decoding undoes encoding, payload by payload: for every list, whatever the encoding of its
      payloads (also "my-encoding"), whatever fields they have besides metadata and data, and whatever
      order the runtime writes their metadata in. Encoding itself fails exactly when some metadata key
      is not UTF-8. */
  lemma RoundTrip(ps: seq<Payload>, orders: seq<seq<Bytes>>, encoded: Result<seq<Payload>, CodecError>,
                  decoded: Result<seq<Payload>, CodecError>)
    requires AreOrderings(orders, ps)
    requires forall i :: 0 <= i < |ps| ==> Fits(orders[i], ps[i]) && IsUnknown(ps[i].unknown)
    requires IsPointwise(EncodeResults(orders, ps), encoded)
    requires encoded.Ok? ==> IsPointwise(DecodeResults(encoded.value), decoded)
    ensures encoded.Ok? <==> forall i :: 0 <= i < |ps| ==> KeysValid(ps[i])
    ensures encoded.Ok? ==> decoded == Ok(ps)
  {
    var es := EncodeResults(orders, ps);
    forall i | 0 <= i < |ps|
      ensures es[i].Ok? <==> KeysValid(ps[i])
      ensures KeysValid(ps[i]) ==> DecodeOne(es[i].value) == Ok(ps[i])
    {
      if KeysValid(ps[i]) {
        OneRoundTrip(orders[i], ps[i]);
      }
    }
    if encoded.Ok? {
      var ds := DecodeResults(encoded.value);
      forall i | 0 <= i < |ps|
        ensures ds[i] == Ok(ps[i])
      {
        assert es[i] == Ok(encoded.value[i]);
      }
      PointwiseIsUnique(ds, decoded, Ok(ps));
    }
  }

  lemma OneStaysWellFormed(order: seq<Bytes>, p: Payload)
    requires forall k :: k in order ==> k in p.metadata
    ensures EncodeOne(order, p).Ok? ==> WellFormed(EncodeOne(order, p).value)
    ensures WellFormed(p) && DecodeOne(p).Ok? ==> WellFormed(DecodeOne(p).value)
  {
    if Ours(p) {
      UnmarshalIsWellFormed(Base64.Decode(p.data).bytes);
    }
    hide Unmarshal, MarshalOrdered;
    AsciiIsValid(ENCODING_KEY);
  }

  /** Payloads that can be marshalled stay so: whatever is encoded can be encoded again, and so can
      whatever is decoded from payloads that could. */
  lemma CodecKeepsWellFormed(ps: seq<Payload>, orders: seq<seq<Bytes>>, encoded: Result<seq<Payload>, CodecError>,
                             decoded: Result<seq<Payload>, CodecError>)
    requires AreOrderings(orders, ps)
    requires IsPointwise(EncodeResults(orders, ps), encoded) && IsPointwise(DecodeResults(ps), decoded)
    ensures encoded.Ok? ==> forall i :: 0 <= i < |ps| ==> WellFormed(encoded.value[i])
    ensures decoded.Ok? && (forall i :: 0 <= i < |ps| ==> WellFormed(ps[i])) ==>
      forall i :: 0 <= i < |ps| ==> WellFormed(decoded.value[i])
  {
    hide WellFormed;
    var (es, ds) := (EncodeResults(orders, ps), DecodeResults(ps));
    forall i | 0 <= i < |ps|
      ensures es[i].Ok? ==> WellFormed(es[i].value)
      ensures WellFormed(ps[i]) && ds[i].Ok? ==> WellFormed(ds[i].value)
    {
      OneStaysWellFormed(orders[i], ps[i]);
    }
    assert encoded.Ok? ==> forall i :: 0 <= i < |ps| ==> es[i] == Ok(encoded.value[i]);
    assert decoded.Ok? ==> forall i :: 0 <= i < |ps| ==> ds[i] == Ok(decoded.value[i]);
  }

  lemma TheNames()
    ensures ENCODING_KEY == Utf8.Encode("encoding") && MY_ENCODING == Utf8.Encode("my-encoding")
  {
    hide Utf8.Encode;
    AsciiText("encoding", ENCODING_KEY);
    AsciiText("my-encoding", MY_ENCODING);
  }

  /** Exactly the payloads whose metadata entry "encoding" is "my-encoding" are decoded, each to the
      message in the base64 of its data; every other payload keeps its value, all keep their position,
      and decoding fails exactly when some payload with that encoding does not decode. */
  lemma ForeignUntouched(ps: seq<Payload>, decoded: Result<seq<Payload>, CodecError>)
    requires IsPointwise(DecodeResults(ps), decoded)
    ensures decoded.Ok? ==> |decoded.value| == |ps|
    ensures decoded.Ok? ==> forall i :: 0 <= i < |ps| ==>
      if Utf8.Encode("encoding") in ps[i].metadata
         && ps[i].metadata[Utf8.Encode("encoding")] == Utf8.Encode("my-encoding")
      then Base64.Decode(ps[i].data).ok && Unmarshal(Base64.Decode(ps[i].data).bytes) == Ok(decoded.value[i])
      else decoded.value[i] == ps[i]
    ensures decoded.Err? <==> exists i ::
      && 0 <= i < |ps| && Utf8.Encode("encoding") in ps[i].metadata
      && ps[i].metadata[Utf8.Encode("encoding")] == Utf8.Encode("my-encoding")
      && !(Base64.Decode(ps[i].data).ok && Unmarshal(Base64.Decode(ps[i].data).bytes).Ok?)
  {
    hide Base64.Decode, Unmarshal, Utf8.Encode;
    TheNames();
    hide ENCODING_KEY, MY_ENCODING;
    var rs := DecodeResults(ps);
    assert forall i :: 0 <= i < |ps| ==> rs[i] == DecodeOne(ps[i]);
    if decoded.Ok? {
      assert forall i :: 0 <= i < |ps| ==> rs[i] == Ok(decoded.value[i]);
    } else {
      var i :| 0 <= i < |rs| && rs[i] == Err(decoded.error) && forall j :: 0 <= j < i ==> rs[j].Ok?;
      assert DecodeOne(ps[i]).Err?;
    }
  }

  /** Every encoded payload has the metadata entry "encoding" with "my-encoding" and nothing else, and as
      data the base64 of the marshalled payload. */
  lemma EncodedHave(ps: seq<Payload>, orders: seq<seq<Bytes>>, encoded: Result<seq<Payload>, CodecError>)
    requires AreOrderings(orders, ps) && IsPointwise(EncodeResults(orders, ps), encoded)
    ensures encoded.Ok? ==> |encoded.value| == |ps|
    ensures encoded.Ok? ==> forall i :: 0 <= i < |ps| ==>
      && encoded.value[i].metadata == map[Utf8.Encode("encoding") := Utf8.Encode("my-encoding")]
      && encoded.value[i].unknown == []
      && Marshal(orders[i], ps[i]).Ok? && encoded.value[i].data == Base64.Encode(Marshal(orders[i], ps[i]).value)
  {
    TheNames();
    hide Base64.Encode, Marshal, Utf8.Encode;
    var rs := EncodeResults(orders, ps);
    assert forall i :: 0 <= i < |ps| ==> rs[i] == EncodeOne(orders[i], ps[i]);
    if encoded.Ok? {
      assert forall i :: 0 <= i < |ps| ==> rs[i] == Ok(encoded.value[i]);
    }
  }
}
