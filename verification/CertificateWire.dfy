/** Decoding one upstream answer about the Alpenglow genesis certificate
    (crates/superbank-rpc/src/ag_genesis_cert.rs, `Upstream::fetch` and `decode_response`). */
module CertificateWire {
  import opened Basics

  type byte = x: int | 0 <= x < 256

  const MAX_RESPONSE_BYTES: nat := 64 * 1024

  datatype Certificate = Certificate(slot: u64, blockId: seq<byte>, signature: seq<byte>, bitmap: seq<byte>)

  datatype Error = NotConfigured | Timeout | Unavailable | InvalidResponse | UpstreamRpc(code: int)

  /** "No certificate" is an answer; an error is not. */
  datatype Evidence = Ok(cert: Option<Certificate>) | Err(error: Error)

  datatype Json =
    | Null
    | Bool(b: bool)
    | Integer(n: int)
    | Float(r: real)
    | Str(s: string)
    | Array(items: seq<Json>)
    | Object(fields: map<string, Json>)

  /** The foreign decoders: JSON text, the certificate's wire shape, and an error object's code. */
  datatype Codec = Codec(
    parse: seq<byte> -> Option<Json>,
    certificate: Json -> Option<Certificate>,
    errorCode: Json -> Option<int>)

  /** `Value::get`: absent on anything but an object. */
  function Get(v: Json, key: string): Option<Json> {
    if v.Object? && key in v.fields then Some(v.fields[key]) else None
  }

  function DecodeResponse(codec: Codec, bytes: seq<byte>): Evidence {
    match codec.parse(bytes)
    case None => Err(InvalidResponse)
    case Some(v) =>
      if Get(v, "jsonrpc") != Some(Str("2.0")) || Get(v, "id") != Some(Integer(1)) then Err(InvalidResponse)
      else
        match (Get(v, "result"), Get(v, "error"))
        case (Some(Null), None) => Ok(None)
        case (Some(result), None) =>
          (match codec.certificate(result)
           case Some(c) => Ok(Some(c))
           case None => Err(InvalidResponse))
        case (None, Some(error)) =>
          (match codec.errorCode(error)
           case Some(code) => Err(UpstreamRpc(code))
           case None => Err(InvalidResponse))
        case _ => Err(InvalidResponse)
  }

  /** A JSON-RPC 2.0 response to request 1 with exactly one of `result` and `error`, as section 5
      of that specification demands. A member that is null is there. */
  predicate WellFormedResponse(v: Json) {
    && v.Object?
    && "jsonrpc" in v.fields && v.fields["jsonrpc"] == Str("2.0")
    && "id" in v.fields && v.fields["id"] == Integer(1)
    && (("result" in v.fields) != ("error" in v.fields))
  }

  predicate HasResult(v: Json) {
    WellFormedResponse(v) && "result" in v.fields
  }

  predicate HasError(v: Json) {
    WellFormedResponse(v) && "error" in v.fields
  }

  /** "Null" is believed only of a well-formed response whose result is literally null, a
      certificate only of one whose result decodes to it, and an upstream error only of one whose
      error does; everything else is an invalid response. */
  lemma DecodeIsExact(codec: Codec, bytes: seq<byte>)
    ensures DecodeResponse(codec, bytes) == Ok(None) <==>
              var v := codec.parse(bytes);
              v.Some? && HasResult(v.value) && v.value.fields["result"] == Null
    ensures forall c :: DecodeResponse(codec, bytes) == Ok(Some(c)) <==>
              var v := codec.parse(bytes);
              && v.Some? && HasResult(v.value) && v.value.fields["result"] != Null
              && codec.certificate(v.value.fields["result"]) == Some(c)
    ensures forall code :: DecodeResponse(codec, bytes) == Err(UpstreamRpc(code)) <==>
              var v := codec.parse(bytes);
              v.Some? && HasError(v.value) && codec.errorCode(v.value.fields["error"]) == Some(code)
    ensures DecodeResponse(codec, bytes).Ok? || DecodeResponse(codec, bytes).error.UpstreamRpc?
            || DecodeResponse(codec, bytes) == Err(InvalidResponse)
  {
  }

  // ---- One exchange ---------------------------------------------------------------------

  /** What reading the next piece of the body yields. */
  datatype Chunk = Data(bytes: seq<byte>) | Broken(timeout: bool)

  datatype Reply =
    | SendFailed(timeout: bool)
    | Response(success: bool, contentLength: Option<nat>, chunks: seq<Chunk>)

  function TransportError(timeout: bool): Error {
    if timeout then Timeout else Unavailable
  }

  datatype Body = Whole(bytes: seq<byte>) | Refused(error: Error)

  function BodyFrom(chunks: seq<Chunk>, have: seq<byte>): Body
    requires |have| <= MAX_RESPONSE_BYTES
  {
    if chunks == [] then Whole(have)
    else match chunks[0]
      case Broken(timeout) => Refused(TransportError(timeout))
      case Data(bytes) =>
        if |bytes| > MAX_RESPONSE_BYTES - |have| then Refused(InvalidResponse)
        else BodyFrom(chunks[1..], have + bytes)
  }

  function FetchOf(codec: Codec, reply: Reply): Evidence {
    match reply
    case SendFailed(timeout) => Err(TransportError(timeout))
    case Response(success, length, chunks) =>
      if !success then Err(Unavailable)
      else if length.Some? && length.value > MAX_RESPONSE_BYTES then Err(InvalidResponse)
      else match BodyFrom(chunks, [])
        case Whole(bytes) => DecodeResponse(codec, bytes)
        case Refused(error) => Err(error)
  }

  function Concat(chunks: seq<Chunk>): seq<byte> {
    if chunks == [] then []
    else (if chunks[0].Data? then chunks[0].bytes else []) + Concat(chunks[1..])
  }

  /** The body is the whole of what was sent, never a truncation: it is accepted exactly when
      every piece arrived and all of them together stay within the bound. */
  lemma {:induction false} BodyIsWholeOrRefused(chunks: seq<Chunk>, have: seq<byte>)
    requires |have| <= MAX_RESPONSE_BYTES
    ensures BodyFrom(chunks, have).Whole? <==>
              (forall c :: c in chunks ==> c.Data?) && |have| + |Concat(chunks)| <= MAX_RESPONSE_BYTES
    ensures BodyFrom(chunks, have).Whole? ==> BodyFrom(chunks, have).bytes == have + Concat(chunks)
  {
    if chunks != [] {
      assert chunks == [chunks[0]] + chunks[1..];
      if chunks[0].Data? && |chunks[0].bytes| <= MAX_RESPONSE_BYTES - |have| {
        BodyIsWholeOrRefused(chunks[1..], have + chunks[0].bytes);
        assert have + chunks[0].bytes + Concat(chunks[1..]) == have + Concat(chunks);
      }
    }
  }

  /** The first piece that spoils the body: the connection broke there, or the bound was passed. */
  ghost predicate SpoiledAt(chunks: seq<Chunk>, have: nat, k: nat) {
    && k < |chunks|
    && (forall i :: 0 <= i < k ==> chunks[i].Data?)
    && have + |Concat(chunks[..k])| <= MAX_RESPONSE_BYTES
    && (chunks[k].Data? ==> have + |Concat(chunks[..k])| + |chunks[k].bytes| > MAX_RESPONSE_BYTES)
  }

  /** A body is refused for its first spoiling piece: as a timeout, as unavailable or as invalid. */
  lemma {:induction false} RefusalIsExact(chunks: seq<Chunk>, have: seq<byte>, k: nat)
    requires |have| <= MAX_RESPONSE_BYTES && SpoiledAt(chunks, |have|, k)
    ensures BodyFrom(chunks, have) == Refused(match chunks[k]
                                              case Broken(true) => Timeout
                                              case Broken(false) => Unavailable
                                              case Data(_) => InvalidResponse)
  {
    if k > 0 {
      var bytes := chunks[0].bytes;
      assert chunks[..k][1..] == chunks[1..][..k - 1];
      assert Concat(chunks[..k]) == bytes + Concat(chunks[1..][..k - 1]);
      RefusalIsExact(chunks[1..], have + bytes, k - 1);
    }
  }

  /** The bounded body loop. */
  method Fetch(codec: Codec, reply: Reply) returns (r: Evidence)
    ensures r == FetchOf(codec, reply)
  {
    if reply.SendFailed? {
      return Err(TransportError(reply.timeout));
    }
    if !reply.success {
      return Err(Unavailable);
    }
    if reply.contentLength.Some? && reply.contentLength.value > MAX_RESPONSE_BYTES {
      return Err(InvalidResponse);
    }
    var bytes: seq<byte> := [];
    for i := 0 to |reply.chunks|
      invariant |bytes| <= MAX_RESPONSE_BYTES
      invariant BodyFrom(reply.chunks, []) == BodyFrom(reply.chunks[i..], bytes)
    {
      assert reply.chunks[i..][1..] == reply.chunks[i + 1..];
      match reply.chunks[i] {
        case Broken(timeout) => return Err(TransportError(timeout));
        case Data(chunk) =>
          if |chunk| > MAX_RESPONSE_BYTES - |bytes| {
            return Err(InvalidResponse);
          }
          bytes := bytes + chunk;
      }
    }
    r := DecodeResponse(codec, bytes);
  }

  /** The upstream said, in full and in so many words, that there is no certificate. */
  ghost predicate SaysNull(codec: Codec, reply: Reply) {
    && reply.Response? && reply.success
    && (forall c :: c in reply.chunks ==> c.Data?)
    && var v := codec.parse(Concat(reply.chunks));
       v.Some? && HasResult(v.value) && v.value.fields["result"] == Null
  }

  /** No failure becomes null: a fetch yields `Ok(None)` only for an upstream that says null, and
      for one that does so within the size bound it always does. */
  lemma FetchNullExactly(codec: Codec, reply: Reply)
    ensures FetchOf(codec, reply) == Ok(None) <==>
              && SaysNull(codec, reply) && |Concat(reply.chunks)| <= MAX_RESPONSE_BYTES
              && (reply.contentLength.Some? ==> reply.contentLength.value <= MAX_RESPONSE_BYTES)
  {
    if reply.Response? {
      BodyIsWholeOrRefused(reply.chunks, []);
      assert [] + Concat(reply.chunks) == Concat(reply.chunks);
      DecodeIsExact(codec, Concat(reply.chunks));
    }
  }

  /** All the ways a fetch can end: not sent, refused by status, by announced length or by a spoiled
      body; otherwise whatever the whole body decodes to. */
  lemma FetchIsExact(codec: Codec, reply: Reply)
    ensures reply.SendFailed? ==> FetchOf(codec, reply) == Err(if reply.timeout then Timeout else Unavailable)
    ensures reply.Response? && !reply.success ==> FetchOf(codec, reply) == Err(Unavailable)
    ensures reply.Response? && reply.success && reply.contentLength.Some? && reply.contentLength.value > 65536 ==>
              FetchOf(codec, reply) == Err(InvalidResponse)
    ensures reply.Response? && reply.success && (reply.contentLength.Some? ==> reply.contentLength.value <= 65536) ==>
              && ((forall c :: c in reply.chunks ==> c.Data?) && |Concat(reply.chunks)| <= 65536 ==>
                    FetchOf(codec, reply) == DecodeResponse(codec, Concat(reply.chunks)))
              && (forall k: nat :: SpoiledAt(reply.chunks, 0, k) ==>
                    FetchOf(codec, reply) == Err(match reply.chunks[k]
                                                 case Broken(true) => Timeout
                                                 case Broken(false) => Unavailable
                                                 case Data(_) => InvalidResponse))
  {
    if reply.Response? {
      BodyIsWholeOrRefused(reply.chunks, []);
      assert [] + Concat(reply.chunks) == Concat(reply.chunks);
      forall k: nat | SpoiledAt(reply.chunks, 0, k)
        ensures BodyFrom(reply.chunks, []) == Refused(match reply.chunks[k]
                                                      case Broken(true) => Timeout
                                                      case Broken(false) => Unavailable
                                                      case Data(_) => InvalidResponse)
      {
        RefusalIsExact(reply.chunks, [], k);
      }
    }
  }
}
