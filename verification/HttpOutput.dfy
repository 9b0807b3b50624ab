/** The writer's loops over an unreliable byte sink, proved against the encodings of HttpWriter. */
module HttpOutput {
  import opened Octets
  import opened HttpTypes
  import opened HttpParser
  import opened HttpWriter
  import opened HttpRoundTrip

  // ----- The sink -----

  /** An io.Writer: each call reports how much it took and whether it failed, as `script` decides. */
  class Sink {
    var written: string
    var calls: nat
    var faulty: bool   // some call failed, took nothing or claimed an impossible count
    const script: nat -> (int, bool)

    constructor (script: nat -> (int, bool))
      ensures written == "" && calls == 0 && !faulty && this.script == script
    {
      written, calls, faulty := "", 0, false;
      this.script := script;
    }

    method Write(data: string) returns (n: int, failed: bool)
      modifies this
      ensures (n, failed) == script(old(calls)) && calls == old(calls) + 1
      ensures 0 <= n <= |data| ==> written == old(written) + data[..n]
      ensures !(0 <= n <= |data|) ==> written == old(written)
      ensures faulty == (old(faulty) || failed || n <= 0 || n > |data|)
    {
      n, failed := script(calls).0, script(calls).1;
      calls := calls + 1;
      if 0 <= n <= |data| { written := written + data[..n]; }
      faulty := faulty || failed || n <= 0 || n > |data|;
    }
  }

  /** A sink that held `before` now also holds a prefix of `data`, and nothing else. */
  ghost predicate Extends(before: string, after: string, data: string) {
    before <= after && after <= before + data
  }

  lemma ExtendsFurther(before: string, after: string, a: string, b: string)
    requires Extends(before, after, a)
    ensures Extends(before, after, a + b)
  {
    ConcatTail3(before, a, b);
  }

  lemma ExtendsAfter(before: string, a: string, after: string, b: string)
    requires Extends(before + a, after, b)
    ensures Extends(before, after, a + b)
  {
    ConcatTail3(before, a, b);
  }

  /** Repeats short writes until everything is out; it fails exactly when the sink was at fault, and then leaves
      a prefix of the data behind. */
  method WriteAll(sink: Sink, data: string) returns (ok: bool)
    modifies sink
    ensures ok ==> sink.written == old(sink.written) + data
    ensures Extends(old(sink.written), sink.written, data)
    ensures sink.faulty == (old(sink.faulty) || !ok)
  {
    var rest := data;
    ghost var done := 0;
    while rest != ""
      invariant 0 <= done <= |data| && rest == data[done..] && sink.written == old(sink.written) + data[..done]
      invariant sink.faulty == old(sink.faulty)
      decreases |rest|
    {
      var n, failed := sink.Write(rest);
      if n < 0 || n > |rest| { return false; }
      assert data[..done] + rest[..n] == data[..done + n];
      rest := rest[n..];
      done := done + n;
      assert data == data[..done] + data[done..];
      if failed || n == 0 { return false; }
    }
    assert data[..done] == data;
    return true;
  }

  /** Three writes, one after the other. */
  method WritePieces(sink: Sink, a: string, b: string, c: string) returns (ok: bool)
    modifies sink
    ensures ok ==> sink.written == old(sink.written) + (a + b + c)
    ensures Extends(old(sink.written), sink.written, a + b + c)
    ensures sink.faulty == (old(sink.faulty) || !ok)
  {
    ghost var before := sink.written;
    ok := WriteAll(sink, a);
    ExtendsFurther(before, sink.written, a, b);
    ExtendsFurther(before, sink.written, a + b, c);
    if !ok { return; }
    ok := WriteAll(sink, b);
    ExtendsAfter(before, a, sink.written, b);
    ExtendsFurther(before, sink.written, a + b, c);
    if !ok { return; }
    ConcatTail3(before, a, b);
    ok := WriteAll(sink, c);
    ExtendsAfter(before, a + b, sink.written, c);
    ConcatTail3(before, a + b, c);
  }

  datatype Outcome = Done | Refused(error: ErrorKind) | WriteFailed

  method WriteHeaderBlock(sink: Sink, headers: Fields) returns (ok: bool)
    modifies sink
    ensures ok ==> sink.written == old(sink.written) + EncodeFields(headers)
    ensures Extends(old(sink.written), sink.written, EncodeFields(headers))
    ensures sink.faulty == (old(sink.faulty) || !ok)
  {
    hide EncodeField;
    for i := 0 to |headers|
      invariant sink.written + EncodeFields(headers[i..]) == old(sink.written) + EncodeFields(headers)
      invariant old(sink.written) <= sink.written
      invariant sink.faulty == old(sink.faulty)
    {
      var line := EncodeField(headers[i]) + "\r\n";
      ghost var before, tail := sink.written, EncodeFields(headers[i + 1..]);
      assert headers[i..][0] == headers[i] && headers[i..][1..] == headers[i + 1..];
      assert EncodeFields(headers[i..]) == line + tail;
      ok := WriteAll(sink, line);
      ExtendsFurther(before, sink.written, line, tail);
      if !ok { return; }
      ConcatTail3(before, line, tail);
    }
    assert headers[|headers|..] == [];
    ok := WriteAll(sink, "\r\n");
  }

  // ----- Header lists -----

  method RemoveFramingFields(fields: Fields) returns (filtered: Fields)
    ensures filtered == WithoutFraming(fields)
  {
    hide IsFraming;
    filtered := [];
    for i := 0 to |fields|
      invariant filtered + WithoutFraming(fields[i..]) == WithoutFraming(fields)
    {
      assert fields[i..][0] == fields[i] && fields[i..][1..] == fields[i + 1..];
      if !IsFraming(fields[i].name) { filtered := filtered + [fields[i]]; }
    }
    assert fields[|fields|..] == [];
  }

  method AppendTrailerDeclaration(headers: Fields, trailers: Fields) returns (declared: Fields)
    ensures declared == headers + TrailerDeclaration(trailers)
  {
    hide ToLower;
    if trailers == [] { return headers; }
    var names: seq<string>, seen: set<string> := [], {};
    for i := 0 to |trailers|
      invariant names + TrailerNames(trailers[i..], seen) == TrailerNames(trailers, {})
    {
      assert trailers[i..][0] == trailers[i] && trailers[i..][1..] == trailers[i + 1..];
      var key := ToLower(trailers[i].name);
      if key in seen { continue; }
      seen := seen + {key};
      names := names + [trailers[i].name];
    }
    assert trailers[|trailers|..] == [] && names + [] == names;
    return headers + [Field("Trailer", Join(names, ", "))];
  }

  /** Every trailer name is declared, and declared once whatever its spelling. */
  lemma {:induction false} TrailerNamesComplete(trailers: Fields, seen: set<string>)
    ensures forall i :: 0 <= i < |trailers| && ToLower(trailers[i].name) !in seen ==>
              exists k :: 0 <= k < |TrailerNames(trailers, seen)|
                          && ToLower(TrailerNames(trailers, seen)[k]) == ToLower(trailers[i].name)
    ensures forall k :: 0 <= k < |TrailerNames(trailers, seen)| ==> ToLower(TrailerNames(trailers, seen)[k]) !in seen
    ensures forall j, k :: 0 <= j < k < |TrailerNames(trailers, seen)| ==>
              ToLower(TrailerNames(trailers, seen)[j]) != ToLower(TrailerNames(trailers, seen)[k])
  {
    hide ToLower;
    if trailers != [] {
      var key, tail := ToLower(trailers[0].name), trailers[1..];
      var names := TrailerNames(trailers, seen);
      var seen' := if key in seen then seen else seen + {key};
      var more := TrailerNames(tail, seen');
      TrailerNamesComplete(tail, seen');
      var offset := if key in seen then 0 else 1;
      assert forall k :: 0 <= k < |more| ==> names[k + offset] == more[k];
      forall i | 0 <= i < |trailers| && ToLower(trailers[i].name) !in seen
        ensures exists k :: 0 <= k < |names| && ToLower(names[k]) == ToLower(trailers[i].name)
      {
        if ToLower(trailers[i].name) == key {
          assert names[0] == trailers[0].name;
        } else {
          assert trailers[i] == tail[i - 1];
          var k :| 0 <= k < |more| && ToLower(more[k]) == ToLower(tail[i - 1].name);
          assert names[k + offset] == more[k];
        }
      }
    }
  }

  // ----- The chunked writer -----

  lemma {:induction false} EncodeChunksSnoc(writes: seq<string>, data: string)
    ensures EncodeChunks(writes + [data]) == EncodeChunks(writes) + EncodeChunk(data)
  {
    hide EncodeChunk;
    if writes == [] {
      assert writes + [data] == [data] && [data][1..] == [];
    } else {
      assert (writes + [data])[1..] == writes[1..] + [data];
      EncodeChunksSnoc(writes[1..], data);
      ConcatTail3(EncodeChunk(writes[0]), EncodeChunks(writes[1..]), EncodeChunk(data));
    }
  }

  class ChunkedBodyWriter {
    const sink: Sink
    const trailers: Fields
    var closed: bool
    ghost var base: string           // what the sink held at the start
    ghost var history: seq<string>   // the data of every completed Write
    ghost var broken: bool           // some write to the sink failed

    constructor (sink: Sink, trailers: Fields)
      requires AllSendable(trailers) && ValidTrailers(trailers)
      ensures this.sink == sink && this.trailers == trailers && !closed
      ensures base == sink.written && history == [] && !broken && Valid()
    {
      this.sink, this.trailers, this.closed := sink, trailers, false;
      this.base, this.history, this.broken := sink.written, [], false;
    }

    /** The sink holds the chunks of all completed writes and, once closed, the last chunk. */
    ghost predicate Valid()
      reads this, sink
    {
      !broken ==> sink.written == base + EncodeChunks(history) + (if closed then EncodeLastChunk(trailers) else "")
    }

    method Write(data: string) returns (o: Outcome)
      requires Valid()
      modifies this`history, this`broken, sink
      ensures Valid()
      ensures old(closed) ==> o == Refused(InvalidGeneratedMessage)
      ensures o.Refused? ==> old(closed) && sink.written == old(sink.written) && history == old(history)
      ensures o.Done? ==> history == old(history) + [data] && broken == old(broken)
      ensures o.WriteFailed? ==> broken && Extends(old(sink.written), sink.written, EncodeChunk(data))
      ensures sink.faulty == (old(sink.faulty) || o.WriteFailed?)
    {
      hide EncodeChunks, EncodeLastChunk, Numeral;
      if closed { return Refused(InvalidGeneratedMessage); }
      EncodeChunksSnoc(history, data);
      ghost var before := sink.written;
      ghost var encoded := EncodeChunks(history);
      if data == "" {
        history := history + [data];
        return Done;
      }
      var header := Numeral(|data|, 16) + "\r\n";
      var ok := WritePieces(sink, header, data, "\r\n");
      if !ok {
        broken := true;
        return WriteFailed;
      }
      assert EncodeChunk(data) == header + data + "\r\n";
      assert !broken ==> before == base + encoded;
      ConcatTail3(base, encoded, EncodeChunk(data));
      history := history + [data];
      return Done;
    }

    method Close() returns (ok: bool)
      requires Valid()
      modifies this`closed, this`broken, sink
      ensures Valid() && closed && history == old(history)
      ensures old(closed) ==> ok && sink.written == old(sink.written) && broken == old(broken)
      ensures ok ==> broken == old(broken)
      ensures Extends(old(sink.written), sink.written, EncodeLastChunk(trailers))
      ensures sink.faulty == (old(sink.faulty) || !ok)
    {
      hide EncodeChunks, EncodeFields;
      if closed { return true; }
      closed := true;
      ghost var before := sink.written;
      ok := WriteAll(sink, "0\r\n");
      ExtendsFurther(before, sink.written, "0\r\n", EncodeFields(trailers));
      if ok {
        ok := WriteHeaderBlock(sink, trailers);
        ExtendsAfter(before, "0\r\n", sink.written, EncodeFields(trailers));
      }
      if !ok {
        broken := true;
      } else {
        ConcatTail3(before, "0\r\n", EncodeFields(trailers));
        assert base + EncodeChunks(history) + "" == base + EncodeChunks(history);
      }
    }
  }

  // ----- Messages -----

  /** A whole body as one chunk, if it is not empty, and the last chunk. */
  method WriteChunkedBody(sink: Sink, body: string, trailers: Fields) returns (ok: bool)
    requires AllSendable(trailers) && ValidTrailers(trailers)
    modifies sink
    ensures ok ==> sink.written == old(sink.written) + (EncodeChunk(body) + EncodeLastChunk(trailers))
    ensures Extends(old(sink.written), sink.written, EncodeChunk(body) + EncodeLastChunk(trailers))
    ensures sink.faulty == (old(sink.faulty) || !ok)
  {
    hide EncodeLastChunk, EncodeChunk, EncodeChunks, AllSendable, ValidTrailers;
    ghost var before, last := sink.written, EncodeLastChunk(trailers);
    var chunked := new ChunkedBodyWriter(sink, trailers);
    EmptyChunk();
    if body != "" {
      var o := chunked.Write(body);
      if !o.Done? {
        ExtendsFurther(before, sink.written, EncodeChunk(body), last);
        return false;
      }
      OneChunk(body);
      assert [] + [body] == [body];
    }
    assert before + EncodeChunk(body) + "" == before + EncodeChunk(body);
    ok := chunked.Close();
    ExtendsAfter(before, EncodeChunk(body), sink.written, last);
    ConcatTail3(before, EncodeChunk(body), last);
  }

  method WriteMessageBody(sink: Sink, mode: BodyMode, body: string, trailers: Fields) returns (o: Outcome)
    modifies sink
    ensures o.Done? ==> EncodeBody(mode, body, trailers).Ok?
                        && sink.written == old(sink.written) + EncodeBody(mode, body, trailers).value
    ensures o.Refused? ==> EncodeBody(mode, body, trailers) == Err(o.error) && sink.written == old(sink.written)
    ensures o.WriteFailed? ==> EncodeBody(mode, body, trailers).Ok?
                               && Extends(old(sink.written), sink.written, EncodeBody(mode, body, trailers).value)
    ensures sink.faulty == (old(sink.faulty) || o.WriteFailed?)
  {
    hide EncodeLastChunk, Sendable, ForbiddenInTrailers;
    match mode {
      case NoBody => return Done;
      case Fixed =>
        var ok := WriteAll(sink, body);
        return if ok then Done else WriteFailed;
      case Chunked =>
        if !AllSendable(trailers) { return Refused(InvalidGeneratedMessage); }
        if !ValidTrailers(trailers) { return Refused(MalformedHeader); }
        var ok := WriteChunkedBody(sink, body, trailers);
        return if ok then Done else WriteFailed;
      case CloseDelimited => return Refused(InvalidGeneratedMessage);
    }
  }

  lemma EmptyChunk()
    ensures EncodeChunks([]) == EncodeChunk("") == ""
  {
  }

  /** The body's octets, or none when the body is refused. */
  function BodyOrNothing(mode: BodyMode, body: string, trailers: Fields): string {
    match EncodeBody(mode, body, trailers)
    case Ok(encoded) => encoded
    case Err(_) => ""
  }

  /** Writes a start line, the fields and the body in pieces. A refused body leaves the whole head behind; a
      failed write leaves a prefix of what was to be written. */
  method WriteMessage(sink: Sink, line: string, fields: Fields, mode: BodyMode, body: string, trailers: Fields)
    returns (o: Outcome)
    modifies sink
    ensures var head := line + "\r\n" + EncodeFields(fields);
            && (o.Done? ==> EncodeBody(mode, body, trailers).Ok?
                            && sink.written == old(sink.written) + (head + EncodeBody(mode, body, trailers).value))
            && (o.Refused? ==> EncodeBody(mode, body, trailers) == Err(o.error)
                               && sink.written == old(sink.written) + head)
            && (o.WriteFailed? ==>
                  Extends(old(sink.written), sink.written, head + BodyOrNothing(mode, body, trailers)))
    ensures sink.faulty == (old(sink.faulty) || o.WriteFailed?)
  {
    hide EncodeFields, EncodeBody, Extends;
    ghost var before, whole := sink.written, BodyOrNothing(mode, body, trailers);
    var ok := WriteAll(sink, line + "\r\n");
    ghost var first := sink.written;
    if ok { ok := WriteHeaderBlock(sink, fields); }
    ghost var head := line + "\r\n" + EncodeFields(fields);
    assert Extends(before, sink.written, head) by {
      ExtendsFurther(before, first, line + "\r\n", EncodeFields(fields));
      if first == before + (line + "\r\n") && Extends(first, sink.written, EncodeFields(fields)) {
        ExtendsAfter(before, line + "\r\n", sink.written, EncodeFields(fields));
      }
    }
    if !ok {
      ExtendsFurther(before, sink.written, head, whole);
      return WriteFailed;
    }
    ConcatTail3(before, line + "\r\n", EncodeFields(fields));
    o := WriteMessageBody(sink, mode, body, trailers);
    ConcatTail3(before, head, whole);
    if o.WriteFailed? { ExtendsAfter(before, head, sink.written, whole); }
  }

  method FramedFields(kept: Fields, mode: BodyMode, body: string, trailers: Fields) returns (fields: Fields)
    ensures fields == kept + FramingFields(mode, body, trailers)
  {
    hide TrailerDeclaration, Itoa;
    match mode {
      case Fixed => return kept + [Field("Content-Length", Itoa(|body|))];
      case Chunked =>
        var coding := [Field("Transfer-Encoding", "chunked")];
        fields := AppendTrailerDeclaration(kept + coding, trailers);
        assert kept + coding + TrailerDeclaration(trailers) == kept + (coding + TrailerDeclaration(trailers));
      case NoBody => return kept;
      case CloseDelimited => return kept;
    }
  }

  /** What the writer would send if the sink took everything: the encoding, or the head of a late refusal. */
  function RequestOctets(request: Request, isIP: string -> bool): string {
    match EncodeRequest(request, isIP)
    case Ok(encoded) => encoded
    case Err(_) => if RefusedLate(request, isIP) then HeadOf(request) else ""
  }

  /** The refusals that come after the head is out: everything passes but the trailers of a chunked body. */
  predicate RefusedLate(request: Request, isIP: string -> bool) {
    PassesChecks(request, isIP) && request.mode.Chunked? && !AllSendable(request.trailers)
  }

  /** Once the checks have passed, only the body can be refused. */
  lemma OnlyBodyIsRefused(request: Request, isIP: string -> bool)
    requires PassesChecks(request, isIP)
    ensures var mode := RequestMode(request);
            && (EncodeBody(mode, request.body, request.trailers).Err? <==> RefusedLate(request, isIP))
            && RequestOctets(request, isIP)
               == HeadOf(request) + BodyOrNothing(mode, request.body, request.trailers)
            && (EncodeRequest(request, isIP).Err? ==>
                  EncodeBody(mode, request.body, request.trailers) == Err(EncodeRequest(request, isIP).error))
            && (EncodeRequest(request, isIP).Err? <==> EncodeBody(mode, request.body, request.trailers).Err?)
  {
    hide ParseRequestLine, AllSendable, RequestHeaderError, ValidTrailers, EncodeFields, FramingFields, WithoutFraming,
         EncodeChunk, EncodeLastChunk;
    assert HeadOf(request) + "" == HeadOf(request);
  }

  /** Emits exactly the encoding of the request, or refuses it with the encoding's error. A refusal has sent
      nothing, or the whole head exactly when it is late; a failed write leaves a prefix behind. */
  method WriteHTTPRequest(sink: Sink, request: Request, isIP: string -> bool) returns (o: Outcome)
    modifies sink
    ensures o.Done? ==> EncodeRequest(request, isIP).Ok?
                        && sink.written == old(sink.written) + EncodeRequest(request, isIP).value
    ensures o.Refused? ==> && EncodeRequest(request, isIP) == Err(o.error)
                           && sink.written == old(sink.written)
                                              + (if RefusedLate(request, isIP) then HeadOf(request) else "")
    ensures o.WriteFailed? ==> Extends(old(sink.written), sink.written, RequestOctets(request, isIP))
    ensures sink.faulty == (old(sink.faulty) || o.WriteFailed?)
  {
    hide ParseRequestLine, AllSendable, RequestHeaderError, ValidTrailers, EncodeFields, EncodeBody, FramingFields,
         WithoutFraming;
    var version := VersionOr11(request.version);
    var line := request.verb + " " + request.target + " " + version;
    var start := ParseRequestLine(line);
    if start.Err? { return Refused(start.error); }
    if start.value != RequestStart(request.verb, request.target) || version != HTTP_VERSION {
      return Refused(InvalidGeneratedMessage);
    }
    if !AllSendable(request.headers) { return Refused(InvalidGeneratedMessage); }
    var checks := RequestHeaderError(request.headers, isIP);
    if checks.Err? { return Refused(checks.error); }
    if !ValidTrailers(request.trailers) { return Refused(MalformedHeader); }
    var mode := RequestMode(request);
    if mode.CloseDelimited? {
      assert EncodeBody(mode, request.body, request.trailers) == Err(InvalidGeneratedMessage) by {
        CloseDelimitedIsRefused(request.body, request.trailers);
      }
      return Refused(InvalidGeneratedMessage);
    }
    var kept := RemoveFramingFields(request.headers);
    var fields := FramedFields(kept, mode, request.body, request.trailers);
    OnlyBodyIsRefused(request, isIP);
    o := WriteMessage(sink, line, fields, mode, request.body, request.trailers);
  }

  lemma CloseDelimitedIsRefused(body: string, trailers: Fields)
    ensures EncodeBody(CloseDelimited, body, trailers) == Err(InvalidGeneratedMessage)
  {
  }

  function ResponseOctets(response: Response, verb: string): string {
    match EncodeResponse(response, verb)
    case Ok(encoded) => encoded
    case Err(_) =>
      if ResponseRefusedLate(response, verb) then ResponseHeadOf(response, verb) else ""
  }

  /** What the response writer checks before it sends anything. */
  predicate ResponsePasses(response: Response, verb: string) {
    && (response.version == "" || response.version == HTTP_VERSION) && 100 <= response.status <= 599
    && ValidFieldValue(ResponseReason(response)) && AllSendable(response.headers)
    && ValidConnectionFields(response.headers) && !OpensTunnel(verb, response.status, response.headers)
    && ValidTrailers(response.trailers) && !response.mode.CloseDelimited?
  }

  predicate ResponseRefusedLate(response: Response, verb: string) {
    && ResponsePasses(response, verb) && response.mode.Chunked? && !MustNotHaveBody(verb, response.status)
    && !AllSendable(response.trailers)
  }

  lemma OnlyResponseBodyIsRefused(response: Response, verb: string)
    requires ResponsePasses(response, verb)
    ensures var mode := ResponseMode(response, verb);
            && (EncodeBody(mode, response.body, response.trailers).Err? <==> ResponseRefusedLate(response, verb))
            && ResponseOctets(response, verb)
               == ResponseHeadOf(response, verb) + BodyOrNothing(mode, response.body, response.trailers)
            && (EncodeResponse(response, verb).Err? ==>
                  EncodeBody(mode, response.body, response.trailers) == Err(EncodeResponse(response, verb).error))
            && (EncodeResponse(response, verb).Err? <==> EncodeBody(mode, response.body, response.trailers).Err?)
  {
    hide ValidFieldValue, AllSendable, ValidConnectionFields, OpensTunnel, ValidTrailers, EncodeFields, EncodeChunk,
         EncodeLastChunk, StatusLineOf, ResponseWireFields, MustNotHaveBody, ResponseReason;
    assert ResponseHeadOf(response, verb) + "" == ResponseHeadOf(response, verb);
  }

  /** Emits exactly the encoding of the response, or refuses it with the encoding's error. A refusal has sent
      nothing, or the whole head exactly when it is late; a failed write leaves a prefix behind. */
  method WriteHTTPResponse(sink: Sink, response: Response, verb: string) returns (o: Outcome)
    modifies sink
    ensures o.Done? ==> EncodeResponse(response, verb).Ok?
                        && sink.written == old(sink.written) + EncodeResponse(response, verb).value
    ensures o.Refused? ==> && EncodeResponse(response, verb) == Err(o.error)
                           && sink.written == old(sink.written)
                                              + (if ResponseRefusedLate(response, verb)
                                                 then ResponseHeadOf(response, verb) else "")
    ensures o.WriteFailed? ==> Extends(old(sink.written), sink.written, ResponseOctets(response, verb))
    ensures sink.faulty == (old(sink.faulty) || o.WriteFailed?)
  {
    hide AllSendable, ValidFieldValue, ValidConnectionFields, OpensTunnel, ValidTrailers, EncodeFields, EncodeBody,
         FramingFields, WithoutFraming, ResponseReason, StatusLineOf, HasToken, EqualFold, Itoa;
    if VersionOr11(response.version) != HTTP_VERSION || response.status < 100 || response.status > 599 {
      return Refused(InvalidGeneratedMessage);
    }
    if !ValidFieldValue(ResponseReason(response)) || !AllSendable(response.headers) {
      return Refused(InvalidGeneratedMessage);
    }
    if !ValidConnectionFields(response.headers) { return Refused(MalformedHeader); }
    if OpensTunnel(verb, response.status, response.headers) { return Refused(UnsupportedFeature(Tunnel)); }
    if !ValidTrailers(response.trailers) { return Refused(MalformedHeader); }
    if response.mode.CloseDelimited? { return Refused(InvalidGeneratedMessage); }
    var mode := ResponseMode(response, verb);
    var kept := RemoveFramingFields(response.headers);
    if response.close && !HasToken(kept, "Connection", "close") {
      kept := kept + [Field("Connection", "close")];
    }
    assert kept == WithoutFraming(response.headers) + CloseField(response);
    var fields := kept;
    if MustNotHaveBody(verb, response.status) {
      if EqualFold(verb, "HEAD") || response.status == 304 {
        fields := fields + [Field("Content-Length", Itoa(|response.body|))];
      }
    } else {
      fields := FramedFields(kept, mode, response.body, response.trailers);
    }
    assert kept + [] == kept;
    assert fields == ResponseWireFields(response, verb);
    OnlyResponseBodyIsRefused(response, verb);
    o := WriteMessage(sink, StatusLineOf(response), fields, mode, response.body, response.trailers);
  }
}
